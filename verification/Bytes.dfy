/** Bytes as digits: what a sequence of bytes is worth in either order, and the bytes of machine words. */
module Bytes {

  const TWO32: nat := 0x1_0000_0000
  const TWO64: nat := 0x1_0000_0000_0000_0000

  function Digit(b: bv8): nat {
    b as nat
  }

  function ToByte(n: nat): bv8
    requires n < 256
  {
    n as bv8
  }

  lemma ByteOfDigit(b: bv8)
    ensures Digit(b) < 256 && ToByte(Digit(b)) == b
  {
  }

  lemma NextDigit(b: bv8)
    requires b != 255
    ensures Digit(b + 1) == Digit(b) + 1
  {
  }

  lemma LastDigit()
    ensures Digit(255) == 255
  {
  }

  /** Every number below 256 is the value of some byte ... */
  lemma {:induction false} ByteWorth(n: nat) returns (b: bv8)
    requires n < 256
    ensures Digit(b) == n
  {
    if n == 0 {
      b := 0;
    } else {
      hide Digit;
      LastDigit();
      b := ByteWorth(n - 1);
      NextDigit(b);
      b := b + 1;
    }
  }

  /** ... and that byte is what converting it gives. */
  lemma DigitOf(n: nat)
    requires n < 256
    ensures Digit(ToByte(n)) == n
  {
    hide *;
    var b := ByteWorth(n);
    ByteOfDigit(b);
  }

  /** The number whose base-256 digits are `b`, the most significant first. */
  function BigValue(b: seq<bv8>): nat {
    if b == [] then 0 else 256 * BigValue(b[..|b| - 1]) + Digit(b[|b| - 1])
  }

  /** The number whose base-256 digits are `b`, the least significant first. */
  function LittleValue(b: seq<bv8>): nat {
    if b == [] then 0 else Digit(b[0]) + 256 * LittleValue(b[1..])
  }

  function Number(x: bv64): (n: nat)
    ensures n < TWO64
  {
    x as nat
  }

  function Number16(x: bv16): nat {
    x as nat
  }

  function Number32(x: bv32): (n: nat)
    ensures n < TWO32
  {
    x as nat
  }

  /** Byte `j` of a word, the least significant being byte 0. */
  function Byte32(w: bv32, j: nat): bv8
    requires j < 4
  {
    if j == 0 then (w & 0xff) as bv8 else if j == 1 then ((w >> 8) & 0xff) as bv8
    else if j == 2 then ((w >> 16) & 0xff) as bv8 else ((w >> 24) & 0xff) as bv8
  }

  function Low(v: bv64): bv32 {
    (v & 0xffff_ffff) as bv32
  }

  function High(v: bv64): bv32 {
    ((v >> 32) & 0xffff_ffff) as bv32
  }

  function Widen(v: bv32): bv64 {
    v as bv64
  }

  function Pair(high: bv64, low: bv64): bv64 {
    (high << 32) | low
  }

  /** The word whose most significant byte is `b0`. */
  function BigEndian(b0: bv8, b1: bv8, b2: bv8, b3: bv8): bv32 {
    (b0 as bv32 << 24) | (b1 as bv32 << 16) | (b2 as bv32 << 8) | b3 as bv32
  }

  /** The word whose least significant byte is `b0`: what a little-endian machine loads. */
  function LittleEndian(b0: bv8, b1: bv8, b2: bv8, b3: bv8): bv32 {
    BigEndian(b3, b2, b1, b0)
  }

  // ---------------------------------------------------------------------------------------------
  // 32 bits

  function Horner(b0: bv8, b1: bv8, b2: bv8, b3: bv8): nat {
    256 * (256 * (256 * Digit(b0) + Digit(b1)) + Digit(b2)) + Digit(b3)
  }

  lemma FourDigits(b0: bv8, b1: bv8, b2: bv8, b3: bv8)
    ensures BigValue([b0, b1, b2, b3])
         == Horner(b0, b1, b2, b3)
    ensures LittleValue([b3, b2, b1, b0]) == BigValue([b0, b1, b2, b3])
  {
    hide BigValue, LittleValue, Digit;
    assert [b0, b1] == [b0] + [b1] && [b0, b1, b2] == [b0, b1] + [b2] && [b0, b1, b2, b3] == [b0, b1, b2] + [b3];
    assert [b1, b0] == [b1] + [b0] && [b2, b1, b0] == [b2] + [b1, b0] && [b3, b2, b1, b0] == [b3] + [b2, b1, b0];
    OneDigit(b0);
    BigGrows([b0], b1);
    BigGrows([b0, b1], b2);
    BigGrows([b0, b1, b2], b3);
    LittleGrows(b1, [b0]);
    LittleGrows(b2, [b1, b0]);
    LittleGrows(b3, [b2, b1, b0]);
  }

  lemma OneDigit(b: bv8)
    ensures BigValue([b]) == LittleValue([b]) == Digit(b)
  {
  }

  lemma BigGrows(b: seq<bv8>, d: bv8)
    ensures BigValue(b + [d]) == 256 * BigValue(b) + Digit(d)
  {
    assert (b + [d])[..|b|] == b;
  }

  lemma LittleGrows(d: bv8, b: seq<bv8>)
    ensures LittleValue([d] + b) == Digit(d) + 256 * LittleValue(b)
  {
    assert ([d] + b)[1..] == b;
  }

  lemma EndianDigits(b0: bv8, b1: bv8, b2: bv8, b3: bv8)
    ensures Number32(BigEndian(b0, b1, b2, b3))
         == Horner(b0, b1, b2, b3)
  {
  }

  /** What the two loads are worth. */
  lemma EndianIs(b0: bv8, b1: bv8, b2: bv8, b3: bv8)
    ensures Number32(BigEndian(b0, b1, b2, b3)) == BigValue([b0, b1, b2, b3])
    ensures Number32(LittleEndian(b0, b1, b2, b3)) == LittleValue([b0, b1, b2, b3])
  {
    hide Number32, BigEndian, BigValue, LittleValue;
    EndianDigits(b0, b1, b2, b3);
    EndianDigits(b3, b2, b1, b0);
    FourDigits(b0, b1, b2, b3);
    FourDigits(b3, b2, b1, b0);
  }

  lemma JoinsBytes(w: bv32)
    ensures BigEndian(Byte32(w, 3), Byte32(w, 2), Byte32(w, 1), Byte32(w, 0)) == w
  {
    assert BigEndian(((w >> 24) & 0xff) as bv8, ((w >> 16) & 0xff) as bv8,
                     ((w >> 8) & 0xff) as bv8, (w & 0xff) as bv8) == w;
  }

  /** The bytes of a word are its digits. */
  lemma DigitsOf32(w: bv32)
    ensures BigValue([Byte32(w, 3), Byte32(w, 2), Byte32(w, 1), Byte32(w, 0)]) == Number32(w)
    ensures LittleValue([Byte32(w, 0), Byte32(w, 1), Byte32(w, 2), Byte32(w, 3)]) == Number32(w)
  {
    JoinsBytes(w);
    hide Byte32, Number32, BigEndian, BigValue, LittleValue;
    EndianIs(Byte32(w, 3), Byte32(w, 2), Byte32(w, 1), Byte32(w, 0));
    FourDigits(Byte32(w, 3), Byte32(w, 2), Byte32(w, 1), Byte32(w, 0));
  }

  // ---------------------------------------------------------------------------------------------
  // 64 bits

  lemma LowOfWiden(v: bv32)
    ensures Low(Widen(v)) == v
  {
    assert Low(v as bv64) == v;
  }

  lemma WidenKeeps(v: bv32)
    ensures Number(Widen(v)) == Number32(v)
  {
    assert Number(v as bv64) == Number32(v);
  }

  /** Two halves side by side, as numbers. */
  lemma HalvesAreDigits(high: bv32, low: bv32)
    ensures Number(Pair(Widen(high), Widen(low))) == TWO32 * Number32(high) + Number32(low)
  {
    assert Number((high as bv64 << 32) | low as bv64) == TWO32 * Number32(high) + Number32(low);
  }

  lemma SplitsInHalves(v: bv64)
    ensures Pair(Widen(High(v)), Widen(Low(v))) == v
  {
    assert Pair(((v >> 32) & 0xffff_ffff) as bv32 as bv64, (v & 0xffff_ffff) as bv32 as bv64) == v;
  }

  /** A word is its two halves, and the low one is the remainder. */
  lemma HalvesOf(v: bv64)
    ensures Number(v) == TWO32 * Number32(High(v)) + Number32(Low(v))
    ensures Number32(Low(v)) == Number(v) % TWO32
  {
    hide Number, Number32, Pair, Widen, Low, High;
    SplitsInHalves(v);
    HalvesAreDigits(High(v), Low(v));
  }

  /** Byte `i` of a word, the least significant being byte 0. */
  function Byte64(v: bv64, i: nat): bv8
    requires i < 8
  {
    if i < 4 then Byte32(Low(v), i) else Byte32(High(v), i - 4)
  }

  /** What a digit is worth with `n` others below it. */
  function Weight(n: nat): nat {
    if n == 0 then 1 else 256 * Weight(n - 1)
  }

  lemma WeightGrows(n: nat, x: nat)
    ensures Weight(n + 1) * x == 256 * (Weight(n) * x)
  {
  }

  lemma {:induction false} BigConcat(a: seq<bv8>, b: seq<bv8>)
    ensures BigValue(a + b) == Weight(|b|) * BigValue(a) + BigValue(b)
    decreases |b|
  {
    if b == [] {
      assert a + b == a;
    } else {
      hide BigValue, Digit;
      var front, last := b[..|b| - 1], b[|b| - 1];
      assert a + b == (a + front) + [last] && b == front + [last];
      BigGrows(a + front, last);
      BigGrows(front, last);
      BigConcat(a, front);
      WeightGrows(|front|, BigValue(a));
    }
  }

  lemma {:induction false} LittleConcat(a: seq<bv8>, b: seq<bv8>)
    ensures LittleValue(a + b) == LittleValue(a) + Weight(|a|) * LittleValue(b)
    decreases |a|
  {
    if a == [] {
      assert a + b == b;
    } else {
      hide LittleValue, Digit;
      var first, more := a[0], a[1..];
      assert a + b == [first] + (more + b) && a == [first] + more;
      LittleGrows(first, more + b);
      LittleGrows(first, more);
      LittleConcat(more, b);
      WeightGrows(|more|, LittleValue(b));
    }
  }

  lemma WeightOf4()
    ensures Weight(4) == TWO32
  {
    assert Weight(2) == 256 * Weight(1);
  }

  lemma WeightOf8()
    ensures Weight(8) == TWO64
  {
    WeightOf4();
    assert Weight(6) == 256 * 256 * Weight(4);
  }

  lemma LittleOfNone()
    ensures LittleValue([]) == 0
  {
  }

  function Reversed(b: seq<bv8>): (r: seq<bv8>)
    ensures |r| == |b|
  {
    seq(|b|, i requires 0 <= i < |b| => b[|b| - 1 - i])
  }

  /** The same digits from the other end. */
  lemma {:induction false} ReversedValue(b: seq<bv8>)
    ensures BigValue(Reversed(b)) == LittleValue(b)
    decreases |b|
  {
    if b != [] {
      hide Digit;
      assert b == [b[0]] + b[1..];
      assert Reversed(b) == Reversed(b[1..]) + [b[0]];
      LittleGrows(b[0], b[1..]);
      BigGrows(Reversed(b[1..]), b[0]);
      hide LittleValue, BigValue;
      ReversedValue(b[1..]);
    }
  }

  /** The bytes of a word, in memory order of a little-endian machine. */
  function LittleBytes64(v: bv64): (b: seq<bv8>)
    ensures |b| == 8
  {
    seq(8, i requires 0 <= i < 8 => Byte64(v, i))
  }

  lemma DigitsOf64(v: bv64)
    ensures LittleValue(LittleBytes64(v)) == Number(v)
    ensures LittleValue(LittleBytes64(v)[..4]) == Number32(Low(v))
  {
    hide Byte32, Low, High, Number, Number32, LittleValue, BigValue;
    var b := LittleBytes64(v);
    assert b[..4] == [Byte32(Low(v), 0), Byte32(Low(v), 1), Byte32(Low(v), 2), Byte32(Low(v), 3)];
    assert b[4..] == [Byte32(High(v), 0), Byte32(High(v), 1), Byte32(High(v), 2), Byte32(High(v), 3)];
    assert b == b[..4] + b[4..];
    LittleConcat(b[..4], b[4..]);
    WeightOf4();
    DigitsOf32(Low(v));
    DigitsOf32(High(v));
    HalvesOf(v);
  }
}
