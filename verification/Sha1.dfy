/** The SHA-1 hash computation of section 6.1.2 of FIPS 180-4, for one message block. */
module Sha1Spec {
  import opened Bytes
  import opened Words

  /** The five working variables. */
  datatype Registers = Registers(a: bv32, b: bv32, c: bv32, d: bv32, e: bv32)

  /** Section 5.3.1. */
  const INITIAL_HASH: seq<bv32> := [0x67452301, 0xefcdab89, 0x98badcfe, 0x10325476, 0xc3d2e1f0]

  /** Section 4.2.1. */
  function K(t: nat): bv32
    requires t < 80
  {
    if t < 20 then 0x5a827999 else if t < 40 then 0x6ed9eba1 else if t < 60 then 0x8f1bbcdc else 0xca62c1d6
  }

  /** The constants are the square roots of 2, 3, 5 and 10, cut to 30 binary places. */
  lemma KIsRoot(t: nat)
    requires t < 80
    ensures var k := Number32(K(t));
            var n := if t < 20 then 2 else if t < 40 then 3 else if t < 60 then 5 else 10;
            k * k <= n * 0x1000_0000_0000_0000 < (k + 1) * (k + 1)
  {
  }

  /** The initial words are the counting nibbles, as a little-endian machine loads them. */
  lemma InitialHashIs()
    ensures INITIAL_HASH == [
      LittleEndian(0x01, 0x23, 0x45, 0x67), LittleEndian(0x89, 0xab, 0xcd, 0xef), LittleEndian(0xfe, 0xdc, 0xba, 0x98),
      LittleEndian(0x76, 0x54, 0x32, 0x10), LittleEndian(0xf0, 0xe1, 0xd2, 0xc3)]
  {
  }

  /** Section 4.1.1. */
  function Ch(x: bv32, y: bv32, z: bv32): bv32 {
    Xor(And(x, y), And(Not(x), z))
  }

  function Parity(x: bv32, y: bv32, z: bv32): bv32 {
    Xor(Xor(x, y), z)
  }

  function Maj(x: bv32, y: bv32, z: bv32): bv32 {
    Xor(Xor(And(x, y), And(x, z)), And(y, z))
  }

  function F(t: nat, x: bv32, y: bv32, z: bv32): bv32
    requires t < 80
  {
    if t < 20 then Ch(x, y, z) else if 40 <= t < 60 then Maj(x, y, z) else Parity(x, y, z)
  }

  /** The functions bit by bit: choice, parity, majority and parity again. */
  lemma FBit(t: nat, x: bv32, y: bv32, z: bv32, j: bv32)
    requires t < 80 && j < 32
    ensures Bit(F(t, x, y, z), j) <==>
      if t < 20 then if Bit(x, j) then Bit(y, j) else Bit(z, j)
      else if 40 <= t < 60 then (Bit(x, j) && Bit(y, j)) || (Bit(x, j) && Bit(z, j)) || (Bit(y, j) && Bit(z, j))
      else Odd(Bit(x, j), Bit(y, j), Bit(z, j))
  {
    hide Bit, Xor, And, Not;
    XorBit(And(x, y), And(Not(x), z), j);
    AndBit(Not(x), z, j);
    NotBit(x, j);
    Xor3Bit(x, y, z, j);
    Xor3Bit(And(x, y), And(x, z), And(y, z), j);
    AndBit(x, y, j);
    AndBit(x, z, j);
    AndBit(y, z, j);
  }

  /** Word `t` of the message schedule (step 1). */
  function Schedule(block: seq<bv8>, t: nat): bv32
    requires |block| == 64
  {
    if t < 16 then BigEndian(block[4 * t], block[4 * t + 1], block[4 * t + 2], block[4 * t + 3])
    else
      RotateLeft(Xor4(Schedule(block, t - 3), Schedule(block, t - 8),
                      Schedule(block, t - 14), Schedule(block, t - 16)), 1)
  }

  /** One iteration of step 3, where `f` is the value of the round function. */
  function Round(r: Registers, f: bv32, k: bv32, w: bv32): Registers {
    Registers(Sum5(RotateLeft(r.a, 5), f, r.e, k, w), r.a, RotateLeft(r.b, 30), r.c, r.d)
  }

  /** The registers after `t` iterations of step 3. */
  function Rounds(block: seq<bv8>, r: Registers, t: nat): Registers
    requires |block| == 64 && t <= 80
  {
    if t == 0 then r
    else
      var p := Rounds(block, r, t - 1);
      Round(p, F(t - 1, p.b, p.c, p.d), K(t - 1), Schedule(block, t - 1))
  }

  /** Step 2: the working variables start as the previous hash value. */
  function Load(hash: seq<bv32>): Registers
    requires |hash| == 5
  {
    Registers(hash[0], hash[1], hash[2], hash[3], hash[4])
  }

  function Store(r: Registers): seq<bv32> {
    [r.a, r.b, r.c, r.d, r.e]
  }

  /** Step 4: the next hash value. */
  function Compress(hash: seq<bv32>, block: seq<bv8>): (next: seq<bv32>)
    requires |hash| == 5 && |block| == 64
    ensures |next| == 5
  {
    AddWords(hash, Store(Rounds(block, Load(hash), 80)))
  }
}

/** `MDHash<Sha1>::ProcessBlock`: five-line groups over renamed registers. */
module Sha1 {
  import opened Bytes
  import opened Words
  import opened Sha1Spec

  function F1(b: bv32, c: bv32, d: bv32): bv32 {
    d ^ (b & (c ^ d))
  }

  function F2(b: bv32, c: bv32, d: bv32): bv32 {
    b ^ c ^ d
  }

  function F3(b: bv32, c: bv32, d: bv32): bv32 {
    (b & c) | (b & d) | (c & d)
  }

  /** The function each of the four loops applies. */
  function PhaseF(phase: nat, b: bv32, c: bv32, d: bv32): bv32 {
    if phase == 0 then F1(b, c, d) else if phase == 2 then F3(b, c, d) else F2(b, c, d)
  }

  // The standard's functions in the source's operators.

  lemma ChIs(x: bv32, y: bv32, z: bv32)
    ensures Ch(x, y, z) == (x & y) ^ (!x & z)
  {
  }

  lemma ParityIs(x: bv32, y: bv32, z: bv32)
    ensures Parity(x, y, z) == x ^ y ^ z
  {
    hide Xor;
    Xor3Is(x, y, z);
  }

  lemma MajIs(x: bv32, y: bv32, z: bv32)
    ensures Maj(x, y, z) == (x & y) ^ (x & z) ^ (y & z)
  {
  }

  lemma ChoiceBits(b: bv32, c: bv32, d: bv32)
    ensures d ^ (b & (c ^ d)) == (b & c) ^ (!b & d)
  {
  }

  lemma MajorityBits(b: bv32, c: bv32, d: bv32)
    ensures (b & c) | (b & d) | (c & d) == (b & c) ^ (b & d) ^ (c & d)
  {
  }

  lemma F1IsChoice(b: bv32, c: bv32, d: bv32)
    ensures F1(b, c, d) == Ch(b, c, d)
  {
    hide Ch;
    ChIs(b, c, d);
    ChoiceBits(b, c, d);
  }

  lemma F2IsParity(b: bv32, c: bv32, d: bv32)
    ensures F2(b, c, d) == Parity(b, c, d)
  {
    hide Parity;
    ParityIs(b, c, d);
  }

  lemma F3IsMajority(b: bv32, c: bv32, d: bv32)
    ensures F3(b, c, d) == Maj(b, c, d)
  {
    hide Maj;
    MajIs(b, c, d);
    MajorityBits(b, c, d);
  }

  /** The rewritten boolean functions are the standard's, phase by phase. */
  lemma PhaseFIsF(phase: nat, t: nat, b: bv32, c: bv32, d: bv32)
    requires phase < 4 && 20 * phase <= t < 20 * phase + 20
    ensures PhaseF(phase, b, c, d) == F(t, b, c, d)
  {
    hide F1, F2, F3, Ch, Parity, Maj;
    F1IsChoice(b, c, d);
    F2IsParity(b, c, d);
    F3IsMajority(b, c, d);
  }

  /**
   * One line of a group. It updates two registers in place; read through the renaming of the next
   * line, the five registers are exactly those of one shifting round.
   */
  method Line(a: bv32, b: bv32, c: bv32, d: bv32, e: bv32, f: bv32, k: bv32, w: bv32)
    returns (e': bv32, b': bv32)
    ensures Registers(e', a, b', c, d) == Round(Registers(a, b, c, d, e), f, k, w)
  {
    hide Add, Sum4, Sum5, RotateLeft;
    e' := Add(e, Sum4(RotateLeft(a, 5), f, w, k));
    b' := RotateLeft(b, 30);
    AddRegroups(e, RotateLeft(a, 5), f, w, k);
  }

  lemma RoundsStart(block: seq<bv8>, r: Registers)
    requires |block| == 64
    ensures Rounds(block, r, 0) == r
  {
  }

  /** Round `t`, with the round function as the code of its phase writes it. */
  lemma RoundsStep(block: seq<bv8>, r: Registers, phase: nat, t: nat)
    requires |block| == 64 && phase < 4 && 20 * phase <= t < 20 * phase + 20
    ensures
      var p := Rounds(block, r, t);
      Rounds(block, r, t + 1) == Round(p, PhaseF(phase, p.b, p.c, p.d), K(20 * phase), Schedule(block, t))
  {
    hide PhaseF, F, Round, Schedule;
    var p := Rounds(block, r, t);
    PhaseFIsF(phase, t, p.b, p.c, p.d);
  }

  /** Five lines, after which every register is back under its own name. */
  method FiveLines(r: Registers, words: array<bv32>, offset: nat, phase: nat, k: bv32,
                   ghost block: seq<bv8>, ghost r0: Registers)
    returns (r': Registers)
    requires |block| == 64 && words.Length == 80 && phase < 4 && 20 * phase <= offset <= 20 * phase + 15
    requires k == K(20 * phase)
    requires forall i :: 0 <= i < 80 ==> words[i] == Schedule(block, i)
    requires r == Rounds(block, r0, offset)
    ensures r' == Rounds(block, r0, offset + 5)
  {
    hide Round, Rounds, Schedule, PhaseF;
    var Registers(a, b, c, d, e) := r;
    RoundsStep(block, r0, phase, offset);
    e, b := Line(a, b, c, d, e, PhaseF(phase, b, c, d), k, words[offset]);
    RoundsStep(block, r0, phase, offset + 1);
    d, a := Line(e, a, b, c, d, PhaseF(phase, a, b, c), k, words[offset + 1]);
    RoundsStep(block, r0, phase, offset + 2);
    c, e := Line(d, e, a, b, c, PhaseF(phase, e, a, b), k, words[offset + 2]);
    RoundsStep(block, r0, phase, offset + 3);
    b, d := Line(c, d, e, a, b, PhaseF(phase, d, e, a), k, words[offset + 3]);
    RoundsStep(block, r0, phase, offset + 4);
    a, c := Line(b, c, d, e, a, PhaseF(phase, c, d, e), k, words[offset + 4]);
    r' := Registers(a, b, c, d, e);
  }

  /** One of the four round loops: groups `4 * phase` up to `4 * phase + 4`. */
  method Phase(r: Registers, words: array<bv32>, phase: nat, k: bv32, ghost block: seq<bv8>, ghost r0: Registers)
    returns (r': Registers)
    requires |block| == 64 && words.Length == 80 && phase < 4 && k == K(20 * phase)
    requires forall i :: 0 <= i < 80 ==> words[i] == Schedule(block, i)
    requires r == Rounds(block, r0, 20 * phase)
    ensures r' == Rounds(block, r0, 20 * phase + 20)
  {
    hide Rounds, Schedule;
    r' := r;
    for i := 4 * phase to 4 * phase + 4
      invariant r' == Rounds(block, r0, 5 * i)
    {
      r' := FiveLines(r', words, 5 * i, phase, k, block, r0);
    }
  }

  /** The first sixteen words: a little-endian load followed by a byte swap. */
  method LoadWords(words: array<bv32>, input: array<bv8>)
    requires words.Length == 80 && input.Length == 64
    modifies words
    ensures forall t :: 0 <= t < 16 ==> words[t] == Schedule(input[..], t)
  {
    hide Swap, BigEndian, LittleEndian;
    for i := 0 to 16
      invariant forall t :: 0 <= t < i ==> words[t] == Schedule(input[..], t)
    {
      words[i] := Swap(LittleEndian(input[4 * i], input[4 * i + 1], input[4 * i + 2], input[4 * i + 3]));
      SwapLoads(input[4 * i], input[4 * i + 1], input[4 * i + 2], input[4 * i + 3]);
    }
  }

  /** The right-hand side of the loop. */
  function NextWord(w3: bv32, w8: bv32, w14: bv32, w16: bv32): bv32 {
    RotateLeft(w3 ^ w8 ^ w14 ^ w16, 1)
  }

  lemma NextWordIs(w3: bv32, w8: bv32, w14: bv32, w16: bv32)
    ensures NextWord(w3, w8, w14, w16) == RotateLeft(Xor4(w3, w8, w14, w16), 1)
  {
    hide RotateLeft, Xor4;
    Xor4Is(w3, w8, w14, w16);
  }

  /** The loop that extends the schedule to eighty words. */
  method Extend(words: array<bv32>, ghost block: seq<bv8>)
    requires words.Length == 80 && |block| == 64
    requires forall t :: 0 <= t < 16 ==> words[t] == Schedule(block, t)
    modifies words
    ensures forall t :: 0 <= t < 80 ==> words[t] == Schedule(block, t)
  {
    hide RotateLeft, Xor4, NextWord;
    for i := 16 to 80
      invariant forall t :: 0 <= t < i ==> words[t] == Schedule(block, t)
    {
      NextWordIs(words[i - 3], words[i - 8], words[i - 14], words[i - 16]);
      words[i] := NextWord(words[i - 3], words[i - 8], words[i - 14], words[i - 16]);
    }
  }

  /** The grouped block function computes the standard's compression function. */
  method ProcessBlock(digest: array<bv32>, input: array<bv8>)
    requires digest.Length == 5 && input.Length == 64
    modifies digest
    ensures digest[..] == Compress(old(digest[..]), input[..])
  {
    hide Rounds, Schedule, AddWords;
    ghost var block := input[..];
    var words := new bv32[80];
    LoadWords(words, input);
    Extend(words, block);
    var r0 := Registers(digest[0], digest[1], digest[2], digest[3], digest[4]);
    RoundsStart(block, r0);
    var r := Phase(r0, words, 0, 0x5a827999, block, r0);
    r := Phase(r, words, 1, 0x6ed9eba1, block, r0);
    r := Phase(r, words, 2, 0x8f1bbcdc, block, r0);
    r := Phase(r, words, 3, 0xca62c1d6, block, r0);
    AddInto(digest, [r.a, r.b, r.c, r.d, r.e]);
  }
}
