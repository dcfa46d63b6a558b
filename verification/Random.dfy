/** The three generator objects of `Random`, updated in place by every draw. */
module Random {
  import opened ByteCopy
  import opened Bytes
  import opened RandomSpec

  /** `memcpy` of the first `n` bytes of a word. */
  method CopyWord(buffer: array<bv8>, at: nat, value: bv64, n: nat, ghost end: nat)
    requires n <= 8 && at + n <= end <= buffer.Length
    modifies buffer
    ensures forall i :: 0 <= i < n ==> buffer[at + i] == Byte64(value, i)
    ensures buffer[..at] == old(buffer[..at]) && buffer[end..] == old(buffer[end..])
  {
    hide Byte64;
    CopyInto(seq(n, i requires 0 <= i < 8 => Byte64(value, i)), buffer, at);
    assert buffer[end..] == buffer[..][end..] == old(buffer[..])[end..];
  }

  /** One more word at the end of the bytes drawn so far. */
  lemma StreamGrows(g: Generator, m: nat, n: nat, before: seq<bv8>, after: seq<bv8>)
    requires n <= Width(g) && before == Stream(g, m * Width(g))
    requires |after| == |before| + n && after[..|before|] == before
    requires forall i :: 0 <= i < n ==> after[|before| + i] == Byte64(Output(Run(g, m)), i)
    ensures after == Stream(g, m * Width(g) + n)
  {
    hide Output, Run, Byte64, StreamAt;
    forall k | |before| <= k < |after|
      ensures after[k] == StreamAt(g, k)
    {
      assert after[|before| + (k - |before|)] == Byte64(Output(Run(g, m)), k - |before|);
      ChunkOfStream(g, m, k - |before|);
    }
  }

  /** The body of `UInt32` and `UInt64` after the draw, in the arithmetic of a word with `m` values. */
  method DrawUInt(bits: nat, min: nat, max: nat, m: nat) returns (r: nat)
    requires IsModulus(m) && bits < m && min < m && max < m
    ensures r == UInt(bits, min, max, m)
    ensures min <= max ==> r == min + bits % (max - min + 1) <= max
  {
    UIntIsInCyclicRange(bits, min, max, m);
    var value := bits;
    var ret := (max - min + 1) % m;
    if ret != 0 {
      value := value % ret;
    }
    r := (value + min) % m;
  }

  /** `Int32` and `Int64`: the casts to unsigned and back. */
  method DrawInt(bits: nat, min: int, max: int, m: nat) returns (r: int)
    requires IsModulus(m) && bits < m && -(m / 2) <= min < m / 2 && -(m / 2) <= max < m / 2
    ensures r == Int(bits, min, max, m)
    ensures min <= max ==> r == min + bits % (max - min + 1) <= max
  {
    if min <= max {
      IntIs(bits, min, max, m);
    }
    hide UInt;
    var u := DrawUInt(bits, min % m, max % m, m);
    r := if u < m / 2 then u else u - m;
  }

  // The statements of the generators, one word at a time.

  lemma FoldIs(v: bv64)
    ensures Fold(v) == v ^ (v >> 33)
  {
  }

  lemma ScalesAre(v: bv64)
    ensures Scale1(v) == v * 0xff51afd7ed558ccd && Scale2(v) == v * 0xc4ceb9fe1a85ec53
  {
  }

  method Mix(v: bv64) returns (r: bv64)
    ensures r == Mix64(v)
  {
    hide Fold, Scale1, Scale2;
    r := v;
    FoldIs(r);
    r := r ^ (r >> 33);
    ScalesAre(r);
    r := r * 0xff51afd7ed558ccd;
    FoldIs(r);
    r := r ^ (r >> 33);
    ScalesAre(r);
    r := r * 0xc4ceb9fe1a85ec53;
    FoldIs(r);
    r := r ^ (r >> 33);
  }

  method Shift(seed: bv32) returns (s: bv32)
    ensures s == Shift32(seed)
  {
    hide Left13, Right17, Left5;
    s := seed;
    Left13Is(s);
    s := s ^ (s << 13);
    Right17Is(s);
    s := s ^ (s >> 17);
    Left5Is(s);
    s := s ^ (s << 5);
  }

  lemma Sum32Is(x: bv32, y: bv32)
    ensures Sum32(x, y) == x + y
  {
  }

  lemma Sum64Is(x: bv64, y: bv64)
    ensures Sum64(x, y) == x + y
  {
  }

  lemma LowIs(v: bv64)
    ensures Low(v) == (v & 0xffff_ffff) as bv32
  {
  }

  lemma PairIs(high: bv32, low: bv32)
    ensures Pair(Widen(high), Widen(low)) == (high as bv64 << 32) | low as bv64
  {
  }

  lemma MeetIs(s1: bv64, s0: bv64)
    ensures Meet(s1, s0) == s1 ^ s0
  {
  }

  lemma Left128Is(s0: bv64, x: bv64)
    ensures Left128(s0, x) == ((s0 << 55) | (s0 >> 9)) ^ x ^ (x << 14)
  {
  }

  lemma Right128Is(x: bv64)
    ensures Right128(x) == (x << 36) | (x >> 28)
  {
  }

  method Rotate(a: bv64, b: bv64) returns (left: bv64, right: bv64)
    ensures left == Left128(a, Meet(b, a)) && right == Right128(Meet(b, a))
  {
    hide Meet, Left128, Right128;
    var s0, s1 := a, b;
    MeetIs(s1, s0);
    s1 := s1 ^ s0;
    Left128Is(s0, s1);
    left := ((s0 << 55) | (s0 >> 9)) ^ s1 ^ (s1 << 14);
    Right128Is(s1);
    right := (s1 << 36) | (s1 >> 28);
  }

  lemma Left31Is(v: bv64)
    ensures Left31(v) == v ^ (v << 31)
  {
  }

  lemma BlendWithIs(t: bv64, s0: bv64)
    ensures BlendWith(t, s0) == t ^ s0 ^ (t >> 11) ^ (s0 >> 30)
  {
  }

  lemma StarIs(v: bv64)
    ensures Star(v) == v * 0x9e3779b97f4a7c13
  {
  }

  method Mingle(s0: bv64, b: bv64) returns (r: bv64)
    ensures r == Blend(s0, b)
  {
    hide Left31, BlendWith;
    var s1 := b;
    Left31Is(s1);
    s1 := s1 ^ (s1 << 31);
    BlendWithIs(s1, s0);
    r := s1 ^ s0 ^ (s1 >> 11) ^ (s0 >> 30);
  }

  class XorShift32 {
    var state: bv32

    ghost function View(): Generator
      reads this
    {
      Generator.XorShift32(state)
    }

    constructor (seed: bv32)
      ensures View() == Seed32(seed)
    {
      state := if seed != 0 then seed else 1;
    }

    method Bits32() returns (r: bv32)
      modifies this
      ensures View() == Step(old(View())) && Widen(r) == Output(old(View())) && r == RandomSpec.Bits32(old(View()))
    {
      var seed := state;
      hide Shift32, Sum32, Widen, Low;
      var s := Shift(seed);
      state := s;
      Sum32Is(s, seed);
      LowOfWiden(Sum32(state, seed));
      return s + seed;
    }

    method Bits64() returns (r: bv64)
      modifies this
      ensures View() == After64(old(View())) && r == RandomSpec.Bits64(old(View()))
    {
      hide Shift32, Output, Step, Pair, Widen;
      var high := Bits32();
      var low := Bits32();
      assert Run(old(View()), 2) == Step(Step(old(View())));
      PairIs(high, low);
      return (high as bv64 << 32) | low as bv64;
    }

    method UInt32(min: nat, max: nat) returns (r: nat)
      requires min < TWO32 && max < TWO32
      modifies this
      ensures View() == Step(old(View()))
      ensures r == UInt(Number32(RandomSpec.Bits32(old(View()))), min, max, TWO32)
      ensures min <= max ==> r == min + Number32(RandomSpec.Bits32(old(View()))) % (max - min + 1) <= max
    {
      assert IsModulus(TWO32);
      hide *;
      var bits := Bits32();
      r := DrawUInt(Number32(bits), min, max, TWO32);
    }

    method Int32(min: int, max: int) returns (r: int)
      requires -(TWO32 / 2) <= min < TWO32 / 2 && -(TWO32 / 2) <= max < TWO32 / 2
      modifies this
      ensures View() == Step(old(View()))
      ensures r == Int(Number32(RandomSpec.Bits32(old(View()))), min, max, TWO32)
      ensures min <= max ==> r == min + Number32(RandomSpec.Bits32(old(View()))) % (max - min + 1) <= max
    {
      assert IsModulus(TWO32);
      hide *;
      var bits := Bits32();
      r := DrawInt(Number32(bits), min, max, TWO32);
    }

    method UInt64(min: nat, max: nat) returns (r: nat)
      requires min < TWO64 && max < TWO64
      modifies this
      ensures View() == After64(old(View()))
      ensures r == UInt(Number(RandomSpec.Bits64(old(View()))), min, max, TWO64)
      ensures min <= max ==> r == min + Number(RandomSpec.Bits64(old(View()))) % (max - min + 1) <= max
    {
      assert IsModulus(TWO64);
      hide *;
      var bits := Bits64();
      r := DrawUInt(Number(bits), min, max, TWO64);
    }

    method Int64(min: int, max: int) returns (r: int)
      requires -(TWO64 / 2) <= min < TWO64 / 2 && -(TWO64 / 2) <= max < TWO64 / 2
      modifies this
      ensures View() == After64(old(View()))
      ensures r == Int(Number(RandomSpec.Bits64(old(View()))), min, max, TWO64)
      ensures min <= max ==> r == min + Number(RandomSpec.Bits64(old(View()))) % (max - min + 1) <= max
    {
      assert IsModulus(TWO64);
      hide *;
      var bits := Bits64();
      r := DrawInt(Number(bits), min, max, TWO64);
    }

    /** `size` bytes of the stream; nothing into a null buffer. */
    method Bytes(buffer: array?<bv8>, size: nat)
      requires buffer != null ==> size <= buffer.Length
      modifies this, buffer
      ensures buffer == null ==> View() == old(View())
      ensures buffer != null ==> View() == Run(old(View()), Draws(old(View()), size))
      ensures buffer != null ==> buffer[..size] == Stream(old(View()), size) && buffer[size..] == old(buffer[size..])
    {
      hide Step, Output, Run, Byte64, Stream;
      if buffer == null || size == 0 {
        FirstDraw(View());
        return;
      }
      var left, at := size, 0;
      ghost var n := 0;
      FirstDraw(View());
      while left > 4
        invariant at + left == size && at == 4 * n && left > 0
        invariant View() == Run(old(View()), n)
        invariant buffer[..at] == Stream(old(View()), at)
        invariant buffer[size..] == old(buffer[size..])
      {
        ghost var before := buffer[..at];
        var value := Bits32();
        CopyWord(buffer, at, Widen(value), 4, size);
        StreamGrows(old(View()), n, 4, before, buffer[..at + 4]);
        StepAfterRun(old(View()), n);
        at, left, n := at + 4, left - 4, n + 1;
      }
      ghost var before := buffer[..at];
      var value := Bits32();
      CopyWord(buffer, at, Widen(value), left, size);
      StreamGrows(old(View()), n, left, before, buffer[..size]);
      StepAfterRun(old(View()), n);
    }
  }

  class XorShift128 {
    const state: array<bv64>

    ghost predicate Valid()
      reads this
    {
      state.Length == 2
    }

    ghost function View(): Generator
      requires Valid()
      reads this, state
    {
      Generator.XorShift128(state[0], state[1])
    }

    constructor (seed: bv64)
      ensures Valid() && fresh(state) && View() == Seed128(seed)
    {
      hide Mix64;
      state := new bv64[2];
      new;
      var first := Mix(if seed != 0 then seed else 1);
      var second := Mix(first);
      state[0], state[1] := first, second;
    }

    method Bits64() returns (r: bv64)
      requires Valid()
      modifies state
      ensures Valid() && View() == Step(old(View())) && r == Output(old(View()))
      ensures View() == After64(old(View())) && r == RandomSpec.Bits64(old(View()))
    {
      var s0, s1 := state[0], state[1];
      hide Meet, Left128, Right128, Sum64;
      Sum64Is(s0, s1);
      r := s0 + s1;
      s0, s1 := Rotate(s0, s1);
      state[0], state[1] := s0, s1;
    }

    /** The low half of a 64-bit draw. */
    method Bits32() returns (r: bv32)
      requires Valid()
      modifies state
      ensures Valid() && View() == Step(old(View())) && r == RandomSpec.Bits32(old(View()))
    {
      hide Step, Output, Low;
      var value := Bits64();
      LowIs(value);
      return (value & 0xffff_ffff) as bv32;
    }

    method UInt32(min: nat, max: nat) returns (r: nat)
      requires Valid()
      requires min < TWO32 && max < TWO32
      modifies state
      ensures Valid() && View() == Step(old(View()))
      ensures r == UInt(Number32(RandomSpec.Bits32(old(View()))), min, max, TWO32)
      ensures min <= max ==> r == min + Number32(RandomSpec.Bits32(old(View()))) % (max - min + 1) <= max
    {
      assert IsModulus(TWO32);
      hide *;
      var bits := Bits32();
      r := DrawUInt(Number32(bits), min, max, TWO32);
    }

    method Int32(min: int, max: int) returns (r: int)
      requires Valid()
      requires -(TWO32 / 2) <= min < TWO32 / 2 && -(TWO32 / 2) <= max < TWO32 / 2
      modifies state
      ensures Valid() && View() == Step(old(View()))
      ensures r == Int(Number32(RandomSpec.Bits32(old(View()))), min, max, TWO32)
      ensures min <= max ==> r == min + Number32(RandomSpec.Bits32(old(View()))) % (max - min + 1) <= max
    {
      assert IsModulus(TWO32);
      hide *;
      var bits := Bits32();
      r := DrawInt(Number32(bits), min, max, TWO32);
    }

    method UInt64(min: nat, max: nat) returns (r: nat)
      requires Valid()
      requires min < TWO64 && max < TWO64
      modifies state
      ensures Valid() && View() == After64(old(View()))
      ensures r == UInt(Number(RandomSpec.Bits64(old(View()))), min, max, TWO64)
      ensures min <= max ==> r == min + Number(RandomSpec.Bits64(old(View()))) % (max - min + 1) <= max
    {
      assert IsModulus(TWO64);
      hide *;
      var bits := Bits64();
      r := DrawUInt(Number(bits), min, max, TWO64);
    }

    method Int64(min: int, max: int) returns (r: int)
      requires Valid()
      requires -(TWO64 / 2) <= min < TWO64 / 2 && -(TWO64 / 2) <= max < TWO64 / 2
      modifies state
      ensures Valid() && View() == After64(old(View()))
      ensures r == Int(Number(RandomSpec.Bits64(old(View()))), min, max, TWO64)
      ensures min <= max ==> r == min + Number(RandomSpec.Bits64(old(View()))) % (max - min + 1) <= max
    {
      assert IsModulus(TWO64);
      hide *;
      var bits := Bits64();
      r := DrawInt(Number(bits), min, max, TWO64);
    }

    /** `size` bytes of the stream; nothing into a null buffer. */
    method Bytes(buffer: array?<bv8>, size: nat)
      requires Valid()
      requires buffer != null ==> size <= buffer.Length
      modifies state, buffer
      ensures Valid()
      ensures buffer == null ==> View() == old(View())
      ensures buffer != null ==> View() == Run(old(View()), Draws(old(View()), size))
      ensures buffer != null ==> buffer[..size] == Stream(old(View()), size) && buffer[size..] == old(buffer[size..])
    {
      hide Step, Output, Run, Byte64, Stream;
      if buffer == null || size == 0 {
        FirstDraw(View());
        return;
      }
      var left, at := size, 0;
      ghost var n := 0;
      FirstDraw(View());
      while left > 8
        invariant Valid() && at + left == size && at == 8 * n && left > 0
        invariant View() == Run(old(View()), n)
        invariant buffer[..at] == Stream(old(View()), at)
        invariant buffer[size..] == old(buffer[size..])
      {
        ghost var before := buffer[..at];
        var value := Bits64();
        CopyWord(buffer, at, value, 8, size);
        StreamGrows(old(View()), n, 8, before, buffer[..at + 8]);
        StepAfterRun(old(View()), n);
        at, left, n := at + 8, left - 8, n + 1;
      }
      ghost var before := buffer[..at];
      var value := Bits64();
      CopyWord(buffer, at, value, left, size);
      StreamGrows(old(View()), n, left, before, buffer[..size]);
      StepAfterRun(old(View()), n);
    }
  }

  class XorShift1024 {
    const state: array<bv64>
    var p: nat

    ghost predicate Valid()
      reads this
    {
      state.Length == 16 && p < 16
    }

    ghost function View(): Generator
      requires Valid()
      reads this, state
    {
      Generator.XorShift1024(state[..], p)
    }

    constructor (seed: bv64)
      ensures Valid() && fresh(state) && View() == Seed1024(seed)
      ensures p == 0 && state[0] == Mix64(if seed != 0 then seed else 1)
      ensures forall i :: 0 < i < 16 ==> state[i] == Mix64(state[i - 1])
    {
      hide Mix64;
      state := new bv64[16];
      p := 0;
      new;
      var first := if seed != 0 then seed else 1;
      var seed := first;
      for i := 0 to 16
        invariant Valid() && p == 0
        invariant state[..i] == MixChain(first, i)
        invariant seed == if i == 0 then first else MixChain(first, i)[i - 1]
      {
        seed := Mix(seed);
        state[i] := seed;
      }
      assert state[..] == MixChain(first, 16);
      MixChainIs(first, 16, 0);
      assert state[0] == state[..][0];
      forall i | 0 < i < 16 ensures state[i] == Mix64(state[i - 1]) {
        MixChainIs(first, 16, i);
        assert state[i] == state[..][i] && state[i - 1] == state[..][i - 1];
      }
    }

    method Bits64() returns (r: bv64)
      requires Valid()
      modifies this, state
      ensures Valid() && View() == Step(old(View())) && r == Output(old(View()))
      ensures View() == After64(old(View())) && r == RandomSpec.Bits64(old(View()))
    {
      var s0 := state[p];
      p := (p + 1) % 16;
      hide Blend, Star;
      var word := Mingle(s0, state[p]);
      state[p] := word;
      StarIs(word);
      return word * 0x9e3779b97f4a7c13;
    }

    /** The low half of a 64-bit draw. */
    method Bits32() returns (r: bv32)
      requires Valid()
      modifies this, state
      ensures Valid() && View() == Step(old(View())) && r == RandomSpec.Bits32(old(View()))
    {
      hide Step, Output, Low;
      var value := Bits64();
      LowIs(value);
      return (value & 0xffff_ffff) as bv32;
    }

    method UInt32(min: nat, max: nat) returns (r: nat)
      requires Valid()
      requires min < TWO32 && max < TWO32
      modifies this, state
      ensures Valid() && View() == Step(old(View()))
      ensures r == UInt(Number32(RandomSpec.Bits32(old(View()))), min, max, TWO32)
      ensures min <= max ==> r == min + Number32(RandomSpec.Bits32(old(View()))) % (max - min + 1) <= max
    {
      assert IsModulus(TWO32);
      hide *;
      var bits := Bits32();
      r := DrawUInt(Number32(bits), min, max, TWO32);
    }

    method Int32(min: int, max: int) returns (r: int)
      requires Valid()
      requires -(TWO32 / 2) <= min < TWO32 / 2 && -(TWO32 / 2) <= max < TWO32 / 2
      modifies this, state
      ensures Valid() && View() == Step(old(View()))
      ensures r == Int(Number32(RandomSpec.Bits32(old(View()))), min, max, TWO32)
      ensures min <= max ==> r == min + Number32(RandomSpec.Bits32(old(View()))) % (max - min + 1) <= max
    {
      assert IsModulus(TWO32);
      hide *;
      var bits := Bits32();
      r := DrawInt(Number32(bits), min, max, TWO32);
    }

    method UInt64(min: nat, max: nat) returns (r: nat)
      requires Valid()
      requires min < TWO64 && max < TWO64
      modifies this, state
      ensures Valid() && View() == After64(old(View()))
      ensures r == UInt(Number(RandomSpec.Bits64(old(View()))), min, max, TWO64)
      ensures min <= max ==> r == min + Number(RandomSpec.Bits64(old(View()))) % (max - min + 1) <= max
    {
      assert IsModulus(TWO64);
      hide *;
      var bits := Bits64();
      r := DrawUInt(Number(bits), min, max, TWO64);
    }

    method Int64(min: int, max: int) returns (r: int)
      requires Valid()
      requires -(TWO64 / 2) <= min < TWO64 / 2 && -(TWO64 / 2) <= max < TWO64 / 2
      modifies this, state
      ensures Valid() && View() == After64(old(View()))
      ensures r == Int(Number(RandomSpec.Bits64(old(View()))), min, max, TWO64)
      ensures min <= max ==> r == min + Number(RandomSpec.Bits64(old(View()))) % (max - min + 1) <= max
    {
      assert IsModulus(TWO64);
      hide *;
      var bits := Bits64();
      r := DrawInt(Number(bits), min, max, TWO64);
    }

    /** `size` bytes of the stream; nothing into a null buffer. */
    method Bytes(buffer: array?<bv8>, size: nat)
      requires Valid()
      requires buffer != null ==> size <= buffer.Length
      modifies this, state, buffer
      ensures Valid()
      ensures buffer == null ==> View() == old(View())
      ensures buffer != null ==> View() == Run(old(View()), Draws(old(View()), size))
      ensures buffer != null ==> buffer[..size] == Stream(old(View()), size) && buffer[size..] == old(buffer[size..])
    {
      hide Step, Output, Run, Byte64, Stream;
      if buffer == null || size == 0 {
        FirstDraw(View());
        return;
      }
      var left, at := size, 0;
      ghost var n := 0;
      FirstDraw(View());
      while left > 8
        invariant Valid() && at + left == size && at == 8 * n && left > 0
        invariant View() == Run(old(View()), n)
        invariant buffer[..at] == Stream(old(View()), at)
        invariant buffer[size..] == old(buffer[size..])
      {
        ghost var before := buffer[..at];
        var value := Bits64();
        CopyWord(buffer, at, value, 8, size);
        StreamGrows(old(View()), n, 8, before, buffer[..at + 8]);
        StepAfterRun(old(View()), n);
        at, left, n := at + 8, left - 8, n + 1;
      }
      ghost var before := buffer[..at];
      var value := Bits64();
      CopyWord(buffer, at, value, left, size);
      StreamGrows(old(View()), n, left, before, buffer[..size]);
      StepAfterRun(old(View()), n);
    }
  }

  /** Drawing nothing. */
  lemma FirstDraw(g: Generator)
    ensures Run(g, 0) == g && Stream(g, 0) == []
  {
  }
}
