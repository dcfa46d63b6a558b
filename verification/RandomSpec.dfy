/** The xorshift generators as functions: seeding, one step, output, and the bytes drawn from them. */
module RandomSpec {
  import opened Bytes

  // ---------------------------------------------------------------------------------------------
  // Mix64 and its inverse

  function Fold(v: bv64): bv64 {
    v ^ (v >> 33)
  }

  function Scale1(v: bv64): bv64 {
    v * 0xff51afd7ed558ccd
  }

  function Scale2(v: bv64): bv64 {
    v * 0xc4ceb9fe1a85ec53
  }

  function Mix64(v: bv64): bv64 {
    Fold(Scale2(Fold(Scale1(Fold(v)))))
  }

  /** The inverse of the first multiplier modulo 2^64. */
  function Unscale1(v: bv64): bv64 {
    v * 0x4f74430c22a54005
  }

  function Unscale2(v: bv64): bv64 {
    v * 0x9cb4b2f8129337db
  }

  function Unmix64(v: bv64): bv64 {
    Fold(Unscale1(Fold(Unscale2(Fold(v)))))
  }

  lemma FoldInverts(v: bv64)
    ensures Fold(Fold(v)) == v
  {
    assert Fold(v ^ (v >> 33)) == v;
  }

  lemma ScaleInverts1(v: bv64)
    ensures Unscale1(Scale1(v)) == v && Scale1(Unscale1(v)) == v
  {
    assert Unscale1(v * 0xff51afd7ed558ccd) == v;
    assert Scale1(v * 0x4f74430c22a54005) == v;
  }

  lemma ScaleInverts2(v: bv64)
    ensures Unscale2(Scale2(v)) == v && Scale2(Unscale2(v)) == v
  {
    assert Unscale2(v * 0xc4ceb9fe1a85ec53) == v;
    assert Scale2(v * 0x9cb4b2f8129337db) == v;
  }

  /** `Mix64` is a bijection: both multipliers are odd, so they have inverses modulo 2^64. */
  lemma MixInverts(v: bv64)
    ensures Unmix64(Mix64(v)) == v && Mix64(Unmix64(v)) == v
  {
    hide Fold, Scale1, Scale2, Unscale1, Unscale2;
    var a := Fold(v);
    var b, c := Scale1(a), Unscale2(a);
    FoldInverts(v);
    ScaleInverts1(a);
    ScaleInverts2(a);
    FoldInverts(b);
    FoldInverts(c);
    ScaleInverts2(Fold(b));
    ScaleInverts1(Fold(c));
    FoldInverts(Scale2(Fold(b)));
    FoldInverts(Unscale1(Fold(c)));
  }

  lemma MixOfZero()
    ensures Fold(0) == 0 && Scale1(0) == 0 && Scale2(0) == 0 && Unscale1(0) == 0 && Unscale2(0) == 0
  {
  }

  /** Only zero is mixed to zero. */
  lemma MixesZeroToZero(v: bv64)
    ensures Mix64(v) == 0 <==> v == 0
  {
    hide Fold, Scale1, Scale2, Unscale1, Unscale2;
    MixOfZero();
    MixInverts(v);
  }

  // ---------------------------------------------------------------------------------------------
  // Generators

  type Words16 = s: seq<bv64> | |s| == 16 witness seq(16, _ => 0)
  type Cursor = n: nat | n < 16

  datatype Generator =
    | XorShift32(s: bv32)
    | XorShift128(s0: bv64, s1: bv64)
    | XorShift1024(words: Words16, p: Cursor)

  function Seed32(seed: bv32): Generator {
    XorShift32(if seed != 0 then seed else 1)
  }

  function Seed128(seed: bv64): Generator {
    var first := Mix64(if seed != 0 then seed else 1);
    XorShift128(first, Mix64(first))
  }

  /** `n` words, each the mix of the one before. */
  function MixChain(seed: bv64, n: nat): (r: seq<bv64>)
    ensures |r| == n
  {
    if n == 0 then [] else MixChain(seed, n - 1) + [Mix64(if n == 1 then seed else MixChain(seed, n - 1)[n - 2])]
  }

  function Seed1024(seed: bv64): Generator {
    XorShift1024(MixChain(if seed != 0 then seed else 1, 16), 0)
  }

  /** The three statements of `XorShift32`. */
  function Left13(v: bv32): bv32 {
    v ^ (v << 13)
  }

  function Right17(v: bv32): bv32 {
    v ^ (v >> 17)
  }

  function Left5(v: bv32): bv32 {
    v ^ (v << 5)
  }

  lemma Left13Is(v: bv32)
    ensures Left13(v) == v ^ (v << 13)
  {
  }

  lemma Right17Is(v: bv32)
    ensures Right17(v) == v ^ (v >> 17)
  {
  }

  lemma Left5Is(v: bv32)
    ensures Left5(v) == v ^ (v << 5)
  {
  }

  function Shift32(seed: bv32): bv32 {
    Left5(Right17(Left13(seed)))
  }

  /** The statements of `XorShift128`, with `rotl` by 55 and by 36 written out. */
  function Meet(s1: bv64, s0: bv64): bv64 {
    s1 ^ s0
  }

  function Left128(s0: bv64, x: bv64): bv64 {
    ((s0 << 55) | (s0 >> 9)) ^ x ^ (x << 14)
  }

  function Right128(x: bv64): bv64 {
    (x << 36) | (x >> 28)
  }

  /** The statements of `XorShift1024`. */
  function Left31(v: bv64): bv64 {
    v ^ (v << 31)
  }

  function BlendWith(t: bv64, s0: bv64): bv64 {
    t ^ s0 ^ (t >> 11) ^ (s0 >> 30)
  }

  /** The word that `XorShift1024` puts in place of `s1`, which follows `s0`. */
  function Blend(s0: bv64, s1: bv64): bv64 {
    BlendWith(Left31(s1), s0)
  }

  function After(p: Cursor): Cursor {
    if p == 15 then 0 else p + 1
  }

  function Before(p: Cursor): Cursor {
    if p == 0 then 15 else p - 1
  }

  /** The state after one native output. */
  function Step(g: Generator): Generator {
    match g
    case XorShift32(s) => XorShift32(Shift32(s))
    case XorShift128(s0, s1) => XorShift128(Left128(s0, Meet(s1, s0)), Right128(Meet(s1, s0)))
    case XorShift1024(words, p) => XorShift1024(words[After(p) := Blend(words[p], words[After(p)])], After(p))
  }

  /** The arithmetic of the outputs, named so that proofs can treat it as opaque. */
  function Sum32(x: bv32, y: bv32): bv32 {
    x + y
  }

  function Sum64(x: bv64, y: bv64): bv64 {
    x + y
  }

  function Star(v: bv64): bv64 {
    v * 0x9e3779b97f4a7c13
  }

  /** The multiplier is odd, so the product determines the word. */
  function Unstar(v: bv64): bv64 {
    v * 0x3fbd78d0fbf0ae1b
  }

  lemma StarInverts(v: bv64)
    ensures Unstar(Star(v)) == v && Star(Unstar(v)) == v
  {
    assert Unstar(v * 0x9e3779b97f4a7c13) == v;
    assert Star(v * 0x3fbd78d0fbf0ae1b) == v;
  }

  /** The native output: 32 bits for `XorShift32`, 64 for the others. */
  function Output(g: Generator): bv64 {
    match g
    case XorShift32(s) => Widen(Sum32(Shift32(s), s))
    case XorShift128(s0, s1) => Sum64(s0, s1)
    case XorShift1024(words, p) => Star(Blend(words[p], words[After(p)]))
  }

  /** `Bits32`: the output, or its low half. */
  function Bits32(g: Generator): bv32 {
    Low(Output(g))
  }

  /** `Bits64`: the output, or two of 32 bits with the first in the high half, ... */
  function Bits64(g: Generator): bv64 {
    if g.XorShift32? then Pair(Output(g), Output(Step(g))) else Output(g)
  }

  /** What the two widths draw, as numbers. */
  lemma BitsAreNumbers(g: Generator)
    ensures Number32(Bits32(g)) == Number(Output(g)) % TWO32
    ensures Number(Bits64(g)) == if g.XorShift32? then TWO32 * Number32(Bits32(g)) + Number32(Bits32(Step(g)))
                                 else Number(Output(g))
  {
    hide Number, Number32, Shift32, Sum32;
    HalvesOf(Output(g));
    if g.XorShift32? {
      var high, low := Sum32(Shift32(g.s), g.s), Sum32(Shift32(Shift32(g.s)), Shift32(g.s));
      LowOfWiden(high);
      LowOfWiden(low);
      HalvesAreDigits(high, low);
    }
  }

  /** ... and the state after it. */
  function After64(g: Generator): Generator {
    if g.XorShift32? then Run(g, 2) else Step(g)
  }

  function Run(g: Generator, n: nat): Generator
    decreases n
  {
    if n == 0 then g else Run(Step(g), n - 1)
  }

  predicate IsZero(g: Generator) {
    match g
    case XorShift32(s) => s == 0
    case XorShift128(s0, s1) => s0 == 0 && s1 == 0
    case XorShift1024(words, _) => forall i :: 0 <= i < 16 ==> words[i] == 0
  }

  predicate SameKind(g: Generator, h: Generator) {
    (g.XorShift32? <==> h.XorShift32?) && (g.XorShift128? <==> h.XorShift128?)
  }

  // ---------------------------------------------------------------------------------------------
  // Every step can be undone

  function Unleft13(v: bv32): bv32 {
    v ^ (v << 13) ^ (v << 26)
  }

  function Unleft5(v: bv32): bv32 {
    v ^ (v << 5) ^ (v << 10) ^ (v << 15) ^ (v << 20) ^ (v << 25) ^ (v << 30)
  }

  function Unshift32(r: bv32): bv32 {
    Unleft13(Right17(Unleft5(r)))
  }

  function Unleft128(left: bv64, x: bv64): bv64 {
    var y := left ^ x ^ (x << 14);
    (y << 9) | (y >> 55)
  }

  function Unright128(right: bv64): bv64 {
    (right << 28) | (right >> 36)
  }

  function Unleft31(v: bv64): bv64 {
    v ^ (v << 31) ^ (v << 62)
  }

  function UnblendWith(r: bv64, s0: bv64): bv64 {
    var u := r ^ s0 ^ (s0 >> 30);
    u ^ (u >> 11) ^ (u >> 22) ^ (u >> 33) ^ (u >> 44) ^ (u >> 55)
  }

  function Unblend(s0: bv64, r: bv64): bv64 {
    Unleft31(UnblendWith(r, s0))
  }

  function Unstep(g: Generator): Generator {
    match g
    case XorShift32(s) => XorShift32(Unshift32(s))
    case XorShift128(left, right) =>
      var x := Unright128(right);
      var s0 := Unleft128(left, x);
      XorShift128(s0, Meet(x, s0))
    case XorShift1024(words, p) => XorShift1024(words[p := Unblend(words[Before(p)], words[p])], Before(p))
  }

  // Each statement has its inverse.

  lemma Left13Inverts(v: bv32)
    ensures Unleft13(Left13(v)) == v && Left13(Unleft13(v)) == v
  {
    assert Unleft13(v ^ (v << 13)) == v;
    assert Left13(v ^ (v << 13) ^ (v << 26)) == v;
  }

  lemma Right17Inverts(v: bv32)
    ensures Right17(Right17(v)) == v
  {
    assert Right17(v ^ (v >> 17)) == v;
  }

  lemma Left5Inverts(v: bv32)
    ensures Unleft5(Left5(v)) == v && Left5(Unleft5(v)) == v
  {
    assert Unleft5(v ^ (v << 5)) == v;
    assert Left5(v ^ (v << 5) ^ (v << 10) ^ (v << 15) ^ (v << 20) ^ (v << 25) ^ (v << 30)) == v;
  }

  lemma ShiftInverts(s: bv32)
    ensures Unshift32(Shift32(s)) == s && Shift32(Unshift32(s)) == s
  {
    hide Left13, Right17, Left5, Unleft13, Unleft5;
    Left13Inverts(s);
    Right17Inverts(Left13(s));
    Left5Inverts(Right17(Left13(s)));
    Left5Inverts(s);
    Right17Inverts(Unleft5(s));
    Left13Inverts(Right17(Unleft5(s)));
  }

  lemma MeetInverts(s1: bv64, s0: bv64)
    ensures Meet(Meet(s1, s0), s0) == s1
  {
    assert Meet(s1 ^ s0, s0) == s1;
  }

  lemma Left128Inverts(s0: bv64, x: bv64)
    ensures Unleft128(Left128(s0, x), x) == s0 && Left128(Unleft128(s0, x), x) == s0
  {
    assert Unleft128(((s0 << 55) | (s0 >> 9)) ^ x ^ (x << 14), x) == s0;
    assert var y := s0 ^ x ^ (x << 14); Left128((y << 9) | (y >> 55), x) == s0;
  }

  lemma Right128Inverts(x: bv64)
    ensures Unright128(Right128(x)) == x && Right128(Unright128(x)) == x
  {
    assert Unright128((x << 36) | (x >> 28)) == x;
    assert Right128((x << 28) | (x >> 36)) == x;
  }

  lemma PairInverts(s0: bv64, s1: bv64)
    ensures Unstep(Step(XorShift128(s0, s1))) == XorShift128(s0, s1)
    ensures Step(Unstep(XorShift128(s0, s1))) == XorShift128(s0, s1)
  {
    hide Meet, Left128, Right128, Unleft128, Unright128;
    Right128Inverts(Meet(s1, s0));
    Left128Inverts(s0, Meet(s1, s0));
    MeetInverts(s1, s0);
    Right128Inverts(s1);
    Left128Inverts(s0, Unright128(s1));
    MeetInverts(Unright128(s1), Unleft128(s0, Unright128(s1)));
  }

  lemma Left31Inverts(v: bv64)
    ensures Unleft31(Left31(v)) == v && Left31(Unleft31(v)) == v
  {
    assert Unleft31(v ^ (v << 31)) == v;
    assert Left31(v ^ (v << 31) ^ (v << 62)) == v;
  }

  lemma BlendWithInverts(t: bv64, s0: bv64)
    ensures UnblendWith(BlendWith(t, s0), s0) == t
  {
    assert UnblendWith(t ^ s0 ^ (t >> 11) ^ (s0 >> 30), s0) == t;
  }

  lemma UnblendWithInverts(r: bv64, s0: bv64)
    ensures BlendWith(UnblendWith(r, s0), s0) == r
  {
    assert var u := r ^ s0 ^ (s0 >> 30);
           BlendWith(u ^ (u >> 11) ^ (u >> 22) ^ (u >> 33) ^ (u >> 44) ^ (u >> 55), s0) == r;
  }

  lemma BlendInverts(s0: bv64, s: bv64)
    ensures Unblend(s0, Blend(s0, s)) == s && Blend(s0, Unblend(s0, s)) == s
  {
    hide Left31, Unleft31, BlendWith, UnblendWith;
    Left31Inverts(s);
    BlendWithInverts(Left31(s), s0);
    UnblendWithInverts(s, s0);
    Left31Inverts(UnblendWith(s, s0));
  }

  /** One step is a bijection on the states of each generator. */
  lemma StepInverts(g: Generator)
    ensures Unstep(Step(g)) == g && Step(Unstep(g)) == g
  {
    hide Shift32, Unshift32, Meet, Left128, Right128, Unleft128, Unright128, Blend, Unblend;
    match g
    case XorShift32(s) => ShiftInverts(s);
    case XorShift128(s0, s1) => PairInverts(s0, s1);
    case XorShift1024(words, p) =>
      BlendInverts(words[p], words[After(p)]);
      BlendInverts(words[Before(p)], words[p]);
      assert Unstep(Step(g)).words == words;
      assert Step(Unstep(g)).words == words;
  }

  lemma {:induction false} StepAfterRun(g: Generator, n: nat)
    ensures Step(Run(g, n)) == Run(g, n + 1)
    decreases n
  {
    hide Step;
    if n > 0 {
      StepAfterRun(Step(g), n - 1);
    }
  }

  /** Runs never merge: the state after `n` outputs determines where the run started. */
  lemma {:induction false} RunsStayApart(g: Generator, h: Generator, n: nat)
    requires Run(g, n) == Run(h, n)
    ensures g == h
    decreases n
  {
    hide Step, Unstep;
    if n > 0 {
      RunsStayApart(Step(g), Step(h), n - 1);
      StepInverts(g);
      StepInverts(h);
    }
  }

  lemma ZeroStays()
    ensures Shift32(0) == 0 && Meet(0, 0) == 0 && Left128(0, 0) == 0 && Right128(0) == 0
    ensures Blend(0, 0) == 0 && Unblend(0, 0) == 0
  {
  }

  /** Every 64-bit value is the next output of some state of the two large generators. */
  lemma OutputsAreOnto(g: Generator, v: bv64) returns (h: Generator)
    requires !g.XorShift32?
    ensures SameKind(h, g) && Output(h) == v
  {
    hide Star, Unstar, Blend, Unblend;
    match g
    case XorShift128(_, _) =>
      h := XorShift128(v, 0);
      assert Sum64(v, 0) == v;
    case XorShift1024(words, p) =>
      StarInverts(v);
      BlendInverts(words[p], Unstar(v));
      h := XorShift1024(words[After(p) := Unblend(words[p], Unstar(v))], p);
  }

  /** The all-zero state is reached only from itself. */
  lemma StepKeepsNonzero(g: Generator)
    ensures IsZero(Step(g)) <==> IsZero(g)
  {
    hide Shift32, Unshift32, Meet, Left128, Right128, Unleft128, Unright128, Blend, Unblend;
    ZeroStays();
    match g
    case XorShift32(s) => ShiftInverts(s); ShiftInverts(0);
    case XorShift128(s0, s1) => PairInverts(s0, s1); PairInverts(0, 0);
    case XorShift1024(words, p) =>
      BlendInverts(words[p], words[After(p)]);
      var words' := Step(g).words;
      assert words'[p] == words[p] && words'[After(p)] == Blend(words[p], words[After(p)]);
      if IsZero(Step(g)) {
        assert words[After(p)] == 0;
        assert forall i :: 0 <= i < 16 && i != After(p) ==> words[i] == words'[i];
      }
  }

  lemma {:induction false} RunKeepsNonzero(g: Generator, n: nat)
    ensures IsZero(Run(g, n)) <==> IsZero(g)
    decreases n
  {
    hide Step, IsZero;
    if n > 0 {
      StepKeepsNonzero(g);
      RunKeepsNonzero(Step(g), n - 1);
    }
  }

  /** From every seed, zero included, no run of a generator ever reaches the all-zero state. */
  lemma NeverZero(seed32: bv32, seed64: bv64, n: nat)
    ensures !IsZero(Run(Seed32(seed32), n))
    ensures !IsZero(Run(Seed128(seed64), n))
    ensures !IsZero(Run(Seed1024(seed64), n))
  {
    hide Mix64, Run, Step;
    var seed := if seed64 != 0 then seed64 else 1;
    MixesZeroToZero(seed);
    RunKeepsNonzero(Seed32(seed32), n);
    RunKeepsNonzero(Seed128(seed64), n);
    MixChainStarts(seed, 16);
    assert !IsZero(Seed1024(seed64));
    RunKeepsNonzero(Seed1024(seed64), n);
  }

  /** How the two large generators start: each word is the mix of the one before, and the first that of the seed. */
  lemma {:induction false} MixChainIs(seed: bv64, n: nat, i: nat)
    requires i < n
    ensures MixChain(seed, n)[i] == Mix64(if i == 0 then seed else MixChain(seed, n)[i - 1])
  {
    hide Mix64;
    if i < n - 1 {
      MixChainIs(seed, n - 1, i);
    }
  }

  lemma {:induction false} MixChainStarts(seed: bv64, n: nat)
    requires n > 0
    ensures MixChain(seed, n)[0] == Mix64(seed)
  {
    hide Mix64;
    if n == 1 {
      assert MixChain(seed, 0) == [];
    } else {
      MixChainStarts(seed, n - 1);
    }
  }

  /** The seed a constructor uses: zero is read as one. */
  function Effective(seed: bv64): bv64 {
    if seed != 0 then seed else 1
  }

  function Effective32(seed: bv32): bv32 {
    if seed != 0 then seed else 1
  }

  /** Two runs agree at some point, and then at every point, exactly when their seeds are read as the same. */
  lemma SeedsAgreeIff(a: bv64, b: bv64, n: nat)
    ensures Run(Seed128(a), n) == Run(Seed128(b), n) <==> Effective(a) == Effective(b)
    ensures Run(Seed1024(a), n) == Run(Seed1024(b), n) <==> Effective(a) == Effective(b)
  {
    hide Mix64, Unmix64, Run, Step;
    MixInverts(Effective(a));
    MixInverts(Effective(b));
    MixChainStarts(Effective(a), 16);
    MixChainStarts(Effective(b), 16);
    if Run(Seed128(a), n) == Run(Seed128(b), n) {
      RunsStayApart(Seed128(a), Seed128(b), n);
    }
    if Run(Seed1024(a), n) == Run(Seed1024(b), n) {
      RunsStayApart(Seed1024(a), Seed1024(b), n);
    }
  }

  lemma SeedsAgreeIff32(a: bv32, b: bv32, n: nat)
    ensures Run(Seed32(a), n) == Run(Seed32(b), n) <==> Effective32(a) == Effective32(b)
  {
    hide Run;
    if Run(Seed32(a), n) == Run(Seed32(b), n) {
      RunsStayApart(Seed32(a), Seed32(b), n);
    }
  }

  // ---------------------------------------------------------------------------------------------
  // Bytes

  /** Size of the native output in bytes. */
  function Width(g: Generator): nat {
    if g.XorShift32? then 4 else 8
  }

  /** Which output byte `k` of the stream comes from, and which of its bytes it is. */
  function OutputOf(g: Generator, k: nat): nat {
    if g.XorShift32? then k / 4 else k / 8
  }

  function PlaceIn(g: Generator, k: nat): (i: nat)
    ensures i < Width(g)
  {
    if g.XorShift32? then k % 4 else k % 8
  }

  function StreamAt(g: Generator, k: nat): bv8 {
    Byte64(Output(Run(g, OutputOf(g, k))), PlaceIn(g, k))
  }

  function Stream(g: Generator, n: nat): seq<bv8> {
    seq(n, k requires 0 <= k => StreamAt(g, k))
  }

  /** How many outputs `n` bytes cost. */
  function Draws(g: Generator, n: nat): nat {
    OutputOf(g, n + Width(g) - 1)
  }

  lemma {:induction false} RunConcat(g: Generator, m: nat, n: nat)
    ensures Run(Run(g, m), n) == Run(g, m + n) && Width(Run(g, m)) == Width(g)
    decreases m
  {
    if m > 0 {
      RunConcat(Step(g), m - 1, n);
    }
  }

  lemma PlaceOf(g: Generator, m: nat, i: nat)
    requires i < Width(g)
    ensures OutputOf(g, m * Width(g) + i) == m && PlaceIn(g, m * Width(g) + i) == i
  {
  }

  /** The bytes of one output lie side by side in the stream. */
  lemma ChunkOfStream(g: Generator, m: nat, i: nat)
    requires i < Width(g)
    ensures StreamAt(g, m * Width(g) + i) == Byte64(Output(Run(g, m)), i)
  {
    hide Output, Run, Byte64, OutputOf, PlaceIn;
    PlaceOf(g, m, i);
  }

  /** The stream spells out one output after another, each with its least significant byte first. */
  lemma StreamSpellsOutputs(g: Generator, m: nat)
    ensures LittleValue(Stream(g, (m + 1) * Width(g))[m * Width(g)..]) == Number(Output(Run(g, m)))
  {
    hide StreamAt, Run, Byte64, LittleValue, Number, Number32, Low, Widen;
    var w, v := Width(g), Output(Run(g, m));
    var chunk := Stream(g, (m + 1) * w)[m * w..];
    forall i | 0 <= i < w
      ensures chunk[i] == Byte64(v, i)
    {
      ChunkOfStream(g, m, i);
    }
    assert chunk == LittleBytes64(v)[..w];
    DigitsOf64(v);
    if g.XorShift32? {
      RunConcat(g, m, 0);
      NarrowOutput(Run(g, m));
    } else {
      assert chunk == LittleBytes64(v);
    }
  }

  lemma NarrowOutput(g: Generator)
    requires g.XorShift32?
    ensures Number(Output(g)) == Number32(Low(Output(g)))
  {
    hide Number, Number32, Low, Widen, Shift32, Sum32;
    var sum := Sum32(Shift32(g.s), g.s);
    WidenKeeps(sum);
    LowOfWiden(sum);
  }

  /** Fewer bytes drawn from the same state are the front of more bytes. */
  lemma StreamPrefix(g: Generator, n: nat, m: nat)
    requires n <= m
    ensures Stream(g, n) == Stream(g, m)[..n]
  {
  }

  lemma PlaceAfter(g: Generator, m: nat, k: nat)
    ensures OutputOf(g, m * Width(g) + k) == m + OutputOf(g, k) && PlaceIn(g, m * Width(g) + k) == PlaceIn(g, k)
  {
  }

  lemma SameKindAfter(g: Generator, h: Generator, k: nat)
    requires Width(g) == Width(h)
    ensures OutputOf(g, k) == OutputOf(h, k) && PlaceIn(g, k) == PlaceIn(h, k)
  {
  }

  /** After whole outputs the stream goes on where it was. */
  lemma StreamShift(g: Generator, m: nat, k: nat)
    ensures StreamAt(Run(g, m), k) == StreamAt(g, m * Width(g) + k)
  {
    hide Output, Byte64, Run, Width, OutputOf, PlaceIn;
    RunConcat(g, m, OutputOf(g, k));
    SameKindAfter(g, Run(g, m), k);
    PlaceAfter(g, m, k);
  }

  lemma WholeDraws(g: Generator, a: nat)
    requires a % Width(g) == 0
    ensures a == Draws(g, a) * Width(g)
  {
    if g.XorShift32? {
      RoundUp(a, 4);
    } else {
      RoundUp(a, 8);
    }
  }

  lemma RoundUp(a: nat, w: nat)
    requires (w == 4 || w == 8) && a % w == 0
    ensures a == (a + w - 1) / w * w
  {
    var k := a / w;
    if w == 4 {
      assert a == 4 * k && (a + 3) / 4 == k;
    } else {
      assert a == 8 * k && (a + 7) / 8 == k;
    }
  }

  /** Whole outputs drawn first and more bytes after them are the same bytes as all at once. */
  lemma StreamConcat(g: Generator, a: nat, b: nat)
    requires a % Width(g) == 0
    ensures Stream(g, a) + Stream(Run(g, Draws(g, a)), b) == Stream(g, a + b)
  {
    hide StreamAt, Run;
    var m := Draws(g, a);
    WholeDraws(g, a);
    hide Draws, Width;
    forall k: nat | k < b
      ensures StreamAt(Run(g, m), k) == StreamAt(g, a + k)
    {
      StreamShift(g, m, k);
    }
  }

  /** The state `n` outputs before. */
  function Unrun(g: Generator, n: nat): Generator {
    if n == 0 then g else Unstep(Unrun(g, n - 1))
  }

  lemma {:induction false} RunUndone(g: Generator, n: nat)
    ensures Run(Unrun(g, n), n) == g && SameKind(Unrun(g, n), g)
  {
    hide Step, Unstep, SameKind;
    if n == 0 {
      KindsStay(g);
    } else {
      RunUndone(g, n - 1);
      StepInverts(Unrun(g, n - 1));
      KindsStay(Unrun(g, n - 1));
      SameKindChains(Unrun(g, n), Unrun(g, n - 1), g);
    }
  }

  lemma KindsStay(g: Generator)
    ensures SameKind(g, g) && SameKind(Unstep(g), g)
  {
  }

  lemma SameKindChains(g: Generator, h: Generator, k: Generator)
    requires SameKind(g, h) && SameKind(h, k)
    ensures SameKind(g, k)
  {
  }

  /** A state of each kind whose next output begins with a byte that the current one lacks. */
  function Telltale(g: Generator): Generator {
    match g
    case XorShift32(_) => XorShift32(1)
    case XorShift128(_, _) => XorShift128(0, 1)
    case XorShift1024(_, _) => XorShift1024([0, 0, 1, 0, 0, 0, 0, 0, 0, 0, 0, 0, 0, 0, 0, 0], 0)
  }

  lemma Telltale32(i: nat)
    requires 0 < i < 4
    ensures var g := XorShift32(1); Byte64(Output(g), i) != Byte64(Output(Step(g)), 0)
  {
    assert Output(XorShift32(1)) == 0x42022 && Output(XorShift32(0x42021)) == 0x40c2622;
    assert Step(XorShift32(1)) == XorShift32(0x42021);
  }

  lemma Telltale128(i: nat)
    requires 0 < i < 8
    ensures var g := XorShift128(0, 1); Byte64(Output(g), i) != Byte64(Output(Step(g)), 0)
  {
    assert Output(XorShift128(0, 1)) == 1 && Step(XorShift128(0, 1)) == XorShift128(0x4001, 0x10_0000_0000);
  }

  lemma TelltaleTells(g: Generator, i: nat)
    requires 0 < i < Width(g)
    ensures SameKind(Telltale(g), g)
    ensures Byte64(Output(Telltale(g)), i) != Byte64(Output(Step(Telltale(g))), 0)
  {
    if g.XorShift1024? {
      assert Output(Telltale(g)) == 0;
    } else {
      hide Output, Step, Byte64;
      if g.XorShift32? {
        Telltale32(i);
      } else {
        Telltale128(i);
      }
    }
  }

  /** Drawing `a` bytes and then `b` gives what drawing them all at once does, from every state of the kind. */
  ghost predicate DrawsConcat(kind: Generator, a: nat, b: nat) {
    forall g :: SameKind(g, kind) ==> Stream(g, a) + Stream(Run(g, Draws(g, a)), b) == Stream(g, a + b)
  }

  /** ... exactly when the first draw takes whole outputs, or the second nothing. */
  lemma StreamConcatIff(kind: Generator, a: nat, b: nat)
    ensures DrawsConcat(kind, a, b) <==> a % Width(kind) == 0 || b == 0
  {
    hide Run, StreamAt, Draws;
    if a % Width(kind) == 0 {
      forall g | SameKind(g, kind)
        ensures Stream(g, a) + Stream(Run(g, Draws(g, a)), b) == Stream(g, a + b)
      {
        StreamConcat(g, a, b);
      }
    } else if b > 0 {
      SplitDrawDiffers(kind, a, b);
    }
  }

  lemma SplitDrawDiffers(kind: Generator, a: nat, b: nat)
    requires a % Width(kind) != 0 && b > 0
    ensures !DrawsConcat(kind, a, b)
  {
    hide Run, Output, Byte64, Unrun, Step, Telltale;
    var h, m, i := Telltale(kind), OutputOf(kind, a), PlaceIn(kind, a);
    TelltaleTells(kind, i);
    var g := Unrun(h, m);
    RunUndone(h, m);
    SameKindChains(g, h, kind);
    StepAfterRun(g, m);
    SplitDraws(g, a, m);
    assert (Stream(g, a) + Stream(Run(g, Draws(g, a)), b))[a] == StreamAt(Run(g, m + 1), 0);
    assert Stream(g, a + b)[a] == StreamAt(g, a);
    FirstByte(Run(g, m + 1));
  }

  lemma SplitDraws(g: Generator, a: nat, m: nat)
    requires a % Width(g) != 0 && m == OutputOf(g, a)
    ensures Draws(g, a) == m + 1
  {
    if g.XorShift32? {
      assert a % 4 != 0;
    } else {
      assert a % 8 != 0;
    }
  }

  lemma FirstByte(g: Generator)
    ensures StreamAt(g, 0) == Byte64(Output(g), 0)
  {
    assert Run(g, 0) == g;
  }

  // ---------------------------------------------------------------------------------------------
  // Range reduction

  /** Unsigned arithmetic of a machine word. */
  predicate IsModulus(m: nat) {
    m == TWO32 || m == TWO64
  }

  /** The remainder, named so that proofs can treat it as opaque. */
  function Mod(x: int, m: nat): int
    requires m > 0
  {
    x % m
  }

  /** `UInt32` and `UInt64` on the drawn bits. */
  function UInt(bits: nat, min: nat, max: nat, m: nat): (r: nat)
    requires IsModulus(m) && bits < m && min < m && max < m
  {
    var ret := Mod(max - min + 1, m);
    var value := if ret != 0 then Mod(bits, ret) else bits;
    Mod(value + min, m)
  }

  /** `Int32` and `Int64`: the same on the two's complement. */
  function Int(bits: nat, min: int, max: int, m: nat): int
    requires IsModulus(m) && bits < m
    requires -(m / 2) <= min < m / 2 && -(m / 2) <= max < m / 2
  {
    ToSigned(UInt(bits, Mod(min, m), Mod(max, m), m), m)
  }

  function ToSigned(u: nat, m: nat): int
    requires IsModulus(m)
  {
    if u < m / 2 then u else u - m
  }

  /** Machine arithmetic wraps at most once. */
  lemma Wraps(x: int, m: nat)
    requires IsModulus(m) && 0 <= x + m < 3 * m
    ensures Mod(x, m) == if x < 0 then x + m else if x < m then x else x - m
  {
  }

  lemma Remains(x: nat, n: nat)
    requires n > 0
    ensures Mod(x, n) == x % n
    ensures 0 <= x % n < n && (x < n ==> x % n == x)
  {
  }

  /** How many values lie in the cyclic range from `min` to `max`. */
  function RangeSize(min: nat, max: nat, m: nat): (n: nat)
    requires IsModulus(m) && min < m && max < m
    ensures 0 < n <= m
  {
    if min <= max then max - min + 1 else max - min + m + 1
  }

  /**
   * The value returned, for every draw and any bounds, ordered or not: `bits` reduced by the size of the
   * range is how far past `min` it lies, wrapping round. The full range has size `m` and reduces nothing.
   */
  lemma UIntIs(bits: nat, min: nat, max: nat, m: nat)
    requires IsModulus(m) && bits < m && min < m && max < m
    ensures var past := bits % RangeSize(min, max, m);
            UInt(bits, min, max, m) == if min + past < m then min + past else min + past - m
  {
    Remains(bits, RangeSize(min, max, m));
    assert Mod(bits, RangeSize(min, max, m)) == bits % RangeSize(min, max, m);
    hide Mod;
    Wraps(max - min + 1, m);
    var ret := Mod(max - min + 1, m);
    assert ret == if RangeSize(min, max, m) == m then 0 else RangeSize(min, max, m);
    Wraps((if ret != 0 then Mod(bits, ret) else bits) + min, m);
  }

  /** `t` lies in the cyclic range, `past` steps past `min`. */
  predicate LiesPast(t: nat, past: nat, min: nat, max: nat, m: nat)
    requires IsModulus(m) && min < m && max < m
  {
    past < RangeSize(min, max, m) && t == if min + past < m then min + past else min + past - m
  }

  /** Every result is in the cyclic range; for ordered bounds it lies between them. */
  lemma UIntIsInCyclicRange(bits: nat, min: nat, max: nat, m: nat)
    requires IsModulus(m) && bits < m && min < m && max < m
    ensures LiesPast(UInt(bits, min, max, m), bits % RangeSize(min, max, m), min, max, m)
    ensures min <= max ==> UInt(bits, min, max, m) == min + bits % (max - min + 1) <= max
  {
    hide UInt;
    UIntIs(bits, min, max, m);
    Remains(bits, RangeSize(min, max, m));
  }

  /** Exactly the bits that leave the remainder `past` draw the value `past` steps past `min`. */
  lemma UIntDrawsIff(bits: nat, t: nat, past: nat, min: nat, max: nat, m: nat)
    requires IsModulus(m) && bits < m && min < m && max < m && LiesPast(t, past, min, max, m)
    ensures UInt(bits, min, max, m) == t <==> bits % RangeSize(min, max, m) == past
  {
    hide UInt;
    UIntIs(bits, min, max, m);
    Remains(bits, RangeSize(min, max, m));
  }

  /** How many of the bit patterns below `k` draw `t`. */
  function UIntHits(t: nat, min: nat, max: nat, m: nat, k: nat): nat
    requires IsModulus(m) && min < m && max < m && k <= m
  {
    if k == 0 then 0
    else UIntHits(t, min, max, m, k - 1) + if UInt(k - 1, min, max, m) == t then 1 else 0
  }

  /** How many numbers below `k` leave the remainder `d`. */
  function Share(k: nat, n: nat, d: nat): nat
    requires n > 0
  {
    k / n + if d < k % n then 1 else 0
  }

  lemma ShareGrows(k: nat, n: nat, d: nat)
    requires d < n
    ensures Share(k + 1, n, d) == Share(k, n, d) + if k % n == d then 1 else 0
  {
    var q, r := k / n, k % n;
    assert k == q * n + r;
    if r + 1 < n {
      QuotientIs(k + 1, n, q, r + 1);
    } else {
      TimesAdds(q, 1, n);
      QuotientIs(k + 1, n, q + 1, 0);
    }
  }

  lemma TimesAdds(x: nat, y: nat, n: nat)
    ensures (x + y) * n == x * n + y * n
  {
  }

  lemma TimesGrows(x: nat, y: nat, n: nat)
    requires x < y
    ensures x * n + n <= y * n
  {
    var d := y - x - 1;
    TimesAdds(x, 1, n);
    TimesAdds(x + 1, d, n);
  }

  lemma QuotientIs(k: nat, n: nat, q: nat, r: nat)
    requires r < n && k == q * n + r
    ensures k / n == q && k % n == r
  {
    var q', r' := k / n, k % n;
    assert k == q' * n + r' && 0 <= r' < n;
    if q < q' {
      TimesGrows(q, q', n);
    } else if q' < q {
      TimesGrows(q', q, n);
    }
  }

  /**
   * The draws are as even as the width allows: of the `m` bit patterns, the value `past` steps past `min`
   * gets `m / n`, and one more while there are patterns left over.
   */
  lemma {:induction false} UIntIsEven(t: nat, past: nat, min: nat, max: nat, m: nat, k: nat)
    requires IsModulus(m) && min < m && max < m && k <= m && LiesPast(t, past, min, max, m)
    ensures UIntHits(t, min, max, m, k) == Share(k, RangeSize(min, max, m), past)
    decreases k
  {
    hide UInt;
    var n := RangeSize(min, max, m);
    if k == 0 {
      QuotientIs(0, n, 0, 0);
    } else {
      hide Share, RangeSize;
      UIntIsEven(t, past, min, max, m, k - 1);
      UIntDrawsIff(k - 1, t, past, min, max, m);
      ShareGrows(k - 1, n, past);
    }
  }

  lemma ShareIsFair(m: nat, n: nat, d: nat, d': nat)
    requires 0 < n <= m && d < n && d' < n
    ensures 0 < Share(m, n, d) <= Share(m, n, d') + 1
    ensures m % n == 0 ==> Share(m, n, d) == Share(m, n, d')
  {
    var q, r := m / n, m % n;
    assert m == q * n + r && 0 <= r < n;
  }

  /** So two values of the range are drawn by the same number of bit patterns, or by one more. */
  lemma UIntIsFair(t: nat, past: nat, u: nat, past': nat, min: nat, max: nat, m: nat)
    requires IsModulus(m) && min < m && max < m
    requires LiesPast(t, past, min, max, m) && LiesPast(u, past', min, max, m)
    ensures UIntHits(t, min, max, m, m) > 0
    ensures UIntHits(t, min, max, m, m) <= UIntHits(u, min, max, m, m) + 1
    ensures m % RangeSize(min, max, m) == 0 ==> UIntHits(t, min, max, m, m) == UIntHits(u, min, max, m, m)
  {
    hide UIntHits, RangeSize;
    UIntIsEven(t, past, min, max, m, m);
    UIntIsEven(u, past', min, max, m, m);
    ShareIsFair(m, RangeSize(min, max, m), past, past');
  }

  /** Every value of the range is drawn by some bits. */
  lemma UIntIsOnto(t: nat, past: nat, min: nat, max: nat, m: nat)
    requires IsModulus(m) && min < m && max < m && LiesPast(t, past, min, max, m)
    ensures UInt(past, min, max, m) == t
  {
    hide UInt;
    Remains(past, RangeSize(min, max, m));
    UIntDrawsIff(past, t, past, min, max, m);
  }

  /** The signed value, for every draw and ordered bounds: it lies between them. */
  lemma IntIs(bits: nat, min: int, max: int, m: nat)
    requires IsModulus(m) && bits < m && -(m / 2) <= min <= max < m / 2
    ensures Int(bits, min, max, m) == min + bits % (max - min + 1) <= max
  {
    hide UInt, Mod;
    Wraps(min, m);
    Wraps(max, m);
    Remains(bits, max - min + 1);
    assert RangeSize(Mod(min, m), Mod(max, m), m) == max - min + 1;
    UIntIs(bits, Mod(min, m), Mod(max, m), m);
  }

  function IntHits(t: int, min: int, max: int, m: nat, k: nat): nat
    requires IsModulus(m) && k <= m && -(m / 2) <= min < m / 2 && -(m / 2) <= max < m / 2
  {
    if k == 0 then 0
    else IntHits(t, min, max, m, k - 1) + if Int(k - 1, min, max, m) == t then 1 else 0
  }

  /** The signed draws are as even as the unsigned ones. */
  lemma {:induction false} IntIsEven(t: int, min: int, max: int, m: nat, k: nat)
    requires IsModulus(m) && k <= m && -(m / 2) <= min <= t <= max < m / 2
    ensures IntHits(t, min, max, m, k) == Share(k, max - min + 1, t - min)
    decreases k
  {
    hide Int;
    var n := max - min + 1;
    if k == 0 {
      QuotientIs(0, n, 0, 0);
    } else {
      hide Share;
      IntIsEven(t, min, max, m, k - 1);
      IntIs(k - 1, min, max, m);
      ShareGrows(k - 1, n, t - min);
    }
  }

  /** Every signed value of the range is drawn by some bits. */
  lemma IntIsOnto(t: int, min: int, max: int, m: nat)
    requires IsModulus(m) && -(m / 2) <= min <= t <= max < m / 2
    ensures t - min < m && Int(t - min, min, max, m) == t
  {
    hide Int;
    Remains(t - min, max - min + 1);
    IntIs(t - min, min, max, m);
  }
}
