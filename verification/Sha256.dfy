/** The SHA-256 hash computation of section 6.2.2 of FIPS 180-4, for one message block. */
module Sha256Spec {
  import opened Bytes
  import opened Words

  /** The eight working variables. */
  datatype Registers = Registers(a: bv32, b: bv32, c: bv32, d: bv32, e: bv32, f: bv32, g: bv32, h: bv32)

  /** Section 4.2.2. */
  function K(t: nat): bv32
    requires t < 64
  {
    KRow(t / 8)[t % 8]
  }

  function KRow(row: nat): (k: seq<bv32>)
    requires row < 8
    ensures |k| == 8
  {
    if row == 0 then
      [0x428a2f98, 0x71374491, 0xb5c0fbcf, 0xe9b5dba5, 0x3956c25b, 0x59f111f1, 0x923f82a4, 0xab1c5ed5]
    else if row == 1 then
      [0xd807aa98, 0x12835b01, 0x243185be, 0x550c7dc3, 0x72be5d74, 0x80deb1fe, 0x9bdc06a7, 0xc19bf174]
    else if row == 2 then
      [0xe49b69c1, 0xefbe4786, 0x0fc19dc6, 0x240ca1cc, 0x2de92c6f, 0x4a7484aa, 0x5cb0a9dc, 0x76f988da]
    else if row == 3 then
      [0x983e5152, 0xa831c66d, 0xb00327c8, 0xbf597fc7, 0xc6e00bf3, 0xd5a79147, 0x06ca6351, 0x14292967]
    else if row == 4 then
      [0x27b70a85, 0x2e1b2138, 0x4d2c6dfc, 0x53380d13, 0x650a7354, 0x766a0abb, 0x81c2c92e, 0x92722c85]
    else if row == 5 then
      [0xa2bfe8a1, 0xa81a664b, 0xc24b8b70, 0xc76c51a3, 0xd192e819, 0xd6990624, 0xf40e3585, 0x106aa070]
    else if row == 6 then
      [0x19a4c116, 0x1e376c08, 0x2748774c, 0x34b0bcb5, 0x391c0cb3, 0x4ed8aa4a, 0x5b9cca4f, 0x682e6ff3]
    else [0x748f82ee, 0x78a5636f, 0x84c87814, 0x8cc70208, 0x90befffa, 0xa4506ceb, 0xbef9a3f7, 0xc67178f2]
  }

  /** Section 5.3.3. */
  const INITIAL_HASH: seq<bv32> := [
    0x6a09e667, 0xbb67ae85, 0x3c6ef372, 0xa54ff53a, 0x510e527f, 0x9b05688c, 0x1f83d9ab, 0x5be0cd19
  ]

  /** The first sixty-four primes. */
  function Primes(row: nat): (p: seq<nat>)
    requires row < 8
    ensures |p| == 8
  {
    if row == 0 then [2, 3, 5, 7, 11, 13, 17, 19]
    else if row == 1 then [23, 29, 31, 37, 41, 43, 47, 53]
    else if row == 2 then [59, 61, 67, 71, 73, 79, 83, 89]
    else if row == 3 then [97, 101, 103, 107, 109, 113, 127, 131]
    else if row == 4 then [137, 139, 149, 151, 157, 163, 167, 173]
    else if row == 5 then [179, 181, 191, 193, 197, 199, 211, 223]
    else if row == 6 then [227, 229, 233, 239, 241, 251, 257, 263]
    else [269, 271, 277, 281, 283, 293, 307, 311]
  }

  /** Its integer part aside, `w` holds the first 32 binary places of the square root of `p`, ... */
  ghost predicate IsSquareRoot(w: nat, p: nat) {
    exists i: nat :: IsRootWith(w, i, p)
  }

  predicate IsRootWith(w: nat, i: nat, p: nat) {
    var x := i * TWO32 + w;
    x * x <= p * TWO64 < (x + 1) * (x + 1)
  }

  /** ... and of the cube root. */
  ghost predicate IsCubeRoot(w: nat, p: nat) {
    exists i: nat :: IsCubeWith(w, i, p)
  }

  predicate IsCubeWith(w: nat, i: nat, p: nat) {
    var x := i * TWO32 + w;
    x * x * x <= p * TWO64 * TWO32 < (x + 1) * (x + 1) * (x + 1)
  }

  /** The initial words come from the square roots of the first eight primes, ... */
  lemma InitialHashIs(i: nat)
    requires i < 8
    ensures IsSquareRoot(Number32(INITIAL_HASH[i]), Primes(0)[i])
  {
    var root := [1, 1, 2, 2, 3, 3, 4, 4];
    assert IsRootWith(Number32(INITIAL_HASH[i]), root[i], Primes(0)[i]);
  }

  /** ... and the round constants from the cube roots of the first sixty-four. */
  lemma KIsCubeRoot(t: nat)
    requires t < 64
    ensures IsCubeRoot(Number32(K(t)), Primes(t / 8)[t % 8])
  {
    hide KRow, Primes, IsCubeRoot, Number32;
    var i := t % 8;
    match t / 8
    case 0 => CubeRow0(i);
    case 1 => CubeRow1(i);
    case 2 => CubeRow2(i);
    case 3 => CubeRow3(i);
    case 4 => CubeRow4(i);
    case 5 => CubeRow5(i);
    case 6 => CubeRow6(i);
    case _ => CubeRow7(i);
  }

  lemma CubeRow0(i: nat)
    requires i < 8
    ensures IsCubeRoot(Number32(KRow(0)[i]), Primes(0)[i])
  {
    assert IsCubeWith(Number32(KRow(0)[i]), if i < 4 then 1 else 2, Primes(0)[i]);
  }

  lemma CubeRow1(i: nat)
    requires i < 8
    ensures IsCubeRoot(Number32(KRow(1)[i]), Primes(1)[i])
  {
    assert IsCubeWith(Number32(KRow(1)[i]), if i < 1 then 2 else 3, Primes(1)[i]);
  }

  lemma CubeRow2(i: nat)
    requires i < 8
    ensures IsCubeRoot(Number32(KRow(2)[i]), Primes(2)[i])
  {
    assert IsCubeWith(Number32(KRow(2)[i]), if i < 2 then 3 else 4, Primes(2)[i]);
  }

  lemma CubeRow3(i: nat)
    requires i < 8
    ensures IsCubeRoot(Number32(KRow(3)[i]), Primes(3)[i])
  {
    assert IsCubeWith(Number32(KRow(3)[i]), if i < 6 then 4 else 5, Primes(3)[i]);
  }

  lemma CubeRow4(i: nat)
    requires i < 8
    ensures IsCubeRoot(Number32(KRow(4)[i]), Primes(4)[i])
  {
    assert IsCubeWith(Number32(KRow(4)[i]), 5, Primes(4)[i]);
  }

  lemma CubeRow5(i: nat)
    requires i < 8
    ensures IsCubeRoot(Number32(KRow(5)[i]), Primes(5)[i])
  {
    assert IsCubeWith(Number32(KRow(5)[i]), if i < 7 then 5 else 6, Primes(5)[i]);
  }

  lemma CubeRow6(i: nat)
    requires i < 8
    ensures IsCubeRoot(Number32(KRow(6)[i]), Primes(6)[i])
  {
    assert IsCubeWith(Number32(KRow(6)[i]), 6, Primes(6)[i]);
  }

  lemma CubeRow7(i: nat)
    requires i < 8
    ensures IsCubeRoot(Number32(KRow(7)[i]), Primes(7)[i])
  {
    assert IsCubeWith(Number32(KRow(7)[i]), 6, Primes(7)[i]);
  }

  /** Functions (4.2) to (4.7) of section 4.1.2. */
  function Ch(x: bv32, y: bv32, z: bv32): bv32 {
    Xor(And(x, y), And(Not(x), z))
  }

  function Maj(x: bv32, y: bv32, z: bv32): bv32 {
    Xor(Xor(And(x, y), And(x, z)), And(y, z))
  }

  function BigSigma0(x: bv32): bv32 {
    Xor(Xor(RotateRight(x, 2), RotateRight(x, 13)), RotateRight(x, 22))
  }

  function BigSigma1(x: bv32): bv32 {
    Xor(Xor(RotateRight(x, 6), RotateRight(x, 11)), RotateRight(x, 25))
  }

  function SmallSigma0(x: bv32): bv32 {
    Xor(Xor(RotateRight(x, 7), RotateRight(x, 18)), ShiftRight(x, 3))
  }

  function SmallSigma1(x: bv32): bv32 {
    Xor(Xor(RotateRight(x, 17), RotateRight(x, 19)), ShiftRight(x, 10))
  }

  /** Bit by bit: the first word chooses between the other two, ... */
  lemma ChBit(x: bv32, y: bv32, z: bv32, j: bv32)
    requires j < 32
    ensures Bit(Ch(x, y, z), j) <==> if Bit(x, j) then Bit(y, j) else Bit(z, j)
  {
    hide Bit, And, Xor, Not;
    XorBit(And(x, y), And(Not(x), z), j);
    AndBit(x, y, j);
    AndBit(Not(x), z, j);
    NotBit(x, j);
  }

  /** ... at least two of three make a majority, ... */
  lemma MajBit(x: bv32, y: bv32, z: bv32, j: bv32)
    requires j < 32
    ensures Bit(Maj(x, y, z), j)
       <==> (Bit(x, j) && Bit(y, j)) || (Bit(x, j) && Bit(z, j)) || (Bit(y, j) && Bit(z, j))
  {
    hide Bit, And, Xor;
    Xor3Bit(And(x, y), And(x, z), And(y, z), j);
    AndBit(x, y, j);
    AndBit(x, z, j);
    AndBit(y, z, j);
  }

  /** ... and each sigma adds up three bits of its word. */
  lemma SigmaBits(x: bv32, j: bv32)
    requires j < 32
    ensures Bit(BigSigma0(x), j) <==> Odd(Bit(x, Above(j, 2)), Bit(x, Above(j, 13)), Bit(x, Above(j, 22)))
    ensures Bit(BigSigma1(x), j) <==> Odd(Bit(x, Above(j, 6)), Bit(x, Above(j, 11)), Bit(x, Above(j, 25)))
    ensures Bit(SmallSigma0(x), j) <==> Odd(Bit(x, Above(j, 7)), Bit(x, Above(j, 18)), BitOrClear(x, j, 3))
    ensures Bit(SmallSigma1(x), j) <==> Odd(Bit(x, Above(j, 17)), Bit(x, Above(j, 19)), BitOrClear(x, j, 10))
  {
    hide Bit, BitOrClear, Above, Xor, RotateRight, ShiftRight, Odd;
    RotatesAdd(x, 2, 13, 22, j);
    RotatesAdd(x, 6, 11, 25, j);
    RotatesAndShiftAdd(x, 7, 18, 3, j);
    RotatesAndShiftAdd(x, 17, 19, 10, j);
  }

  lemma RotatesAdd(x: bv32, c: Amount, d: Amount, e: Amount, j: bv32)
    requires j < 32
    ensures Bit(Xor(Xor(RotateRight(x, c), RotateRight(x, d)), RotateRight(x, e)), j)
       <==> Odd(Bit(x, Above(j, c)), Bit(x, Above(j, d)), Bit(x, Above(j, e)))
  {
    hide *;
    Xor3Bit(RotateRight(x, c), RotateRight(x, d), RotateRight(x, e), j);
    RotateRightBit(x, c, j);
    RotateRightBit(x, d, j);
    RotateRightBit(x, e, j);
  }

  lemma RotatesAndShiftAdd(x: bv32, c: Amount, d: Amount, e: Amount, j: bv32)
    requires j < 32
    ensures Bit(Xor(Xor(RotateRight(x, c), RotateRight(x, d)), ShiftRight(x, e)), j)
       <==> Odd(Bit(x, Above(j, c)), Bit(x, Above(j, d)), BitOrClear(x, j, e))
  {
    hide *;
    Xor3Bit(RotateRight(x, c), RotateRight(x, d), ShiftRight(x, e), j);
    RotateRightBit(x, c, j);
    RotateRightBit(x, d, j);
    ShiftRightBit(x, e, j);
  }

  /** Word `t` of the message schedule (step 1). */
  function Schedule(block: seq<bv8>, t: nat): bv32
    requires |block| == 64
  {
    if t < 16 then BigEndian(block[4 * t], block[4 * t + 1], block[4 * t + 2], block[4 * t + 3])
    else Sum4(SmallSigma1(Schedule(block, t - 2)), Schedule(block, t - 7),
              SmallSigma0(Schedule(block, t - 15)), Schedule(block, t - 16))
  }

  /** One iteration of step 3: every register moves down by one. */
  function Round(r: Registers, k: bv32, w: bv32): Registers {
    var t1 := Sum5(r.h, BigSigma1(r.e), Ch(r.e, r.f, r.g), k, w);
    var t2 := Add(BigSigma0(r.a), Maj(r.a, r.b, r.c));
    Registers(Add(t1, t2), r.a, r.b, r.c, Add(r.d, t1), r.e, r.f, r.g)
  }

  /** The registers after `t` iterations of step 3. */
  function Rounds(block: seq<bv8>, r: Registers, t: nat): Registers
    requires |block| == 64 && t <= 64
  {
    if t == 0 then r else Round(Rounds(block, r, t - 1), K(t - 1), Schedule(block, t - 1))
  }

  /** Step 2: the working variables start as the previous hash value. */
  function Load(hash: seq<bv32>): Registers
    requires |hash| == 8
  {
    Registers(hash[0], hash[1], hash[2], hash[3], hash[4], hash[5], hash[6], hash[7])
  }

  function Store(r: Registers): seq<bv32> {
    [r.a, r.b, r.c, r.d, r.e, r.f, r.g, r.h]
  }

  /** Step 4: the next hash value. */
  function Compress(hash: seq<bv32>, block: seq<bv8>): (next: seq<bv32>)
    requires |hash| == 8 && |block| == 64
    ensures |next| == 8
  {
    AddWords(hash, Store(Rounds(block, Load(hash), 64)))
  }
}

/** `MDHash<Sha256>::ProcessBlock`: unrolled rounds over renamed registers. */
module Sha256 {
  import opened Bytes
  import opened Words
  import opened Sha256Spec

  /** `f1`: BigSigma1 plus Ch in one term. */
  function F1(e: bv32, f: bv32, g: bv32): bv32 {
    var term1 := RotateRight(e, 6) ^ RotateRight(e, 11) ^ RotateRight(e, 25);
    var term2 := (e & f) ^ (!e & g);
    Add(term1, term2)
  }

  /** `f2`: BigSigma0 plus a rewritten majority. */
  function F2(a: bv32, b: bv32, c: bv32): bv32 {
    var term1 := RotateRight(a, 2) ^ RotateRight(a, 13) ^ RotateRight(a, 22);
    var term2 := ((a | b) & c) | (a & b);
    Add(term1, term2)
  }

  // The standard's functions in the source's operators.

  lemma ChIs(x: bv32, y: bv32, z: bv32)
    ensures Ch(x, y, z) == (x & y) ^ (!x & z)
  {
  }

  lemma MajorityIs(x: bv32, y: bv32, z: bv32)
    ensures (x & y) ^ (x & z) ^ (y & z) == ((x | y) & z) | (x & y)
  {
  }

  lemma MajIs(x: bv32, y: bv32, z: bv32)
    ensures Maj(x, y, z) == ((x | y) & z) | (x & y)
  {
    MajorityIs(x, y, z);
  }

  lemma BigSigma0Is(x: bv32)
    ensures BigSigma0(x) == RotateRight(x, 2) ^ RotateRight(x, 13) ^ RotateRight(x, 22)
  {
    hide RotateRight;
  }

  lemma BigSigma1Is(x: bv32)
    ensures BigSigma1(x) == RotateRight(x, 6) ^ RotateRight(x, 11) ^ RotateRight(x, 25)
  {
    hide RotateRight;
  }

  lemma SmallSigma0Is(x: bv32)
    ensures SmallSigma0(x) == RotateRight(x, 7) ^ RotateRight(x, 18) ^ (x >> 3)
  {
    hide RotateRight;
  }

  lemma SmallSigma1Is(x: bv32)
    ensures SmallSigma1(x) == RotateRight(x, 17) ^ RotateRight(x, 19) ^ (x >> 10)
  {
    hide RotateRight;
  }

  lemma F1IsSigmaPlusChoice(e: bv32, f: bv32, g: bv32)
    ensures F1(e, f, g) == Add(BigSigma1(e), Ch(e, f, g))
  {
    hide Ch, BigSigma1, RotateRight, Add;
    ChIs(e, f, g);
    BigSigma1Is(e);
  }

  lemma F2IsSigmaPlusMajority(a: bv32, b: bv32, c: bv32)
    ensures F2(a, b, c) == Add(BigSigma0(a), Maj(a, b, c))
  {
    hide Maj, BigSigma0, RotateRight, Add;
    MajIs(a, b, c);
    BigSigma0Is(a);
  }

  /**
   * One unrolled line. The line updates two registers in place; read through the renaming of the
   * next line, the eight registers are exactly those of one shifting round.
   */
  method Line(a: bv32, b: bv32, c: bv32, d: bv32, e: bv32, f: bv32, g: bv32, h: bv32, k: bv32, w: bv32)
    returns (d': bv32, h': bv32)
    ensures Registers(h', a, b, c, d', e, f, g) == Round(Registers(a, b, c, d, e, f, g, h), k, w)
  {
    hide F1, F2, BigSigma0, BigSigma1, Ch, Maj, Add, Sum4, Sum5;
    var x := Sum4(h, F1(e, f, g), k, w);
    var y := F2(a, b, c);
    d' := Add(d, x);
    h' := Add(x, y);
    F1IsSigmaPlusChoice(e, f, g);
    F2IsSigmaPlusMajority(a, b, c);
    SumRegroups(h, BigSigma1(e), Ch(e, f, g), k, w);
  }

  lemma RoundsStep(block: seq<bv8>, r: Registers, t: nat)
    requires |block| == 64 && t < 64
    ensures Rounds(block, r, t + 1) == Round(Rounds(block, r, t), K(t), Schedule(block, t))
  {
  }

  lemma KAt(row: nat, i: nat)
    requires row < 8 && i < 8
    ensures K(8 * row + i) == KRow(row)[i]
  {
    hide KRow;
  }

  /**
   * Four unrolled lines. They leave the registers renamed by half a turn, so the source's next four
   * lines are these with the two halves of the register file exchanged.
   */
  method FourLines(a0: bv32, b0: bv32, c0: bv32, d0: bv32, e0: bv32, f0: bv32, g0: bv32, h0: bv32,
                   k: seq<bv32>, words: array<bv32>, n: nat, ghost block: seq<bv8>, ghost r0: Registers)
    returns (a: bv32, b: bv32, c: bv32, d: bv32, e: bv32, f: bv32, g: bv32, h: bv32)
    requires |block| == 64 && words.Length == 64 && n <= 60 && |k| == 4
    requires forall i :: 0 <= i < 4 ==> k[i] == K(n + i) && words[n + i] == Schedule(block, n + i)
    requires Registers(a0, b0, c0, d0, e0, f0, g0, h0) == Rounds(block, r0, n)
    ensures Registers(e, f, g, h, a, b, c, d) == Rounds(block, r0, n + 4)
  {
    hide Round, Rounds, Schedule, K;
    a, b, c, d, e, f, g, h := a0, b0, c0, d0, e0, f0, g0, h0;
    RoundsStep(block, r0, n);
    d, h := Line(a, b, c, d, e, f, g, h, k[0], words[n]);
    RoundsStep(block, r0, n + 1);
    c, g := Line(h, a, b, c, d, e, f, g, k[1], words[n + 1]);
    RoundsStep(block, r0, n + 2);
    b, f := Line(g, h, a, b, c, d, e, f, k[2], words[n + 2]);
    RoundsStep(block, r0, n + 3);
    a, e := Line(f, g, h, a, b, c, d, e, k[3], words[n + 3]);
  }

  /** Eight unrolled lines, after which every register is back under its own name. */
  method EightRounds(r: Registers, words: array<bv32>, row: nat, k: seq<bv32>,
                     ghost block: seq<bv8>, ghost r0: Registers)
    returns (r': Registers)
    requires |block| == 64 && words.Length == 64 && row < 8 && k == KRow(row)
    requires forall t :: 0 <= t < 8 * row + 8 ==> words[t] == Schedule(block, t)
    requires r == Rounds(block, r0, 8 * row)
    ensures r' == Rounds(block, r0, 8 * row + 8)
  {
    hide Rounds, Schedule, KRow, K;
    var n := 8 * row;
    forall i | 0 <= i < 8 ensures K(n + i) == k[i] { KAt(row, i); }
    var Registers(a, b, c, d, e, f, g, h) := r;
    a, b, c, d, e, f, g, h := FourLines(a, b, c, d, e, f, g, h, k[..4], words, n, block, r0);
    e, f, g, h, a, b, c, d := FourLines(e, f, g, h, a, b, c, d, k[4..], words, n + 4, block, r0);
    r' := Registers(a, b, c, d, e, f, g, h);
  }

  /** The schedule with its terms in the order the loop adds them. */
  lemma ScheduleStep(block: seq<bv8>, t: nat)
    requires |block| == 64 && 16 <= t < 64
    ensures Schedule(block, t) == Sum4(Schedule(block, t - 16), SmallSigma0(Schedule(block, t - 15)),
                                       Schedule(block, t - 7), SmallSigma1(Schedule(block, t - 2)))
  {
    hide SmallSigma0, SmallSigma1, Sum4;
    SumReverses(Schedule(block, t - 16), SmallSigma0(Schedule(block, t - 15)),
                Schedule(block, t - 7), SmallSigma1(Schedule(block, t - 2)));
  }

  /** The right-hand side of the loops. */
  function NextWord(w16: bv32, w15: bv32, w7: bv32, w2: bv32): bv32 {
    Sum4(w16, RotateRight(w15, 7) ^ RotateRight(w15, 18) ^ (w15 >> 3),
         w7, RotateRight(w2, 17) ^ RotateRight(w2, 19) ^ (w2 >> 10))
  }

  lemma NextWordIs(w16: bv32, w15: bv32, w7: bv32, w2: bv32)
    ensures NextWord(w16, w15, w7, w2) == Sum4(w16, SmallSigma0(w15), w7, SmallSigma1(w2))
  {
    hide RotateRight, SmallSigma0, SmallSigma1, Sum4;
    SmallSigma0Is(w15);
    SmallSigma1Is(w2);
  }

  /** One of the interleaved loops that extend the schedule. */
  method Extend(words: array<bv32>, from: nat, to: nat, ghost block: seq<bv8>)
    requires words.Length == 64 && |block| == 64 && 16 <= from <= to <= 64
    requires forall t :: 0 <= t < from ==> words[t] == Schedule(block, t)
    modifies words
    ensures forall t :: 0 <= t < to ==> words[t] == Schedule(block, t)
  {
    hide SmallSigma0, SmallSigma1, Sum4, Schedule, NextWord;
    for i := from to to
      invariant forall t :: 0 <= t < i ==> words[t] == Schedule(block, t)
    {
      ScheduleStep(block, i);
      NextWordIs(words[i - 16], words[i - 15], words[i - 7], words[i - 2]);
      words[i] := NextWord(words[i - 16], words[i - 15], words[i - 7], words[i - 2]);
    }
  }

  /** The first sixteen words: a little-endian load followed by a byte swap. */
  method LoadWords(words: array<bv32>, input: array<bv8>)
    requires words.Length == 64 && input.Length == 64
    modifies words
    ensures forall t :: 0 <= t < 16 ==> words[t] == Schedule(input[..], t)
  {
    hide Swap, BigEndian, LittleEndian;
    for i := 0 to 16
      invariant forall t :: 0 <= t < i ==> words[t] == Schedule(input[..], t)
    {
      words[i] := Swap(LittleEndian(input[4 * i], input[4 * i + 1], input[4 * i + 2], input[4 * i + 3]));
      SwapLoads(input[4 * i], input[4 * i + 1], input[4 * i + 2], input[4 * i + 3]);
    }
  }

  /** The first four groups of eight lines, with the schedule extended between them. */
  method FirstHalf(r0: Registers, words: array<bv32>, ghost block: seq<bv8>) returns (r: Registers)
    requires words.Length == 64 && |block| == 64
    requires forall t :: 0 <= t < 16 ==> words[t] == Schedule(block, t)
    modifies words
    ensures forall t :: 0 <= t < 32 ==> words[t] == Schedule(block, t)
    ensures r == Rounds(block, r0, 32)
  {
    hide Rounds, Schedule;
    RoundsStart(block, r0);
    r := r0;
    r := EightRounds(r, words, 0, [0x428a2f98, 0x71374491, 0xb5c0fbcf, 0xe9b5dba5,
      0x3956c25b, 0x59f111f1, 0x923f82a4, 0xab1c5ed5], block, r0);
    r := EightRounds(r, words, 1, [0xd807aa98, 0x12835b01, 0x243185be, 0x550c7dc3,
      0x72be5d74, 0x80deb1fe, 0x9bdc06a7, 0xc19bf174], block, r0);
    Extend(words, 16, 24, block);
    r := EightRounds(r, words, 2, [0xe49b69c1, 0xefbe4786, 0x0fc19dc6, 0x240ca1cc,
      0x2de92c6f, 0x4a7484aa, 0x5cb0a9dc, 0x76f988da], block, r0);
    Extend(words, 24, 32, block);
    r := EightRounds(r, words, 3, [0x983e5152, 0xa831c66d, 0xb00327c8, 0xbf597fc7,
      0xc6e00bf3, 0xd5a79147, 0x06ca6351, 0x14292967], block, r0);
  }

  /** The last four groups. */
  method SecondHalf(r1: Registers, words: array<bv32>, ghost block: seq<bv8>, ghost r0: Registers)
    returns (r: Registers)
    requires words.Length == 64 && |block| == 64
    requires forall t :: 0 <= t < 32 ==> words[t] == Schedule(block, t)
    requires r1 == Rounds(block, r0, 32)
    modifies words
    ensures r == Rounds(block, r0, 64)
  {
    hide Rounds, Schedule;
    r := r1;
    Extend(words, 32, 40, block);
    r := EightRounds(r, words, 4, [0x27b70a85, 0x2e1b2138, 0x4d2c6dfc, 0x53380d13,
      0x650a7354, 0x766a0abb, 0x81c2c92e, 0x92722c85], block, r0);
    Extend(words, 40, 48, block);
    r := EightRounds(r, words, 5, [0xa2bfe8a1, 0xa81a664b, 0xc24b8b70, 0xc76c51a3,
      0xd192e819, 0xd6990624, 0xf40e3585, 0x106aa070], block, r0);
    Extend(words, 48, 56, block);
    r := EightRounds(r, words, 6, [0x19a4c116, 0x1e376c08, 0x2748774c, 0x34b0bcb5,
      0x391c0cb3, 0x4ed8aa4a, 0x5b9cca4f, 0x682e6ff3], block, r0);
    Extend(words, 56, 64, block);
    r := EightRounds(r, words, 7, [0x748f82ee, 0x78a5636f, 0x84c87814, 0x8cc70208,
      0x90befffa, 0xa4506ceb, 0xbef9a3f7, 0xc67178f2], block, r0);
  }

  /** The unrolled block function computes the standard's compression function. */
  method ProcessBlock(digest: array<bv32>, input: array<bv8>)
    requires digest.Length == 8 && input.Length == 64
    modifies digest
    ensures digest[..] == Compress(old(digest[..]), input[..])
  {
    hide Rounds, Schedule, AddWords;
    var words := new bv32[64];
    LoadWords(words, input);
    var r0 := Registers(digest[0], digest[1], digest[2], digest[3], digest[4], digest[5], digest[6], digest[7]);
    var r := FirstHalf(r0, words, input[..]);
    r := SecondHalf(r, words, input[..], r0);
    AddInto(digest, [r.a, r.b, r.c, r.d, r.e, r.f, r.g, r.h]);
  }

  lemma RoundsStart(block: seq<bv8>, r: Registers)
    requires |block| == 64
    ensures Rounds(block, r, 0) == r
  {
  }
}
