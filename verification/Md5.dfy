/** The MD5 block transformation of section 3.4 of RFC 1321, as a loop over shifting registers. */
module Md5Spec {
  import opened Bytes
  import opened Words

  /** The four registers. */
  datatype Registers = Registers(a: bv32, b: bv32, c: bv32, d: bv32)

  /** Section 3.3. */
  const INITIAL_HASH: seq<bv32> := [0x67452301, 0xefcdab89, 0x98badcfe, 0x10325476]

  /** The four words of section 3.3, which lists their bytes low-order first. */
  lemma InitialHashIs()
    ensures INITIAL_HASH == [
      LittleEndian(0x01, 0x23, 0x45, 0x67), LittleEndian(0x89, 0xab, 0xcd, 0xef),
      LittleEndian(0xfe, 0xdc, 0xba, 0x98), LittleEndian(0x76, 0x54, 0x32, 0x10)]
  {
  }

  /** The table of section 3.4, indexed from zero. */
  function T(i: nat): bv32
    requires i < 64
  {
    TRow(i / 4)[i % 4]
  }

  function TRow(group: nat): (k: seq<bv32>)
    requires group < 16
    ensures |k| == 4
  {
    if group == 0 then [0xd76aa478, 0xe8c7b756, 0x242070db, 0xc1bdceee]
    else if group == 1 then [0xf57c0faf, 0x4787c62a, 0xa8304613, 0xfd469501]
    else if group == 2 then [0x698098d8, 0x8b44f7af, 0xffff5bb1, 0x895cd7be]
    else if group == 3 then [0x6b901122, 0xfd987193, 0xa679438e, 0x49b40821]
    else if group == 4 then [0xf61e2562, 0xc040b340, 0x265e5a51, 0xe9b6c7aa]
    else if group == 5 then [0xd62f105d, 0x02441453, 0xd8a1e681, 0xe7d3fbc8]
    else if group == 6 then [0x21e1cde6, 0xc33707d6, 0xf4d50d87, 0x455a14ed]
    else if group == 7 then [0xa9e3e905, 0xfcefa3f8, 0x676f02d9, 0x8d2a4c8a]
    else if group == 8 then [0xfffa3942, 0x8771f681, 0x6d9d6122, 0xfde5380c]
    else if group == 9 then [0xa4beea44, 0x4bdecfa9, 0xf6bb4b60, 0xbebfbc70]
    else if group == 10 then [0x289b7ec6, 0xeaa127fa, 0xd4ef3085, 0x04881d05]
    else if group == 11 then [0xd9d4d039, 0xe6db99e5, 0x1fa27cf8, 0xc4ac5665]
    else if group == 12 then [0xf4292244, 0x432aff97, 0xab9423a7, 0xfc93a039]
    else if group == 13 then [0x655b59c3, 0x8f0ccc92, 0xffeff47d, 0x85845dd1]
    else if group == 14 then [0x6fa87e4f, 0xfe2ce6e0, 0xa3014314, 0x4e0811a1]
    else [0xf7537e82, 0xbd3af235, 0x2ad7d2bb, 0xeb86d391]
  }

  /** The auxiliary functions. */
  function F(x: bv32, y: bv32, z: bv32): bv32 {
    Or(And(x, y), And(Not(x), z))
  }

  function G(x: bv32, y: bv32, z: bv32): bv32 {
    Or(And(x, z), And(y, Not(z)))
  }

  function H(x: bv32, y: bv32, z: bv32): bv32 {
    Xor(Xor(x, y), z)
  }

  function I(x: bv32, y: bv32, z: bv32): bv32 {
    Xor(y, Or(x, Not(z)))
  }

  function Auxiliary(phase: nat, x: bv32, y: bv32, z: bv32): bv32 {
    if phase == 0 then F(x, y, z) else if phase == 1 then G(x, y, z) else if phase == 2 then H(x, y, z) else I(x, y, z)
  }

  /** The auxiliary functions bit by bit. */
  lemma AuxiliaryBit(phase: nat, x: bv32, y: bv32, z: bv32, j: bv32)
    requires j < 32
    ensures Bit(Auxiliary(phase, x, y, z), j) <==>
      if phase == 0 then if Bit(x, j) then Bit(y, j) else Bit(z, j)
      else if phase == 1 then if Bit(z, j) then Bit(x, j) else Bit(y, j)
      else if phase == 2 then Odd(Bit(x, j), Bit(y, j), Bit(z, j))
      else Bit(y, j) != (Bit(x, j) || !Bit(z, j))
  {
    hide Bit, Xor, And, Or, Not;
    OrBit(And(x, y), And(Not(x), z), j);
    AndBit(x, y, j);
    AndBit(Not(x), z, j);
    NotBit(x, j);
    OrBit(And(x, z), And(y, Not(z)), j);
    AndBit(x, z, j);
    AndBit(y, Not(z), j);
    NotBit(z, j);
    Xor3Bit(x, y, z, j);
    XorBit(y, Or(x, Not(z)), j);
    OrBit(x, Not(z), j);
  }

  /** Which word of the block operation `i` uses. */
  function WordIndex(i: nat): nat
    requires i < 64
    ensures WordIndex(i) < 16
  {
    if i < 16 then i else if i < 32 then (5 * i + 1) % 16 else if i < 48 then (3 * i + 5) % 16 else (7 * i) % 16
  }

  /** How far operation `i` rotates. */
  function Shift(i: nat): Amount
    requires i < 64
  {
    ShiftRow(i / 16)[i % 4]
  }

  function ShiftRow(phase: nat): (s: seq<Amount>)
    requires phase < 4
    ensures |s| == 4
  {
    if phase == 0 then [7, 12, 17, 22] else if phase == 1 then [5, 9, 14, 20]
    else if phase == 2 then [4, 11, 16, 23] else [6, 10, 15, 21]
  }

  /** Word `k` of the block, low-order byte first. */
  function Word(block: seq<bv8>, k: nat): bv32
    requires |block| == 64 && k < 16
  {
    LittleEndian(block[4 * k], block[4 * k + 1], block[4 * k + 2], block[4 * k + 3])
  }

  /** One operation: every register moves by one. */
  function Operation(r: Registers, f: bv32, x: bv32, t: bv32, s: Amount): Registers
  {
    Registers(r.d, Add(RotateLeft(Sum4(r.a, f, x, t), s), r.b), r.b, r.c)
  }

  /** The registers after `n` operations. */
  function Rounds(block: seq<bv8>, r: Registers, n: nat): Registers
    requires |block| == 64 && n <= 64
  {
    if n == 0 then r
    else
      var p := Rounds(block, r, n - 1);
      Operation(p, Auxiliary((n - 1) / 16, p.b, p.c, p.d), Word(block, WordIndex(n - 1)), T(n - 1), Shift(n - 1))
  }

  function Load(hash: seq<bv32>): Registers
    requires |hash| == 4
  {
    Registers(hash[0], hash[1], hash[2], hash[3])
  }

  function Store(r: Registers): seq<bv32> {
    [r.a, r.b, r.c, r.d]
  }

  /** The next hash value. */
  function Compress(hash: seq<bv32>, block: seq<bv8>): (next: seq<bv32>)
    requires |hash| == 4 && |block| == 64
    ensures |next| == 4
  {
    AddWords(hash, Store(Rounds(block, Load(hash), 64)))
  }
}

/** `MDHash<Md5>::ProcessBlock`: unrolled lines over renamed registers, on a little-endian machine. */
module Md5 {
  import opened Bytes
  import opened Words
  import opened Md5Spec

  function F1(b: bv32, c: bv32, d: bv32): bv32 {
    d ^ (b & (c ^ d))
  }

  function F2(b: bv32, c: bv32, d: bv32): bv32 {
    c ^ (d & (b ^ c))
  }

  function F3(b: bv32, c: bv32, d: bv32): bv32 {
    b ^ c ^ d
  }

  function F4(b: bv32, c: bv32, d: bv32): bv32 {
    c ^ (b | !d)
  }

  /** The function the lines of each round apply. */
  function PhaseF(phase: nat, b: bv32, c: bv32, d: bv32): bv32 {
    if phase == 0 then F1(b, c, d) else if phase == 1 then F2(b, c, d)
    else if phase == 2 then F3(b, c, d) else F4(b, c, d)
  }

  // The standard's functions in the source's operators.

  lemma FIs(x: bv32, y: bv32, z: bv32)
    ensures F(x, y, z) == (x & y) | (!x & z)
  {
  }

  lemma GIs(x: bv32, y: bv32, z: bv32)
    ensures G(x, y, z) == (x & z) | (y & !z)
  {
  }

  lemma HIs(x: bv32, y: bv32, z: bv32)
    ensures H(x, y, z) == x ^ y ^ z
  {
    hide Xor;
    Xor3Is(x, y, z);
  }

  lemma FBits(b: bv32, c: bv32, d: bv32)
    ensures d ^ (b & (c ^ d)) == (b & c) | (!b & d)
  {
  }

  lemma GBits(b: bv32, c: bv32, d: bv32)
    ensures c ^ (d & (b ^ c)) == (b & d) | (c & !d)
  {
  }

  lemma F1IsF(b: bv32, c: bv32, d: bv32)
    ensures F1(b, c, d) == F(b, c, d)
  {
    hide F;
    FIs(b, c, d);
    FBits(b, c, d);
  }

  lemma F2IsG(b: bv32, c: bv32, d: bv32)
    ensures F2(b, c, d) == G(b, c, d)
  {
    hide G;
    GIs(b, c, d);
    GBits(b, c, d);
  }

  lemma F3IsH(b: bv32, c: bv32, d: bv32)
    ensures F3(b, c, d) == H(b, c, d)
  {
    hide H;
    HIs(b, c, d);
  }

  lemma F4IsI(b: bv32, c: bv32, d: bv32)
    ensures F4(b, c, d) == I(b, c, d)
  {
  }

  /** The rewritten boolean functions are the standard's, round by round. */
  lemma PhaseFIsAuxiliary(phase: nat, b: bv32, c: bv32, d: bv32)
    ensures PhaseF(phase, b, c, d) == Auxiliary(phase, b, c, d)
  {
    hide F1, F2, F3, F4, F, G, H, I;
    F1IsF(b, c, d);
    F2IsG(b, c, d);
    F3IsH(b, c, d);
    F4IsI(b, c, d);
  }

  /** One line: it updates a single register in place. */
  method Line(a: bv32, b: bv32, c: bv32, d: bv32, phase: nat, x: bv32, t: bv32, s: Amount) returns (a': bv32)
    ensures Registers(d, a', b, c) == Operation(Registers(a, b, c, d), Auxiliary(phase, b, c, d), x, t, s)
  {
    hide PhaseF, Auxiliary, RotateLeft, Add, Sum4;
    a' := Add(RotateLeft(Sum4(a, PhaseF(phase, b, c, d), x, t), s), b);
    PhaseFIsAuxiliary(phase, b, c, d);
  }

  lemma RoundsStart(block: seq<bv8>, r: Registers)
    requires |block| == 64
    ensures Rounds(block, r, 0) == r
  {
  }

  lemma RoundsStep(block: seq<bv8>, r: Registers, phase: nat, n: nat)
    requires |block| == 64 && n < 64 && 16 * phase <= n < 16 * phase + 16
    ensures
      var p := Rounds(block, r, n);
      Rounds(block, r, n + 1)
      == Operation(p, Auxiliary(phase, p.b, p.c, p.d), Word(block, WordIndex(n)), T(n), Shift(n))
  {
    hide Operation, Auxiliary, Word, T, Shift;
  }

  lemma TableAt(phase: nat, group: nat, i: nat)
    requires phase < 4 && 4 * phase <= group < 4 * phase + 4 && i < 4
    ensures T(4 * group + i) == TRow(group)[i]
    ensures Shift(4 * group + i) == ShiftRow(phase)[i]
  {
    hide TRow, ShiftRow;
  }

  /** Four lines, after which every register is back under its own name. */
  method FourLines(r: Registers, phase: nat, group: nat, x0: bv32, x1: bv32, x2: bv32, x3: bv32,
                   t: seq<bv32>, s: seq<Amount>, ghost block: seq<bv8>, ghost r0: Registers)
    returns (r': Registers)
    requires |block| == 64 && phase < 4 && 4 * phase <= group < 4 * phase + 4
    requires t == TRow(group) && s == ShiftRow(phase)
    requires x0 == Word(block, WordIndex(4 * group)) && x1 == Word(block, WordIndex(4 * group + 1))
    requires x2 == Word(block, WordIndex(4 * group + 2)) && x3 == Word(block, WordIndex(4 * group + 3))
    requires r == Rounds(block, r0, 4 * group)
    ensures r' == Rounds(block, r0, 4 * group + 4)
  {
    hide Operation, Rounds, Word, Auxiliary, T, TRow, Shift, ShiftRow, WordIndex;
    var n := 4 * group;
    forall i | 0 <= i < 4 ensures T(n + i) == t[i] && Shift(n + i) == s[i] { TableAt(phase, group, i); }
    var Registers(a, b, c, d) := r;
    RoundsStep(block, r0, phase, n);
    a := Line(a, b, c, d, phase, x0, t[0], s[0]);
    RoundsStep(block, r0, phase, n + 1);
    d := Line(d, a, b, c, phase, x1, t[1], s[1]);
    RoundsStep(block, r0, phase, n + 2);
    c := Line(c, d, a, b, phase, x2, t[2], s[2]);
    RoundsStep(block, r0, phase, n + 3);
    b := Line(b, c, d, a, phase, x3, t[3], s[3]);
    r' := Registers(a, b, c, d);
  }

  /** The sixteen words of the block have been loaded. */
  ghost predicate IsLoaded(x: seq<bv32>, block: seq<bv8>)
    requires |block| == 64
  {
    |x| == 16 && forall k :: 0 <= k < 16 ==> x[k] == Word(block, k)
  }

  method LoadWords(input: array<bv8>) returns (x: seq<bv32>)
    requires input.Length == 64
    ensures IsLoaded(x, input[..])
  {
    hide LittleEndian;
    x := seq(16, k requires 0 <= k < 16 reads input =>
      LittleEndian(input[4 * k], input[4 * k + 1], input[4 * k + 2], input[4 * k + 3]));
  }

  /** Round 1: sixteen unrolled lines. */
  method Round1(r: Registers, x: seq<bv32>, ghost input: seq<bv8>, ghost r0: Registers) returns (r': Registers)
    requires |input| == 64 && IsLoaded(x, input) && r == Rounds(input, r0, 0)
    ensures r' == Rounds(input, r0, 16)
  {
    hide Rounds, Word;
    r' := r;
    r' := FourLines(r', 0, 0, x[0], x[1], x[2], x[3], [0xd76aa478, 0xe8c7b756, 0x242070db, 0xc1bdceee],
      [7, 12, 17, 22], input, r0);
    r' := FourLines(r', 0, 1, x[4], x[5], x[6], x[7], [0xf57c0faf, 0x4787c62a, 0xa8304613, 0xfd469501],
      [7, 12, 17, 22], input, r0);
    r' := FourLines(r', 0, 2, x[8], x[9], x[10], x[11], [0x698098d8, 0x8b44f7af, 0xffff5bb1, 0x895cd7be],
      [7, 12, 17, 22], input, r0);
    r' := FourLines(r', 0, 3, x[12], x[13], x[14], x[15], [0x6b901122, 0xfd987193, 0xa679438e, 0x49b40821],
      [7, 12, 17, 22], input, r0);
  }

  /** The order in which a round takes the words. */
  lemma WordOrder2()
    ensures WordIndex(16) == 1 && WordIndex(17) == 6 && WordIndex(18) == 11 && WordIndex(19) == 0
    ensures WordIndex(20) == 5 && WordIndex(21) == 10 && WordIndex(22) == 15 && WordIndex(23) == 4
    ensures WordIndex(24) == 9 && WordIndex(25) == 14 && WordIndex(26) == 3 && WordIndex(27) == 8
    ensures WordIndex(28) == 13 && WordIndex(29) == 2 && WordIndex(30) == 7 && WordIndex(31) == 12
  {
  }

  /** Round 2: sixteen unrolled lines. */
  method Round2(r: Registers, x: seq<bv32>, ghost input: seq<bv8>, ghost r0: Registers) returns (r': Registers)
    requires |input| == 64 && IsLoaded(x, input) && r == Rounds(input, r0, 16)
    ensures r' == Rounds(input, r0, 32)
  {
    WordOrder2();
    hide Rounds, Word, WordIndex;
    r' := r;
    r' := FourLines(r', 1, 4, x[1], x[6], x[11], x[0], [0xf61e2562, 0xc040b340, 0x265e5a51, 0xe9b6c7aa],
      [5, 9, 14, 20], input, r0);
    r' := FourLines(r', 1, 5, x[5], x[10], x[15], x[4], [0xd62f105d, 0x02441453, 0xd8a1e681, 0xe7d3fbc8],
      [5, 9, 14, 20], input, r0);
    r' := FourLines(r', 1, 6, x[9], x[14], x[3], x[8], [0x21e1cde6, 0xc33707d6, 0xf4d50d87, 0x455a14ed],
      [5, 9, 14, 20], input, r0);
    r' := FourLines(r', 1, 7, x[13], x[2], x[7], x[12], [0xa9e3e905, 0xfcefa3f8, 0x676f02d9, 0x8d2a4c8a],
      [5, 9, 14, 20], input, r0);
  }

  lemma WordOrder3()
    ensures WordIndex(32) == 5 && WordIndex(33) == 8 && WordIndex(34) == 11 && WordIndex(35) == 14
    ensures WordIndex(36) == 1 && WordIndex(37) == 4 && WordIndex(38) == 7 && WordIndex(39) == 10
    ensures WordIndex(40) == 13 && WordIndex(41) == 0 && WordIndex(42) == 3 && WordIndex(43) == 6
    ensures WordIndex(44) == 9 && WordIndex(45) == 12 && WordIndex(46) == 15 && WordIndex(47) == 2
  {
  }

  /** Round 3: sixteen unrolled lines. */
  method Round3(r: Registers, x: seq<bv32>, ghost input: seq<bv8>, ghost r0: Registers) returns (r': Registers)
    requires |input| == 64 && IsLoaded(x, input) && r == Rounds(input, r0, 32)
    ensures r' == Rounds(input, r0, 48)
  {
    WordOrder3();
    hide Rounds, Word, WordIndex;
    r' := r;
    r' := FourLines(r', 2, 8, x[5], x[8], x[11], x[14], [0xfffa3942, 0x8771f681, 0x6d9d6122, 0xfde5380c],
      [4, 11, 16, 23], input, r0);
    r' := FourLines(r', 2, 9, x[1], x[4], x[7], x[10], [0xa4beea44, 0x4bdecfa9, 0xf6bb4b60, 0xbebfbc70],
      [4, 11, 16, 23], input, r0);
    r' := FourLines(r', 2, 10, x[13], x[0], x[3], x[6], [0x289b7ec6, 0xeaa127fa, 0xd4ef3085, 0x04881d05],
      [4, 11, 16, 23], input, r0);
    r' := FourLines(r', 2, 11, x[9], x[12], x[15], x[2], [0xd9d4d039, 0xe6db99e5, 0x1fa27cf8, 0xc4ac5665],
      [4, 11, 16, 23], input, r0);
  }

  lemma WordOrder4()
    ensures WordIndex(48) == 0 && WordIndex(49) == 7 && WordIndex(50) == 14 && WordIndex(51) == 5
    ensures WordIndex(52) == 12 && WordIndex(53) == 3 && WordIndex(54) == 10 && WordIndex(55) == 1
    ensures WordIndex(56) == 8 && WordIndex(57) == 15 && WordIndex(58) == 6 && WordIndex(59) == 13
    ensures WordIndex(60) == 4 && WordIndex(61) == 11 && WordIndex(62) == 2 && WordIndex(63) == 9
  {
  }

  /** Round 4: sixteen unrolled lines. */
  method Round4(r: Registers, x: seq<bv32>, ghost input: seq<bv8>, ghost r0: Registers) returns (r': Registers)
    requires |input| == 64 && IsLoaded(x, input) && r == Rounds(input, r0, 48)
    ensures r' == Rounds(input, r0, 64)
  {
    WordOrder4();
    hide Rounds, Word, WordIndex;
    r' := r;
    r' := FourLines(r', 3, 12, x[0], x[7], x[14], x[5], [0xf4292244, 0x432aff97, 0xab9423a7, 0xfc93a039],
      [6, 10, 15, 21], input, r0);
    r' := FourLines(r', 3, 13, x[12], x[3], x[10], x[1], [0x655b59c3, 0x8f0ccc92, 0xffeff47d, 0x85845dd1],
      [6, 10, 15, 21], input, r0);
    r' := FourLines(r', 3, 14, x[8], x[15], x[6], x[13], [0x6fa87e4f, 0xfe2ce6e0, 0xa3014314, 0x4e0811a1],
      [6, 10, 15, 21], input, r0);
    r' := FourLines(r', 3, 15, x[4], x[11], x[2], x[9], [0xf7537e82, 0xbd3af235, 0x2ad7d2bb, 0xeb86d391],
      [6, 10, 15, 21], input, r0);
  }

  /** The unrolled block function computes the standard's block transformation. */
  method ProcessBlock(digest: array<bv32>, input: array<bv8>)
    requires digest.Length == 4 && input.Length == 64
    modifies digest
    ensures digest[..] == Compress(old(digest[..]), input[..])
  {
    hide Rounds, AddWords, IsLoaded;
    ghost var block := input[..];
    var x := LoadWords(input);
    var r0 := Registers(digest[0], digest[1], digest[2], digest[3]);
    RoundsStart(block, r0);
    var r := Round1(r0, x, block, r0);
    r := Round2(r, x, block, r0);
    r := Round3(r, x, block, r0);
    r := Round4(r, x, block, r0);
    AddInto(digest, [r.a, r.b, r.c, r.d]);
  }
}
