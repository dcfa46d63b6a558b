/** 32-bit word arithmetic shared by the three message digests: rotation and byte order. */
module Words {
  import opened Bytes

  /** How far a word may be rotated. */
  type Amount = c: bv32 | 0 < c < 32 witness 1

  /** `a` rotated left by `c` bits. */
  function RotateLeft(a: bv32, c: Amount): bv32
  {
    (a << c) | (a >> (32 - c))
  }

  /** `a` rotated right by `c` bits. */
  function RotateRight(a: bv32, c: Amount): bv32
  {
    (a >> c) | (a << (32 - c))
  }

  /** Bit `j`, the least significant being bit 0. */
  predicate Bit(x: bv32, j: bv32)
    requires j < 32
  {
    (x >> j) & 1 == 1
  }

  /** The position `c` places above `j`, round the end. */
  function Above(j: bv32, c: Amount): (k: bv32)
    requires j < 32
    ensures k < 32
  {
    (j + c) % 32
  }

  /** The bit `c` places above `j`, clear if there is none. */
  predicate BitOrClear(x: bv32, j: bv32, c: Amount)
    requires j < 32
  {
    j + c < 32 && Bit(x, j + c)
  }

  /** The operators, named so that proofs about bits can treat them as opaque. */
  function And(x: bv32, y: bv32): bv32 {
    x & y
  }

  function Or(x: bv32, y: bv32): bv32 {
    x | y
  }

  function Xor(x: bv32, y: bv32): bv32 {
    x ^ y
  }

  function Not(x: bv32): bv32 {
    !x
  }

  function ShiftRight(x: bv32, c: Amount): bv32 {
    x >> c
  }

  lemma AndIs(x: bv32, y: bv32)
    ensures And(x, y) == x & y
  {
  }

  lemma OrIs(x: bv32, y: bv32)
    ensures Or(x, y) == x | y
  {
  }

  lemma XorIs(x: bv32, y: bv32)
    ensures Xor(x, y) == x ^ y
  {
  }

  lemma NotIs(x: bv32)
    ensures Not(x) == !x
  {
  }

  lemma Xor3Is(x: bv32, y: bv32, z: bv32)
    ensures Xor(Xor(x, y), z) == x ^ y ^ z
  {
    hide Xor;
    XorIs(x, y);
    XorIs(x ^ y, z);
  }

  /** What the operators do to one bit. */
  lemma ExpressionBits(x: bv32, y: bv32, j: bv32)
    requires j < 32
    ensures Bit(x & y, j) <==> Bit(x, j) && Bit(y, j)
    ensures Bit(x | y, j) <==> Bit(x, j) || Bit(y, j)
    ensures Bit(x ^ y, j) <==> Bit(x, j) != Bit(y, j)
    ensures Bit(!x, j) <==> !Bit(x, j)
  {
  }

  lemma AndBit(x: bv32, y: bv32, j: bv32)
    requires j < 32
    ensures Bit(And(x, y), j) <==> Bit(x, j) && Bit(y, j)
  {
    hide *;
    ExpressionBits(x, y, j);
    AndIs(x, y);
  }

  lemma OrBit(x: bv32, y: bv32, j: bv32)
    requires j < 32
    ensures Bit(Or(x, y), j) <==> Bit(x, j) || Bit(y, j)
  {
    hide *;
    ExpressionBits(x, y, j);
    OrIs(x, y);
  }

  lemma XorBit(x: bv32, y: bv32, j: bv32)
    requires j < 32
    ensures Bit(Xor(x, y), j) <==> Bit(x, j) != Bit(y, j)
  {
    hide *;
    ExpressionBits(x, y, j);
    XorIs(x, y);
  }

  lemma NotBit(x: bv32, j: bv32)
    requires j < 32
    ensures Bit(Not(x), j) <==> !Bit(x, j)
  {
    hide *;
    ExpressionBits(x, x, j);
    NotIs(x);
  }

  lemma RotatedRight(x: bv32, c: bv32, j: bv32)
    requires 0 < c < 32 && j < 32
    ensures Bit((x >> c) | (x << (32 - c)), j) <==> Bit(x, (j + c) % 32)
  {
  }

  lemma RotatedLeft(x: bv32, c: bv32, j: bv32)
    requires 0 < c < 32 && j < 32
    ensures Bit((x << c) | (x >> (32 - c)), (j + c) % 32) <==> Bit(x, j)
  {
  }

  lemma ShiftedRight(x: bv32, c: bv32, j: bv32)
    requires 0 < c < 32 && j < 32
    ensures Bit(x >> c, j) <==> j + c < 32 && Bit(x, j + c)
  {
  }

  lemma ShiftRightIs(x: bv32, c: Amount)
    ensures ShiftRight(x, c) == x >> c
  {
  }

  lemma RotateRightIs(x: bv32, c: Amount)
    ensures RotateRight(x, c) == (x >> c) | (x << (32 - c))
  {
  }

  lemma RotateLeftIs(x: bv32, c: Amount)
    ensures RotateLeft(x, c) == (x << c) | (x >> (32 - c))
  {
  }

  lemma AboveIs(j: bv32, c: Amount)
    requires j < 32
    ensures Above(j, c) == (j + c) % 32
  {
  }

  /** Rotating moves every bit, round the end; shifting clears what comes from beyond it. */
  lemma RotateRightBit(x: bv32, c: Amount, j: bv32)
    requires j < 32
    ensures Bit(RotateRight(x, c), j) <==> Bit(x, Above(j, c))
  {
    hide *;
    RotatedRight(x, c, j);
    RotateRightIs(x, c);
    AboveIs(j, c);
  }

  lemma RotateLeftBit(x: bv32, c: Amount, j: bv32)
    requires j < 32
    ensures Bit(RotateLeft(x, c), Above(j, c)) <==> Bit(x, j)
  {
    hide *;
    RotatedLeft(x, c, j);
    RotateLeftIs(x, c);
    AboveIs(j, c);
  }

  lemma ShiftRightBit(x: bv32, c: Amount, j: bv32)
    requires j < 32
    ensures Bit(ShiftRight(x, c), j) <==> BitOrClear(x, j, c)
  {
    hide Bit, ShiftRight;
    ShiftedRight(x, c, j);
    ShiftRightIs(x, c);
  }

  /** The parity of three bits. */
  predicate Odd(p: bool, q: bool, r: bool) {
    (p != q) != r
  }

  lemma Xor3Bit(x: bv32, y: bv32, z: bv32, j: bv32)
    requires j < 32
    ensures Bit(Xor(Xor(x, y), z), j) <==> Odd(Bit(x, j), Bit(y, j), Bit(z, j))
  {
    hide Bit, Xor;
    XorBit(x, y, j);
    XorBit(Xor(x, y), z, j);
  }

  /** Addition modulo 2^32, by the number of terms. Named, so that proofs can treat sums as opaque. */
  function Add(x: bv32, y: bv32): bv32 {
    x + y
  }

  function Sum4(x: bv32, y: bv32, z: bv32, u: bv32): bv32 {
    x + y + z + u
  }

  function Sum5(x: bv32, y: bv32, z: bv32, u: bv32, v: bv32): bv32 {
    x + y + z + u + v
  }

  function Xor4(x: bv32, y: bv32, z: bv32, u: bv32): bv32 {
    x ^ y ^ z ^ u
  }

  lemma Xor4Is(x: bv32, y: bv32, z: bv32, u: bv32)
    ensures Xor4(x, y, z, u) == x ^ y ^ z ^ u
  {
  }

  lemma AddIsSum(x: bv32, y: bv32)
    ensures Add(x, y) == x + y
  {
  }

  lemma SumFlattens(x: bv32, y: bv32, z: bv32, u: bv32, v: bv32)
    ensures Sum4(x, y + z, u, v) == Sum5(x, y, z, u, v)
  {
  }

  lemma SumRegroups(x: bv32, y: bv32, z: bv32, u: bv32, v: bv32)
    ensures Sum4(x, Add(y, z), u, v) == Sum5(x, y, z, u, v)
  {
    hide *;
    AddIsSum(y, z);
    SumFlattens(x, y, z, u, v);
  }

  lemma Sum4IsSum(x: bv32, y: bv32, z: bv32, u: bv32)
    ensures Sum4(x, y, z, u) == x + y + z + u
  {
  }

  lemma AddFlattens(x: bv32, y: bv32, z: bv32, u: bv32, v: bv32)
    ensures Add(x, y + z + u + v) == Sum5(y, z, x, v, u)
  {
  }

  lemma AddRegroups(x: bv32, y: bv32, z: bv32, u: bv32, v: bv32)
    ensures Add(x, Sum4(y, z, u, v)) == Sum5(y, z, x, v, u)
  {
    hide *;
    Sum4IsSum(y, z, u, v);
    AddFlattens(x, y, z, u, v);
  }

  lemma SumReverses(x: bv32, y: bv32, z: bv32, u: bv32)
    ensures Sum4(x, y, z, u) == Sum4(u, z, y, x)
  {
  }

  /** Word-by-word addition: how a block function folds its registers into the running hash. */
  function AddWords(hash: seq<bv32>, words: seq<bv32>): (r: seq<bv32>)
    requires |hash| == |words|
    ensures |r| == |hash|
  {
    seq(|hash|, i requires 0 <= i < |hash| => Add(hash[i], words[i]))
  }

  /** The closing `m_digest[i] += ...` statements, one per word. */
  method AddInto(digest: array<bv32>, words: seq<bv32>)
    requires digest.Length == |words|
    modifies digest
    ensures digest[..] == AddWords(old(digest[..]), words)
  {
    hide Add;
    for i := 0 to digest.Length
      invariant forall j :: 0 <= j < i ==> digest[j] == Add(old(digest[j]), words[j])
      invariant forall j :: i <= j < digest.Length ==> digest[j] == old(digest[j])
    {
      digest[i] := Add(digest[i], words[i]);
    }
  }

  /** `Endian::ConstSwap`: moves the bytes of `x`, lowest first, onto the low end of `result`. */
  function ConstSwap(x: bv32, result: bv32, step: nat): bv32
    requires step <= 4
    decreases 4 - step
  {
    if step == 4 then result
    else ConstSwap(x >> 8, (result << 8) | (x & 0xff), step + 1)
  }

  /** `Swap`, as SHA-1 and SHA-256 use it. */
  function Swap(x: bv32): bv32 {
    ConstSwap(x, 0, 0)
  }

  /** Swapping a word loaded by a little-endian machine gives the big-endian reading of its bytes. */
  lemma SwapLoads(b0: bv8, b1: bv8, b2: bv8, b3: bv8)
    ensures Swap(LittleEndian(b0, b1, b2, b3)) == BigEndian(b0, b1, b2, b3)
  {
  }
}
