/**
 * Merkle-Damgard hashing as the standards define it: pad, parse into blocks, fold, output.
 * Padding is section 5.1.1 of FIPS 180-4 and sections 3.1 and 3.2 of RFC 1321, on whole bytes.
 */
module MessageDigestSpec {
  import opened Bytes
  import Md5Spec
  import Sha1Spec
  import Sha256Spec

  datatype Kind = Md5 | Sha1 | Sha256

  const BLOCK_SIZE: nat := 64

  /** Number of 32-bit words in the running hash. */
  function WordCount(kind: Kind): nat {
    match kind case Md5 => 4 case Sha1 => 5 case Sha256 => 8
  }

  function DigestSize(kind: Kind): nat {
    4 * WordCount(kind)
  }

  function Initial(kind: Kind): (h: seq<bv32>)
    ensures |h| == WordCount(kind)
  {
    match kind
    case Md5 => Md5Spec.INITIAL_HASH
    case Sha1 => Sha1Spec.INITIAL_HASH
    case Sha256 => Sha256Spec.INITIAL_HASH
  }

  function Compress(kind: Kind, hash: seq<bv32>, block: seq<bv8>): (h: seq<bv32>)
    requires |hash| == WordCount(kind) && |block| == BLOCK_SIZE
    ensures |h| == WordCount(kind)
  {
    match kind
    case Md5 => Md5Spec.Compress(hash, block)
    case Sha1 => Sha1Spec.Compress(hash, block)
    case Sha256 => Sha256Spec.Compress(hash, block)
  }

  /** The running hash after all the blocks of `data`. */
  function Fold(kind: Kind, data: seq<bv8>): (h: seq<bv32>)
    requires |data| % BLOCK_SIZE == 0
    ensures |h| == WordCount(kind)
    decreases |data|
  {
    if data == [] then Initial(kind)
    else
      var n := |data| - BLOCK_SIZE;
      Compress(kind, Fold(kind, data[..n]), data[n..])
  }

  lemma FoldEmpty(kind: Kind)
    ensures Fold(kind, []) == Initial(kind)
  {
  }

  lemma FoldAppend(kind: Kind, data: seq<bv8>, block: seq<bv8>)
    requires |data| % BLOCK_SIZE == 0 && |block| == BLOCK_SIZE
    ensures Fold(kind, data + block) == Compress(kind, Fold(kind, data), block)
  {
    hide Compress;
    assert (data + block)[..|data|] == data && (data + block)[|data|..] == block;
  }

  /** Byte `k` of `n`, the least significant being byte 0. */
  function Byte(n: nat, k: nat): bv8 {
    if k == 0 then ToByte(n % 256) else Byte(n / 256, k - 1)
  }

  /** The 64-bit length field: high-order byte first in SHA, low-order byte first in MD5. */
  function LengthField(kind: Kind, bits: nat): (f: seq<bv8>)
    ensures |f| == 8
  {
    seq(8, i requires 0 <= i < 8 => Byte(bits, if kind.Md5? then i else 7 - i))
  }

  lemma ByteSteps(n: nat, k: nat)
    ensures Byte(n, k) == if k == 0 then ToByte(n % 256) else Byte(n / 256, k - 1)
  {
  }

  function LowBytes(n: nat, k: nat): (b: seq<bv8>)
    ensures |b| == k
  {
    seq(k, i requires 0 <= i => Byte(n, i))
  }

  /** The low bytes of a number are its digits. */
  lemma {:induction false} LowBytesAreDigits(n: nat, k: nat)
    ensures n < Weight(k) ==> LittleValue(LowBytes(n, k)) == n
    decreases k
  {
    hide Byte, LittleValue, Digit, ToByte;
    if k == 0 {
      assert LowBytes(n, k) == [];
      LittleOfNone();
    } else {
      var b := LowBytes(n, k);
      assert b == [Byte(n, 0)] + LowBytes(n / 256, k - 1) by {
        forall i | 0 < i < k
          ensures b[i] == LowBytes(n / 256, k - 1)[i - 1]
        {
          ByteSteps(n, i);
        }
      }
      LittleGrows(Byte(n, 0), LowBytes(n / 256, k - 1));
      ByteSteps(n, 0);
      DigitOf(n % 256);
      LowBytesAreDigits(n / 256, k - 1);
    }
  }

  /** The length field is worth the bit count, in the byte order of the standard. */
  lemma LengthFieldIs(kind: Kind, bits: nat)
    requires bits < UINT64
    ensures bits == if kind.Md5? then LittleValue(LengthField(kind, bits)) else BigValue(LengthField(kind, bits))
  {
    hide Byte, LittleValue, BigValue;
    WeightOf8();
    LowBytesAreDigits(bits, 8);
    if kind.Md5? {
      assert LengthField(kind, bits) == LowBytes(bits, 8);
    } else {
      assert LengthField(kind, bits) == Reversed(LowBytes(bits, 8));
      ReversedValue(LowBytes(bits, 8));
    }
  }

  /** How many zero bytes follow the marker: the least number that leaves room for the length. */
  function ZeroCount(n: nat): (k: nat)
    ensures (n + 1 + k) % BLOCK_SIZE == 56 && k < BLOCK_SIZE
  {
    if n % BLOCK_SIZE < 56 then 55 - n % BLOCK_SIZE else 119 - n % BLOCK_SIZE
  }

  lemma ZeroCountIsLeast(n: nat, k: nat)
    requires (n + 1 + k) % BLOCK_SIZE == 56
    ensures ZeroCount(n) <= k
  {
  }

  function Zeros(k: nat): seq<bv8> {
    seq(k, i => 0)
  }

  const UINT64: nat := 0x1_0000_0000_0000_0000

  /** A 64-bit counter that has counted to `n`. */
  function Counted(n: nat): nat {
    n % UINT64
  }

  lemma CountBlock(n: nat)
    ensures (Counted(n) + BLOCK_SIZE) % UINT64 == Counted(n + BLOCK_SIZE)
  {
  }

  lemma BlockAligned(n: nat)
    requires n % BLOCK_SIZE == 0
    ensures (n + BLOCK_SIZE) % BLOCK_SIZE == 0
  {
  }

  /** The length field of a message of `n` bytes: its bit count modulo 2^64. */
  function MessageBits(n: nat): nat {
    8 * n % UINT64
  }

  lemma FillsBlocks(n: nat, k: nat)
    requires (n + 1 + k) % BLOCK_SIZE == 56
    ensures (n + (1 + k + 8)) % BLOCK_SIZE == 0
  {
  }

  /** What is appended to a message of `n` bytes. */
  function Padding(kind: Kind, n: nat): (p: seq<bv8>)
    ensures (n + |p|) % BLOCK_SIZE == 0
  {
    FillsBlocks(n, ZeroCount(n));
    [0x80] + Zeros(ZeroCount(n)) + LengthField(kind, MessageBits(n))
  }

  /**
   * The padded message: the message, the byte 0x80, zeros, and in the last eight bytes its length in bits
   * modulo 2^64, in the byte order of the standard. It is the shortest such text of whole blocks.
   */
  lemma PaddedMessage(kind: Kind, message: seq<bv8>)
    ensures var n, p := |message|, message + Padding(kind, |message|);
      && |p| % 64 == 0 && n + 9 <= |p| < n + 9 + 64
      && p[..n] == message && p[n] == 0x80
      && (forall i :: n < i < |p| - 8 ==> p[i] == 0)
      && (if kind.Md5? then LittleValue(p[|p| - 8..]) else BigValue(p[|p| - 8..])) == 8 * n % 0x1_0000_0000_0000_0000
  {
    hide Byte, LittleValue, BigValue, ZeroCount, LengthField;
    var n, p := |message|, message + Padding(kind, |message|);
    assert p[|p| - 8..] == LengthField(kind, MessageBits(n));
    LengthFieldIs(kind, MessageBits(n));
  }

  /** The digest bytes of a running hash. */
  function Output(kind: Kind, hash: seq<bv32>): (d: seq<bv8>)
    requires |hash| == WordCount(kind)
    ensures |d| == DigestSize(kind)
  {
    seq(4 * |hash|, i requires 0 <= i < 4 * |hash| =>
      Byte32(hash[i / 4], if kind.Md5? then i % 4 else 3 - i % 4))
  }

  lemma OutputAt(kind: Kind, hash: seq<bv32>, i: nat, j: nat)
    requires |hash| == WordCount(kind) && i < |hash| && j < 4
    ensures Output(kind, hash)[4 * i + j] == Byte32(hash[i], if kind.Md5? then j else 3 - j)
  {
    hide Byte32;
    assert (4 * i + j) / 4 == i && (4 * i + j) % 4 == j;
  }

  /** Each word of the hash is written out as its four digits, in the byte order of the standard. */
  lemma OutputIs(kind: Kind, hash: seq<bv32>, i: nat)
    requires |hash| == WordCount(kind) && i < |hash|
    ensures var word := Output(kind, hash)[4 * i..4 * i + 4];
            Number32(hash[i]) == if kind.Md5? then LittleValue(word) else BigValue(word)
  {
    hide Byte32, LittleValue, BigValue, Number32, Output;
    var w, word := hash[i], Output(kind, hash)[4 * i..4 * i + 4];
    DigitsOf32(w);
    OutputAt(kind, hash, i, 0);
    OutputAt(kind, hash, i, 1);
    OutputAt(kind, hash, i, 2);
    OutputAt(kind, hash, i, 3);
    if kind.Md5? {
      assert word == [Byte32(w, 0), Byte32(w, 1), Byte32(w, 2), Byte32(w, 3)];
    } else {
      assert word == [Byte32(w, 3), Byte32(w, 2), Byte32(w, 1), Byte32(w, 0)];
    }
  }

  /** The standard's hash of a message. */
  function Digest(kind: Kind, message: seq<bv8>): (d: seq<bv8>)
    ensures |d| == DigestSize(kind)
  {
    Output(kind, Fold(kind, message + Padding(kind, |message|)))
  }
}

/** `MDHash<Type>`: the streaming hash object. */
module MessageDigest {
  import opened ByteCopy
  import opened Bytes
  import opened MessageDigestSpec
  import MD5Block = Md5
  import SHA1Block = Sha1
  import SHA256Block = Sha256

  function Min(a: nat, b: nat): nat {
    if a < b then a else b
  }

  class MDHash {
    const kind: Kind
    const m_digest: array<bv32>
    const m_buffer: array<bv8>
    /** Bytes processed, a 64-bit counter. */
    var m_size: nat
    /** Valid bytes in `m_buffer`. */
    var m_bufferSize: nat
    /** Everything processed since the last reset. */
    ghost var message: seq<bv8>

    /** The bytes of the message already folded into the running hash. */
    ghost function Folded(): seq<bv8>
      reads this
      requires m_bufferSize <= |message|
    {
      message[..|message| - m_bufferSize]
    }

    ghost predicate Valid()
      reads this, m_digest, m_buffer
    {
      && m_buffer.Length == BLOCK_SIZE
      && m_digest.Length == WordCount(kind)
      && m_bufferSize <= BLOCK_SIZE
      && m_bufferSize <= |message|
      && |Folded()| % BLOCK_SIZE == 0
      && m_digest[..] == Fold(kind, Folded())
      && message == Folded() + m_buffer[..m_bufferSize]
      && m_size == Counted(|Folded()|)
    }

    constructor (kind: Kind)
      ensures Valid() && this.kind == kind && message == [] && m_bufferSize == 0
      ensures fresh(m_digest) && fresh(m_buffer)
    {
      this.kind := kind;
      m_digest := new bv32[WordCount(kind)];
      m_buffer := new bv8[BLOCK_SIZE];
      new;
      Reset();
    }

    static method InitialDigest(kind: Kind) returns (initial: seq<bv32>)
      ensures initial == Initial(kind) && |initial| == WordCount(kind)
    {
      match kind
      case Md5 => initial := [0x67452301, 0xefcdab89, 0x98badcfe, 0x10325476];
      case Sha1 => initial := [0x67452301, 0xefcdab89, 0x98badcfe, 0x10325476, 0xc3d2e1f0];
      case Sha256 =>
        initial :=
          [0x6a09e667, 0xbb67ae85, 0x3c6ef372, 0xa54ff53a, 0x510e527f, 0x9b05688c, 0x1f83d9ab, 0x5be0cd19];
    }

    method Reset()
      requires m_buffer.Length == BLOCK_SIZE && m_digest.Length == WordCount(kind)
      modifies this, m_digest, m_buffer
      ensures Valid() && message == [] && m_bufferSize == 0
    {
      hide Fold, Compress, Initial;
      FoldEmpty(kind);
      var initial := InitialDigest(kind);
      for i := 0 to m_buffer.Length {
        m_buffer[i] := 0;
      }
      for i := 0 to m_digest.Length
        invariant forall j :: 0 <= j < i ==> m_digest[j] == initial[j]
      {
        m_digest[i] := initial[i];
      }
      m_size, m_bufferSize, message := 0, 0, [];
      assert m_digest[..] == initial;
    }

    method ProcessBlock(input: array<bv8>)
      requires input.Length == BLOCK_SIZE && m_digest.Length == WordCount(kind)
      modifies m_digest
      ensures m_digest[..] == Compress(kind, old(m_digest[..]), input[..])
    {
      match kind
      case Md5 => MD5Block.ProcessBlock(m_digest, input);
      case Sha1 => SHA1Block.ProcessBlock(m_digest, input);
      case Sha256 => SHA256Block.ProcessBlock(m_digest, input);
    }

    /** Folds the full buffer into the hash of `folded`, and empties it. */
    method FoldBuffer(ghost folded: seq<bv8>)
      requires m_buffer.Length == BLOCK_SIZE && m_digest.Length == WordCount(kind)
      requires |folded| % BLOCK_SIZE == 0 && m_size == Counted(|folded|) && m_digest[..] == Fold(kind, folded)
      modifies this, m_digest
      ensures Valid() && m_bufferSize == 0 && message == folded + m_buffer[..]
    {
      hide Compress, Fold, Counted;
      CountBlock(|folded|);
      BlockAligned(|folded|);
      ProcessBlock(m_buffer);
      FoldAppend(kind, folded, m_buffer[..]);
      m_size := (m_size + BLOCK_SIZE) % UINT64;
      m_bufferSize := 0;
      message := folded + m_buffer[..];
      assert Folded() == message;
    }

    /** One turn of the streaming loop: fill the buffer, fold it, empty it. */
    method TakeBlock(input: seq<bv8>, offset: nat) returns (next: nat)
      requires Valid() && offset <= |input| && m_bufferSize + (|input| - offset) >= BLOCK_SIZE
      modifies this, m_digest, m_buffer
      ensures Valid() && m_bufferSize == 0
      ensures next == offset + (BLOCK_SIZE - old(m_bufferSize)) && offset <= next <= |input|
      ensures message == old(message) + input[offset..next]
    {
      hide Compress, Fold;
      var available := Min(BLOCK_SIZE, BLOCK_SIZE - m_bufferSize);
      next := offset + available;
      ghost var folded := Folded();
      CopyInto(input[offset..next], m_buffer, m_bufferSize);
      m_bufferSize := m_bufferSize + available;
      assert m_bufferSize == BLOCK_SIZE;
      assert m_buffer[..] == old(m_buffer[..m_bufferSize]) + input[offset..next];
      FoldBuffer(folded);
    }

    /**
     * Appends `input` to the message. The precondition is the assertion in front of the tail copy:
     * a call must find the buffer empty, fill it, or bring nothing.
     */
    method Process(input: seq<bv8>)
      requires Valid()
      requires MayProcess(m_bufferSize, |input|)
      modifies this, m_digest, m_buffer
      ensures Valid() && message == old(message) + input
      ensures m_bufferSize == |message| % BLOCK_SIZE
    {
      hide Fold, Valid;
      var offset := 0;
      while m_bufferSize + (|input| - offset) >= BLOCK_SIZE
        invariant Valid() && offset <= |input|
        invariant m_bufferSize == old(m_bufferSize) || m_bufferSize == 0
        invariant message == old(message) + input[..offset]
        invariant offset < |input| ==> m_bufferSize == 0 || m_bufferSize + (|input| - offset) >= BLOCK_SIZE
        decreases |input| - offset, m_bufferSize
      {
        offset := TakeBlock(input, offset);
      }
      if offset < |input| {
        KeepTail(input[offset..]);
      }
      FillLevel();
    }

    /** Below one block, the fill level is the message length modulo the block size. */
    lemma FillLevel()
      requires Valid() && m_bufferSize < BLOCK_SIZE
      ensures m_bufferSize == |message| % BLOCK_SIZE
    {
      hide Fold;
      ModSum(|Folded()|, m_bufferSize);
    }

    /** What is left after the whole blocks goes to the start of the buffer. */
    method KeepTail(rest: seq<bv8>)
      requires Valid() && m_bufferSize == 0 && |rest| < BLOCK_SIZE
      modifies this, m_buffer
      ensures Valid() && message == old(message) + rest && m_bufferSize == |rest|
    {
      hide Compress, Fold;
      CopyInto(rest, m_buffer, 0);
      m_bufferSize := m_bufferSize + |rest|;
      message := message + rest;
      assert Folded() == old(message) == old(Folded());
      assert m_buffer[..m_bufferSize] == rest;
    }

    /** The marker byte and the zeros after it, over the buffer and the overflow block. */
    method Mark(extra: array<bv8>)
      requires m_buffer.Length == extra.Length == BLOCK_SIZE && m_buffer != extra && m_bufferSize <= BLOCK_SIZE
      requires extra[..] == Zeros(BLOCK_SIZE)
      modifies m_buffer, extra
      ensures m_buffer[..] + extra[..]
           == old(m_buffer[..m_bufferSize]) + [0x80] + Zeros(2 * BLOCK_SIZE - 1 - m_bufferSize)
    {
      if m_bufferSize < m_buffer.Length {
        m_buffer[m_bufferSize] := 128;
      } else {
        extra[0] := 128;
      }
      ghost var e := extra[..];
      var i := m_bufferSize + 1;
      while i < m_buffer.Length
        invariant extra[..] == e
        invariant forall j :: m_bufferSize < j < i && j < m_buffer.Length ==> m_buffer[j] == 0
        invariant forall j :: 0 <= j < m_bufferSize ==> m_buffer[j] == old(m_buffer[j])
        invariant m_bufferSize < m_buffer.Length ==> m_buffer[m_bufferSize] == 128
      {
        m_buffer[i] := 0;
        i := i + 1;
      }
    }

    /**
     * Lays the padding out over the buffer and an overflow block. The bytes to be folded next are
     * the buffered tail of the message followed by the standard's padding.
     */
    method LayOut() returns (extra: array<bv8>, padding: nat)
      requires Valid()
      modifies m_buffer
      ensures fresh(extra) && extra.Length == BLOCK_SIZE
      ensures var p := old(m_buffer[..m_bufferSize]) + Padding(kind, |message|);
              if padding < BLOCK_SIZE then m_buffer[..] == p
              else padding > BLOCK_SIZE && m_buffer[..] + extra[..] == p
    {
      hide Fold, LengthField, Padding, ZeroCount, Counted, MessageBits;
      padding := PaddedLength(m_bufferSize);
      extra := new bv8[BLOCK_SIZE](_ => 0);
      assert extra[..] == Zeros(BLOCK_SIZE);
      ghost var tail := m_buffer[..m_bufferSize];
      Mark(extra);
      ghost var both := m_buffer[..] + extra[..];
      var msgBits := 8 * (m_size + m_bufferSize) % UINT64;
      assert msgBits == MessageBits(|message|) by { BitCount(|Folded()|, m_bufferSize); }
      PaddingFits(kind, tail, |message|, both, padding) by { ModSum(|Folded()|, m_bufferSize); }
      if padding < m_buffer.Length {
        StoreLength(kind, m_buffer, padding, msgBits);
        assert m_buffer[..] == both[..padding] + LengthField(kind, msgBits);
      } else {
        StoreLength(kind, extra, padding - m_buffer.Length, msgBits);
        assert m_buffer[..] + extra[..] == both[..padding] + LengthField(kind, msgBits);
      }
    }

    /** Folds the padded tail into the running hash. */
    method ProcessBuffer()
      requires Valid()
      modifies m_digest, m_buffer
      ensures m_digest[..] == Fold(kind, message + Padding(kind, |message|))
      ensures m_buffer[..m_bufferSize] == old(m_buffer[..m_bufferSize])
    {
      hide Fold, Padding, Compress, Counted;
      ghost var folded := Folded();
      ghost var p := m_buffer[..m_bufferSize] + Padding(kind, |message|);
      assert message + Padding(kind, |message|) == folded + p;
      var extra, padding := LayOut();
      assert m_buffer[..m_bufferSize] == (folded + p)[|folded|..|folded| + m_bufferSize];
      FoldAppend(kind, folded, m_buffer[..]);
      ProcessBlock(m_buffer);
      if padding > m_buffer.Length {
        assert folded + p == folded + m_buffer[..] + extra[..];
        BlockAligned(|folded|);
        FoldAppend(kind, folded + m_buffer[..], extra[..]);
        ProcessBlock(extra);
      }
    }

    /** Writes the running hash out and puts the saved one back. */
    method Emit(saved: seq<bv32>) returns (output: array<bv8>)
      requires |saved| == m_digest.Length == WordCount(kind)
      modifies m_digest
      ensures fresh(output) && output[..] == Output(kind, old(m_digest[..]))
      ensures m_digest[..] == saved
    {
      hide Byte32;
      ghost var h := m_digest[..];
      output := new bv8[DigestSize(kind)];
      for i := 0 to m_digest.Length
        invariant forall j :: 0 <= j < 4 * i ==> output[j] == Output(kind, h)[j]
        invariant forall j :: 0 <= j < i ==> m_digest[j] == saved[j]
        invariant forall j :: i <= j < m_digest.Length ==> m_digest[j] == h[j]
      {
        for b := 0 to 4
          invariant forall j :: 0 <= j < 4 * i + b ==> output[j] == Output(kind, h)[j]
          invariant forall j :: 0 <= j < i ==> m_digest[j] == saved[j]
          invariant forall j :: i <= j < m_digest.Length ==> m_digest[j] == h[j]
        {
          output[4 * i + b] := Byte32(m_digest[i], if kind.Md5? then b else 3 - b);
        }
        m_digest[i] := saved[i];
      }
    }

    /**
     * The digest of everything processed so far, cut to the span it is written to. Nothing about the
     * object changes that a caller could see, so processing can go on and a second call agrees.
     */
    method Finish(output: array<bv8>, count: nat)
      requires Valid() && count <= output.Length && output != m_buffer
      modifies m_digest, m_buffer, output
      ensures Valid()
      ensures output[..Min(count, DigestSize(kind))] == Digest(kind, message)[..Min(count, DigestSize(kind))]
      ensures output[Min(count, DigestSize(kind))..] == old(output[Min(count, DigestSize(kind))..])
    {
      hide Fold, Padding, Output;
      var saved := m_digest[..];
      ProcessBuffer();
      var bytes := Emit(saved);
      var n := Min(count, DigestSize(kind));
      CopyInto(bytes[..n], output, 0);
    }
  }

  /** The bit count taken from the 64-bit byte counter is the message's. */
  lemma BitCount(folded: nat, buffered: nat)
    ensures 8 * (Counted(folded) + buffered) % UINT64 == MessageBits(folded + buffered)
  {
    assert 8 * (folded + buffered) == 8 * (folded % UINT64 + buffered) + UINT64 * (8 * (folded / UINT64));
  }

  /** The marked tail, with the length field at `padding`, is the standard's padded tail. */
  lemma PaddingFits(kind: Kind, tail: seq<bv8>, n: nat, both: seq<bv8>, padding: nat)
    requires |tail| <= BLOCK_SIZE && n % BLOCK_SIZE == |tail| % BLOCK_SIZE
    requires both == tail + [0x80] + Zeros(2 * BLOCK_SIZE - 1 - |tail|)
    requires padding == |tail| + 1 + ZeroCount(|tail|) && padding <= 120
    ensures both[..padding] + LengthField(kind, MessageBits(n)) == tail + Padding(kind, n)
  {
    hide LengthField;
    assert ZeroCount(|tail|) == ZeroCount(n);
    assert both[..padding] == tail + [0x80] + Zeros(ZeroCount(n));
  }

  lemma ModSum(a: nat, b: nat)
    requires a % BLOCK_SIZE == 0
    ensures (a + b) % BLOCK_SIZE == b % BLOCK_SIZE
  {
  }

  /** Where the length field goes, worked out in bits as the source does. */
  method PaddedLength(n: nat) returns (padding: nat)
    requires n <= BLOCK_SIZE
    ensures padding == n + 1 + ZeroCount(n)
    ensures padding == if n < 56 then 56 else 120
  {
    padding := n * 8 + 1;
    var low := padding % 512;
    if low <= 448 {
      padding := padding + 448 - low;
    } else {
      padding := padding + 512 + 448 - low;
    }
    assert padding == if n < 56 then 448 else 960;
    padding := padding / 8;
  }

  /** The eight stores of the length field. */
  method StoreLength(kind: Kind, target: array<bv8>, at: nat, bits: nat)
    requires at + 8 <= target.Length
    modifies target
    ensures target[..] == old(target[..at]) + LengthField(kind, bits) + old(target[at + 8..])
  {
    hide Byte;
    for i := 0 to 8
      invariant forall j :: 0 <= j < i ==> target[at + j] == LengthField(kind, bits)[j]
      invariant forall j :: 0 <= j < target.Length && !(at <= j < at + i) ==> target[j] == old(target[j])
    {
      target[at + i] := Byte(bits, if kind.Md5? then i else 7 - i);
    }
  }

  /** A call that brings `n` bytes to a buffer holding `fill` meets the assertion in `Process`. */
  predicate MayProcess(fill: nat, n: nat) {
    fill == 0 || fill + n >= BLOCK_SIZE || n == 0
  }

  function Concat(chunks: seq<seq<bv8>>): seq<bv8> {
    if chunks == [] then [] else Concat(chunks[..|chunks| - 1]) + chunks[|chunks| - 1]
  }

  /** Every run of `Process` calls that the assertion admits hashes the concatenation of its inputs. */
  method HashChunks(kind: Kind, chunks: seq<seq<bv8>>) returns (digest: array<bv8>)
    requires forall i :: 0 <= i < |chunks| ==> MayProcess(|Concat(chunks[..i])| % BLOCK_SIZE, |chunks[i]|)
    ensures digest[..] == Digest(kind, Concat(chunks))
  {
    hide Digest, MDHash.Valid, Concat, Initial, Compress, Fold;
    var h := new MDHash(kind);
    ConcatSteps(chunks);
    for i := 0 to |chunks|
      invariant fresh(h) && fresh(h.m_digest) && fresh(h.m_buffer)
      invariant h.Valid() && h.kind == kind && h.message == Concat(chunks[..i])
      invariant h.m_bufferSize == |h.message| % BLOCK_SIZE
    {
      h.Process(chunks[i]);
    }
    digest := new bv8[DigestSize(kind)];
    h.Finish(digest, digest.Length);
    assert chunks[..|chunks|] == chunks;
    assert digest[..] == digest[..digest.Length];
  }

  lemma ConcatSteps(chunks: seq<seq<bv8>>)
    ensures Concat(chunks[..0]) == []
    ensures forall i :: 0 <= i < |chunks| ==> Concat(chunks[..i + 1]) == Concat(chunks[..i]) + chunks[i]
  {
    forall i | 0 <= i < |chunks|
      ensures Concat(chunks[..i + 1]) == Concat(chunks[..i]) + chunks[i]
    {
      assert chunks[..i + 1][..i] == chunks[..i];
    }
  }

  lemma MayProcessFromEmpty(n: nat)
    ensures MayProcess(0, n)
  {
  }

  /** The tail copy with the assertion compiled out: it always writes to the start of the buffer. */
  function TailCopy(buffer: seq<bv8>, input: seq<bv8>): seq<bv8>
    requires |input| <= |buffer|
  {
    input + buffer[|input|..]
  }

  ghost predicate TailCopyAppends(fill: nat, n: nat)
    requires fill + n < BLOCK_SIZE
  {
    forall buffer: seq<bv8>, input: seq<bv8> | |buffer| == BLOCK_SIZE && |input| == n ::
      TailCopy(buffer, input)[..fill + n] == buffer[..fill] + input
  }

  /** The copy appends, whatever the bytes, exactly when the assertion holds. */
  lemma TailCopyAppendsIffMayProcess(fill: nat, n: nat)
    requires fill + n < BLOCK_SIZE
    ensures TailCopyAppends(fill, n) <==> MayProcess(fill, n)
  {
    if MayProcess(fill, n) {
      forall buffer: seq<bv8>, input: seq<bv8> | |buffer| == BLOCK_SIZE && |input| == n
        ensures TailCopy(buffer, input)[..fill + n] == buffer[..fill] + input
      {
      }
    } else {
      var buffer := Zeros(BLOCK_SIZE);
      var input: seq<bv8> := seq(n, i => 1);
      assert TailCopy(buffer, input)[..fill + n][0] == 1;
      assert (buffer[..fill] + input)[0] == 0;
    }
  }
}
