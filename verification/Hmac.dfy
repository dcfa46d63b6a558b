/** HMAC, section 2 of RFC 2104, with a block length of 64 bytes. */
module HmacSpec {
  import opened MessageDigestSpec

  function Xored(bytes: seq<bv8>, mask: bv8): (r: seq<bv8>)
    ensures |r| == |bytes|
  {
    seq(|bytes|, i requires 0 <= i < |bytes| => bytes[i] ^ mask)
  }

  /** The key brought to block length: hashed first when it is longer than a block. */
  function BlockKey(kind: Kind, key: seq<bv8>): (k: seq<bv8>)
    ensures |k| == BLOCK_SIZE
  {
    var short := if |key| <= BLOCK_SIZE then key else Digest(kind, key);
    short + Zeros(BLOCK_SIZE - |short|)
  }

  /** The key XORed with the repeated bytes `ipad` and `opad`. */
  function InnerPad(k: seq<bv8>): seq<bv8> {
    Xored(k, 0x36)
  }

  function OuterPad(k: seq<bv8>): seq<bv8> {
    Xored(k, 0x5c)
  }

  function Hmac(kind: Kind, key: seq<bv8>, text: seq<bv8>): seq<bv8> {
    var k := BlockKey(kind, key);
    Digest(kind, OuterPad(k) + Digest(kind, InnerPad(k) + text))
  }

  /** The two blocks, byte by byte: the key with 0x36 in the inner digest and with 0x5c in the outer one. */
  lemma HmacIs(kind: Kind, key: seq<bv8>, text: seq<bv8>, inner: seq<bv8>, outer: seq<bv8>)
    requires |inner| == |outer| == 64
    requires forall i :: 0 <= i < 64 ==>
      var k := if |key| > 64 then if i < DigestSize(kind) then Digest(kind, key)[i] else 0
               else if i < |key| then key[i] else 0;
      inner[i] == k ^ 0x36 && outer[i] == k ^ 0x5c
    ensures Hmac(kind, key, text) == Digest(kind, outer + Digest(kind, inner + text))
  {
    hide Digest;
    var k := BlockKey(kind, key);
    assert inner == InnerPad(k);
    assert outer == OuterPad(k);
  }
}

/** `Internal::HMAC<Method>`: one buffer, flipped in place from the inner to the outer pad. */
module Hmac {
  import opened ByteCopy
  import opened MessageDigestSpec
  import opened MessageDigest
  import opened HmacSpec

  method XorInPlace(bytes: array<bv8>, mask: bv8)
    modifies bytes
    ensures bytes[..] == Xored(old(bytes[..]), mask)
  {
    for i := 0 to bytes.Length
      invariant forall j :: 0 <= j < i ==> bytes[j] == old(bytes[j]) ^ mask
      invariant forall j :: i <= j < bytes.Length ==> bytes[j] == old(bytes[j])
    {
      bytes[i] := bytes[i] ^ mask;
    }
  }

  /** The in-place flip turns the inner pad into the outer one. */
  lemma FlipsPad(k: seq<bv8>)
    ensures Xored(InnerPad(k), 0x5c ^ 0x36) == OuterPad(k)
  {
  }

  /** The key, or its digest, at the start of a zeroed block. */
  method LoadKey(kind: Kind, key: seq<bv8>) returns (block: array<bv8>)
    ensures fresh(block) && block[..] == BlockKey(kind, key)
  {
    hide Digest, MDHash.Valid;
    block := new bv8[BLOCK_SIZE](_ => 0);
    if |key| <= block.Length {
      CopyInto(key, block, 0);
    } else {
      var m := new MDHash(kind);
      m.Process(key);
      assert m.message == key;
      assert block[DigestSize(kind)..] == Zeros(BLOCK_SIZE - DigestSize(kind));
      m.Finish(block, DigestSize(kind));
      assert block[..] == block[..DigestSize(kind)] + block[DigestSize(kind)..];
    }
  }

  /** The digest of a block followed by `text`, as each half of HMAC computes it. */
  method HashBlockAndText(kind: Kind, block: array<bv8>, text: seq<bv8>, output: array<bv8>)
    requires block.Length == BLOCK_SIZE && output.Length >= DigestSize(kind) && output != block
    modifies output
    ensures output[..DigestSize(kind)] == Digest(kind, block[..] + text)
  {
    hide Digest, MDHash.Valid;
    var m := new MDHash(kind);
    MayProcessFromEmpty(|block[..]|);
    m.Process(block[..]);
    MayProcessFromEmpty(|text|);
    m.Process(text);
    assert m.message == block[..] + text;
    m.Finish(output, output.Length);
  }

  /** Every key length, key and message. */
  method HMAC(kind: Kind, key: seq<bv8>, data: seq<bv8>, output: array<bv8>)
    requires output.Length >= DigestSize(kind)
    modifies output
    ensures output[..DigestSize(kind)] == HmacSpec.Hmac(kind, key, data)
  {
    hide Digest, Xored, BlockKey;
    var hmac := LoadKey(kind, key);
    ghost var k := hmac[..];
    XorInPlace(hmac, 0x36);
    var digest := new bv8[DigestSize(kind)];
    HashBlockAndText(kind, hmac, data, digest);
    assert digest[..DigestSize(kind)] == digest[..];
    XorInPlace(hmac, 0x5c ^ 0x36);
    FlipsPad(k);
    HashBlockAndText(kind, hmac, digest[..], output);
  }
}
