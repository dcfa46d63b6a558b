/** Copying bytes into a buffer. */
module ByteCopy {

  /** `memcpy` of a byte range into a buffer. */
  method CopyInto(source: seq<bv8>, target: array<bv8>, at: nat)
    requires at + |source| <= target.Length
    modifies target
    ensures target[..] == old(target[..at]) + source + old(target[at + |source|..])
  {
    for i := 0 to |source|
      invariant forall j :: 0 <= j < i ==> target[at + j] == source[j]
      invariant forall j :: 0 <= j < target.Length && !(at <= j < at + i) ==> target[j] == old(target[j])
    {
      target[at + i] := source[i];
    }
  }
}
