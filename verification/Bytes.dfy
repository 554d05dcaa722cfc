/** Bytes, and writing a run of them into a buffer. */
module Bytes {
  type Byte = b: int | 0 <= b < 256

  /** after is before with bs written at position at. */
  ghost predicate Patched(before: seq<Byte>, after: seq<Byte>, at: nat, bs: seq<Byte>) {
    at + |bs| <= |before| == |after|
    && (forall i :: at <= i < at + |bs| ==> after[i] == bs[i - at])
    && (forall i :: 0 <= i < at || at + |bs| <= i < |after| ==> after[i] == before[i])
  }

  /** Go's copy of a whole slice. */
  method CopyTo(a: array<Byte>, at: nat, bs: seq<Byte>)
    requires at + |bs| <= a.Length
    modifies a
    ensures Patched(old(a[..]), a[..], at, bs)
  {
    for i := 0 to |bs|
      invariant Patched(old(a[..]), a[..], at, bs[..i])
    {
      a[at + i] := bs[i];
    }
    assert bs[..|bs|] == bs;
  }

  /** Two neighbouring runs, whichever is written first, are one run. */
  lemma {:induction false} PatchedAfter(s0: seq<Byte>, s1: seq<Byte>, s2: seq<Byte>, at: nat, bs: seq<Byte>,
                                        cs: seq<Byte>)
    requires Patched(s0, s1, at, bs) && Patched(s1, s2, at + |bs|, cs)
    ensures Patched(s0, s2, at, bs + cs)
  {
  }

  lemma {:induction false} PatchedBefore(s0: seq<Byte>, s1: seq<Byte>, s2: seq<Byte>, at: nat, bs: seq<Byte>,
                                         cs: seq<Byte>)
    requires Patched(s0, s1, at + |bs|, cs) && Patched(s1, s2, at, bs)
    ensures Patched(s0, s2, at, bs + cs)
  {
  }
}
