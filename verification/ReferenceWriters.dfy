/** The writers of the binary form of a reference (ledger-core/reference/marshal_local.go, marshal_holder.go).
    A Go slice is an array with the bounds lo and hi of the slice. */
module ReferenceWriters {
  import opened Bytes
  import opened PulseNumber
  import opened Reference

  /** SlicePanic is a slice expression out of range. */
  datatype Written = Wrote(count: nat) | ShortBuffer | SlicePanic

  ghost predicate UnchangedOutside(before: seq<Byte>, after: seq<Byte>, lo: nat, hi: nat) {
    |before| == |after| && forall i :: 0 <= i < |after| && !(lo <= i < hi) ==> after[i] == before[i]
  }

  function Min(a: nat, b: nat): nat { if a <= b then a else b }

  /** The header and the first k bytes of the hash. */
  method WriteHeaderAndHash(l: Local, k: nat, a: array<Byte>, at: nat)
    requires k <= HASH_SIZE && at + HEADER_SIZE + k <= a.Length
    modifies a
    ensures Patched(old(a[..]), a[..], at, HeaderBytes(l.header) + l.hash[..k])
  {
    CopyTo(a, at, HeaderBytes(l.header));
    ghost var a1 := a[..];
    CopyTo(a, at + HEADER_SIZE, l.hash[..k]);
    PatchedAfter(old(a[..]), a1, a[..], at, HeaderBytes(l.header), l.hash[..k]);
  }

  /** As much of a whole local as fits, but nothing if the header does not. */
  method WriteWholeLocalTo(l: Local, a: array<Byte>, lo: nat, hi: nat) returns (n: nat)
    requires lo <= hi <= a.Length
    modifies a
    ensures n == if hi - lo < HEADER_SIZE then 0 else Min(hi - lo, LOCAL_SIZE)
    ensures Patched(old(a[..]), a[..], lo, WholeBytes(l)[..n])
    ensures n == LOCAL_SIZE ==> WholeBytes(l)[..n] == WholeBytes(l)
  {
    if hi - lo < HEADER_SIZE {
      return 0;
    }
    var k := Min(hi - lo - HEADER_SIZE, HASH_SIZE);
    WriteHeaderAndHash(l, k, a, lo);
    n := HEADER_SIZE + k;
    assert WholeBytes(l)[..n] == HeaderBytes(l.header) + l.hash[..k];
  }

  /** Forward: succeeds exactly when there is room; the bytes outside the slice never change. */
  method MarshalLocalTo(l: Local, a: array<Byte>, lo: nat, hi: nat) returns (r: Written)
    requires lo <= hi <= a.Length
    modifies a
    ensures r == if |LocalBytes(l)| <= hi - lo then Wrote(|LocalBytes(l)|) else ShortBuffer
    ensures if r.Wrote? then Patched(old(a[..]), a[..], lo, LocalBytes(l))
            else UnchangedOutside(old(a[..]), a[..], lo, hi)
  {
    FilledTrimmed(l.hash);
    if l.IsEmpty() || l.Pulse() == UNKNOWN {
      return Wrote(0);
    } else if IsWhole(l.Pulse()) {
      if hi - lo >= LOCAL_SIZE {
        var n := WriteWholeLocalTo(l, a, lo, hi);
        return Wrote(n);
      }
    } else if hi - lo >= HEADER_SIZE {
      var i := HashLenLoop(l.hash);
      var k := Min(hi - lo - HEADER_SIZE, i);
      WriteHeaderAndHash(l, k, a, lo);
      if k == i {
        return Wrote(HEADER_SIZE + i);
      }
    }
    r := ShortBuffer;
  }

  /** Backward: the same bytes at the end of the slice, and nothing written when there is no room. */
  method MarshalLocalToSizedBuffer(l: Local, a: array<Byte>, lo: nat, hi: nat) returns (r: Written)
    requires lo <= hi <= a.Length
    modifies a
    ensures r == if |LocalBytes(l)| <= hi - lo then Wrote(|LocalBytes(l)|) else ShortBuffer
    ensures if r.Wrote? then Patched(old(a[..]), a[..], hi - |LocalBytes(l)|, LocalBytes(l)) else a[..] == old(a[..])
  {
    if l.IsEmpty() || l.Pulse() == UNKNOWN {
      return Wrote(0);
    } else if IsWhole(l.Pulse()) {
      if hi - lo < LOCAL_SIZE {
        return ShortBuffer;
      }
      var n := WriteWholeLocalTo(l, a, hi - LOCAL_SIZE, hi);
      return Wrote(n);
    }
    r := MarshalTrimmedToSizedBuffer(l, a, lo, hi);
  }

  method MarshalTrimmedToSizedBuffer(l: Local, a: array<Byte>, lo: nat, hi: nat) returns (r: Written)
    requires lo <= hi <= a.Length && l.Pulse() != UNKNOWN && !IsWhole(l.Pulse())
    modifies a
    ensures r == if |LocalBytes(l)| <= hi - lo then Wrote(|LocalBytes(l)|) else ShortBuffer
    ensures if r.Wrote? then Patched(old(a[..]), a[..], hi - |LocalBytes(l)|, LocalBytes(l)) else a[..] == old(a[..])
  {
    if hi - lo < HEADER_SIZE {
      return ShortBuffer;
    }
    var k := HashLenLoop(l.hash);
    var i := k + HEADER_SIZE;
    if hi - lo < i {
      return ShortBuffer;
    }
    WriteHeaderAndHash(l, k, a, hi - i);
    r := Wrote(i);
  }

  /** _marshal */
  method MarshalTwoParts(local: Local, base: Local, a: array<Byte>, lo: nat, hi: nat) returns (r: Written)
    requires lo <= hi <= a.Length
    modifies a
    ensures r == if |TwoPartBytes(local, base)| <= hi - lo then Wrote(|TwoPartBytes(local, base)|) else ShortBuffer
    ensures if r.Wrote? then Patched(old(a[..]), a[..], lo, TwoPartBytes(local, base))
            else UnchangedOutside(old(a[..]), a[..], lo, hi)
  {
    var n := WriteWholeLocalTo(local, a, lo, hi);
    ghost var a1 := a[..];
    if n != LOCAL_SIZE {
      return ShortBuffer;
    }
    if base.IsEmpty() {
      if hi - lo < LOCAL_SIZE + HEADER_SIZE {
        return ShortBuffer;
      }
      CopyTo(a, lo + n, [0, 0, 0, 0]);
      PatchedAfter(old(a[..]), a1, a[..], lo, WholeBytes(local), [0, 0, 0, 0]);
      return Wrote(LOCAL_SIZE + HEADER_SIZE);
    }
    var r2 := MarshalLocalTo(base, a, lo + n, hi);
    if r2.Wrote? {
      PatchedAfter(old(a[..]), a1, a[..], lo, WholeBytes(local), LocalBytes(base));
      return Wrote(n + r2.count);
    }
    r := ShortBuffer;
  }

  /** The forward writer: the reference's bytes at the start of the slice, exactly when there is room. */
  method MarshalTo(g: Global, a: array<Byte>, lo: nat, hi: nat) returns (r: Written)
    requires lo <= hi <= a.Length
    modifies a
    ensures r == if |GlobalBytes(g)| <= hi - lo then Wrote(|GlobalBytes(g)|) else ShortBuffer
    ensures if r.Wrote? then Patched(old(a[..]), a[..], lo, GlobalBytes(g))
            else UnchangedOutside(old(a[..]), a[..], lo, hi)
  {
    if g.base.IsEmpty() {
      if g.local.IsEmpty() {
        return Wrote(0);
      }
    } else if g.base == g.local {
      r := MarshalLocalTo(g.local, a, lo, hi);
      return;
    }
    r := MarshalTwoParts(g.local, g.base, a, lo, hi);
  }

  method MarshalLocal(l: Local) returns (bytes: seq<Byte>)
    ensures bytes == LocalBytes(l)
  {
    FilledTrimmed(l.hash);
    if l.IsEmpty() {
      return [];
    }
    var a := new Byte[LOCAL_SIZE](_ => 0);
    var r := MarshalLocalTo(l, a, 0, a.Length);
    bytes := a[..r.count];
  }

  /** The allocating writer; its buffers are always large enough. */
  method Marshal(g: Global) returns (bytes: seq<Byte>)
    ensures bytes == GlobalBytes(g)
  {
    BinarySizeExact(g);
    if g.base.IsEmpty() {
      if g.local.IsEmpty() {
        return [];
      }
      var a := new Byte[LOCAL_SIZE + HEADER_SIZE](_ => 0);
      var n := WriteWholeLocalTo(g.local, a, 0, a.Length);
      assert WholeBytes(g.local)[..n] == WholeBytes(g.local) == a[..n];
      return a[..];
    } else if g.base == g.local {
      bytes := MarshalLocal(g.local);
      return;
    }
    var a := new Byte[2 * LOCAL_SIZE](_ => 0);
    var r := MarshalTwoParts(g.local, g.base, a, 0, a.Length);
    bytes := a[..r.count];
  }

  /** The backward writer: the same bytes at the end of the slice, exactly when there is room. A record
      reference without room panics; any other gives the error. */
  method MarshalToSizedBuffer(g: Global, a: array<Byte>, lo: nat, hi: nat) returns (r: Written)
    requires lo <= hi <= a.Length
    modifies a
    ensures r == if |GlobalBytes(g)| <= hi - lo then Wrote(|GlobalBytes(g)|)
                 else if g.base.IsEmpty() then SlicePanic else ShortBuffer
    ensures if r.Wrote? then Patched(old(a[..]), a[..], hi - |GlobalBytes(g)|, GlobalBytes(g))
            else UnchangedOutside(old(a[..]), a[..], lo, hi)
  {
    if g.base.IsEmpty() {
      if g.local.IsEmpty() {
        return Wrote(0);
      }
      var n := LOCAL_SIZE + HEADER_SIZE;
      if hi - lo < n {
        return SlicePanic;
      }
      r := MarshalTwoParts(g.local, g.base, a, hi - n, hi);
      return;
    } else if g.local == g.base {
      r := MarshalLocalToSizedBuffer(g.local, a, lo, hi);
      return;
    }
    r := MarshalTwoPartsToSizedBuffer(g.local, g.base, a, lo, hi);
  }

  /** The base at the end, and then the local before it. */
  method MarshalTwoPartsToSizedBuffer(local: Local, base: Local, a: array<Byte>, lo: nat, hi: nat) returns (r: Written)
    requires lo <= hi <= a.Length && !base.IsEmpty()
    modifies a
    ensures var bs := TwoPartBytes(local, base);
            && r == (if |bs| <= hi - lo then Wrote(|bs|) else ShortBuffer)
            && (if r.Wrote? then Patched(old(a[..]), a[..], hi - |bs|, bs)
                  else UnchangedOutside(old(a[..]), a[..], lo, hi))
  {
    r := MarshalLocalToSizedBuffer(base, a, lo, hi);
    if !r.Wrote? {
      return;
    }
    ghost var a1 := a[..];
    var n := r.count + LOCAL_SIZE;
    if hi - lo < n {
      return ShortBuffer;
    }
    var k := WriteWholeLocalTo(local, a, hi - n, hi);
    PatchedBefore(old(a[..]), a1, a[..], hi - n, WholeBytes(local), LocalBytes(base));
    r := Wrote(n);
  }
}
