/** The layout of the binary form of references, and exactly which bytes are accepted as one. */
module ReferenceLaws {
  import opened Bytes
  import opened PulseNumber
  import opened Reference

  // ------------------------------------------------------------ layout

  /** A header is its scope and its pulse number, written most significant byte first. */
  lemma {:induction false} HeaderIs(l: Local)
    ensures l.header == l.SubScope() * 0x4000_0000 + l.Pulse() && l.SubScope() < 4 && l.Pulse() <= MAX_TIME_PULSE
    ensures var bs := HeaderBytes(l.header);
            var a: int, b: int, c: int, d: int := bs[0], bs[1], bs[2], bs[3];
            l.header == 0x100_0000 * a + 0x1_0000 * b + 0x100 * c + d
  {
    HeaderRoundTrip(l.header);
  }

  /** A local without a pulse takes no bytes; one with a time pulse or the local-relative one is written whole;
      any other without the zeros at the end of its hash. */
  lemma {:induction false} LocalBytesAre(l: Local, n: nat)
    requires IsHashLen(l.hash, n)
    ensures LocalBytes(l) ==
            if l.Pulse() == 0 then []
            else if l.Pulse() >= 65536 then HeaderBytes(l.header) + l.hash
            else HeaderBytes(l.header) + l.hash[..n]
  {
    HashLenUnique(l.hash, n);
    FilledTrimmed(l.hash);
  }

  /** An empty reference takes no bytes; a self reference is written as one local; a record as its local in full and
      four zeros; any other as its local in full and its base. */
  lemma {:induction false} GlobalBytesAre(g: Global)
    ensures GlobalBytes(g) ==
            if g.local.header == 0 && g.base.header == 0 then []
            else if g.base.header == 0 then HeaderBytes(g.local.header) + g.local.hash + [0, 0, 0, 0]
            else if g.base == g.local then LocalBytes(g.local)
            else HeaderBytes(g.local.header) + g.local.hash + LocalBytes(g.base)
  {
  }

  // ------------------------------------------------------------ which bytes are a local

  /** Nothing, four bytes without a pulse, or the bytes of a local with one. */
  ghost predicate IsLocalForm(d: seq<Byte>) {
    || d == []
    || (|d| == 4 && OfUint32(HeaderOf(d)) == 0)
    || exists l: Local :: l.Pulse() != 0 && LocalBytes(l) == d
  }

  /** The local that they are read as. */
  ghost predicate ReadsAs(d: seq<Byte>, l: Local) {
    || (d == [] && l == EMPTY_LOCAL)
    || (|d| == 4 && OfUint32(HeaderOf(d)) == 0 && l == Local(HeaderOf(d), ZERO_HASH))
    || (l.Pulse() != 0 && LocalBytes(l) == d)
  }

  /** UnmarshalLocal accepts exactly these, and reads them so. */
  lemma {:induction false} LocalReadExactly(d: seq<Byte>, l: Local)
    ensures UnmarshalLocal(d) == Some(l) <==> ReadsAs(d, l)
    ensures UnmarshalLocal(d).Some? <==> IsLocalForm(d)
  {
    LocalRoundTrip(l);
    if UnmarshalLocal(d).Some? {
      AcceptedReadsAs(d, UnmarshalLocal(d).value);
    }
    if IsLocalForm(d) {
      FormIsAccepted(d);
    }
  }

  lemma {:induction false} AcceptedReadsAs(d: seq<Byte>, l: Local)
    requires UnmarshalLocal(d) == Some(l)
    ensures ReadsAs(d, l)
  {
    if l.Pulse() != UNKNOWN {
      AcceptedIsCanonical(d);
    }
  }

  lemma {:induction false} FormIsAccepted(d: seq<Byte>)
    requires IsLocalForm(d)
    ensures UnmarshalLocal(d).Some?
  {
    if d != [] && !(|d| == 4 && OfUint32(HeaderOf(d)) == 0) {
      var l: Local :| l.Pulse() != 0 && LocalBytes(l) == d;
      LocalRoundTrip(l);
    }
  }

  // ------------------------------------------------------------ which bytes are a reference

  /** UnmarshalGlobal accepts exactly nothing, the form of a local for a self reference, or a whole local followed by
      the form of its base, and reads them so. */
  lemma {:induction false} GlobalReadExactly(d: seq<Byte>, g: Global)
    ensures UnmarshalGlobal(d) == Some(g) <==>
            || (d == [] && g == Global(EMPTY_LOCAL, EMPTY_LOCAL))
            || (d != [] && ReadsAs(d, g.local) && g.base == g.local)
            || (|d| > 32 && d[..32] == WholeBytes(g.local) && ReadsAs(d[32..], g.base))
  {
    if |d| <= 32 {
      LocalReadExactly(d, g.local);
    } else {
      NoLocalIsLonger(d, g.local);
      LocalReadExactly(d[32..], g.base);
      WholeExactly(d, g.local);
    }
  }

  lemma {:induction false} NoLocalIsLonger(d: seq<Byte>, l: Local)
    requires |d| > 32
    ensures !ReadsAs(d, l)
  {
    LocalReadExactly(d, l);
  }

  lemma {:induction false} WholeExactly(d: seq<Byte>, l: Local)
    requires |d| >= 32
    ensures d[..32] == WholeBytes(l) <==> Local(HeaderOf(d), d[4..32]) == l
  {
    BytesOfHeader(d);
    HeaderRoundTrip(l.header);
    assert d[..32] == d[..4] + d[4..32];
    if d[..32] == WholeBytes(l) {
      assert d[..4] == WholeBytes(l)[..4] == HeaderBytes(l.header) && d[4..32] == WholeBytes(l)[4..] == l.hash;
      HeaderOfPrefix(d, HeaderBytes(l.header));
    }
  }

  lemma {:induction false} HeaderOfPrefix(d: seq<Byte>, bs: seq<Byte>)
    requires |d| >= 4 && d[..4] == bs
    ensures HeaderOf(d) == HeaderOf(bs)
  {
  }
}
