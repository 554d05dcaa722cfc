/** References and their compact binary form (ledger-core/reference: local.go, local_header.go, global.go,
    marshal_local.go, marshal_holder.go). A nil holder is not modelled. */
module Reference {
  import opened Bytes
  import opened PulseNumber

  const HASH_SIZE: nat := 28
  const HEADER_SIZE: nat := 4
  const LOCAL_SIZE: nat := 32
  const GLOBAL_SIZE: nat := 64

  function Zeros(n: nat): (z: seq<Byte>)
    ensures |z| == n && forall i :: 0 <= i < n ==> z[i] == 0
  {
    seq(n, _ => 0)
  }

  const ZERO_HASH := Zeros(28)

  type Hash = h: seq<Byte> | |h| == 28 witness Zeros(28)

  /** The header packs a 30-bit pulse number and a 2-bit scope. */
  datatype Local = Local(header: Number, hash: Hash) {
    function Pulse(): Number { OfUint32(header) }

    function SubScope(): nat { header / 0x4000_0000 }

    predicate IsEmpty() { header == 0 }
  }

  const EMPTY_LOCAL := Local(0, ZERO_HASH)

  datatype Global = Global(local: Local, base: Local)

  /** The zero value, or a local with a pulse. */
  predicate WellFormed(l: Local) { l == EMPTY_LOCAL || l.Pulse() != UNKNOWN }

  // ------------------------------------------------------------ pieces

  /** binary.BigEndian.PutUint32 */
  function HeaderBytes(v: Number): (bs: seq<Byte>)
    ensures |bs| == 4
  {
    [v / 0x100_0000, v / 0x1_0000 % 256, v / 0x100 % 256, v % 256]
  }

  function HeaderOf(bs: seq<Byte>): Number
    requires |bs| >= 4
  {
    Word(bs[0], bs[1], bs[2], bs[3])
  }

  function Word(a: int, b: int, c: int, d: int): (v: int)
    ensures 0 <= a < 256 && 0 <= b < 256 && 0 <= c < 256 && 0 <= d < 256 ==> 0 <= v < 0x1_0000_0000
  {
    256 * (256 * (256 * a + b) + c) + d
  }

  lemma {:induction false} HeaderRoundTrip(v: Number)
    ensures HeaderOf(HeaderBytes(v)) == v
  {
    var x, y: int := v / 256, v / 0x1_0000;
    assert y == x / 256 && v / 0x100_0000 == y / 256;
    assert v == 256 * x + v % 256 && x == 256 * y + x % 256 && y == 256 * (y / 256) + y % 256;
  }

  lemma {:induction false} BytesOfHeader(bs: seq<Byte>)
    requires |bs| >= 4
    ensures HeaderBytes(HeaderOf(bs)) == bs[..4]
  {
    var a: int, b: int, c: int, d: int := bs[0], bs[1], bs[2], bs[3];
    var x := 256 * a + b;
    var y := 256 * x + c;
    var v := 256 * y + d;
    LowByte(y, d);
    LowByte(x, c);
    LowByte(a, b);
    assert v / 0x1_0000 == v / 256 / 256 && v / 0x100_0000 == v / 256 / 256 / 256;
  }

  lemma {:induction false} LowByte(high: int, low: int)
    requires 0 <= low < 256
    ensures (256 * high + low) / 256 == high && (256 * high + low) % 256 == low
  {
  }

  ghost predicate IsHashLen(h: seq<Byte>, n: nat) {
    n <= |h| && (forall i :: n <= i < |h| ==> h[i] == 0) && (n > 0 ==> h[n - 1] != 0)
  }

  function HashLenFrom(h: seq<Byte>, n: nat): nat
    requires n <= |h|
  {
    if n > 0 && h[n - 1] == 0 then HashLenFrom(h, n - 1) else n
  }

  function HashLen(h: seq<Byte>): nat { HashLenFrom(h, |h|) }

  lemma {:induction false} HashLenIs(h: seq<Byte>, n: nat)
    requires n <= |h| && forall i :: n <= i < |h| ==> h[i] == 0
    ensures IsHashLen(h, HashLenFrom(h, n))
  {
    if n > 0 && h[n - 1] == 0 {
      HashLenIs(h, n - 1);
    }
  }

  lemma {:induction false} HashLenUnique(h: seq<Byte>, n: nat)
    requires IsHashLen(h, n)
    ensures HashLen(h) == n
  {
    HashLenIs(h, |h|);
    assert n > 0 ==> HashLen(h) > n - 1;
  }

  /** The loop of hashLen: drop trailing zeros. */
  method HashLenLoop(h: Hash) returns (n: nat)
    ensures n == HashLen(h) && IsHashLen(h, n)
  {
    HashLenIs(h, |h|);
    var i := |h| - 1;
    while i >= 0 && h[i] == 0
      invariant -1 <= i < |h| && HashLenFrom(h, i + 1) == HashLen(h)
    {
      i := i - 1;
    }
    n := i + 1;
  }

  /** h without trailing zeros, filled up again. */
  function Filled(bs: seq<Byte>): (h: Hash)
    requires |bs| <= 28
  {
    bs + Zeros(28 - |bs|)
  }

  lemma {:induction false} FilledTrimmed(h: Hash)
    ensures HashLen(h) <= 28 && Filled(h[..HashLen(h)]) == h
  {
    HashLenIs(h, |h|);
  }

  // ------------------------------------------------------------ the form itself

  function WholeBytes(l: Local): (bs: seq<Byte>)
    ensures |bs| == 32
  {
    HeaderBytes(l.header) + l.hash
  }

  predicate IsWhole(pn: Number) { IsTimePulse(pn) || pn == LOCAL_RELATIVE }

  /** A local: nothing without a pulse, all of it for a time or local-relative pulse, else a trimmed hash. */
  function LocalBytes(l: Local): seq<Byte> {
    if l.Pulse() == UNKNOWN then []
    else if IsWhole(l.Pulse()) then WholeBytes(l)
    else FilledTrimmed(l.hash); HeaderBytes(l.header) + l.hash[..HashLen(l.hash)]
  }

  /** A local in full and then a base, four zeros for an empty one. */
  function TwoPartBytes(local: Local, base: Local): seq<Byte> {
    WholeBytes(local) + if base.IsEmpty() then [0, 0, 0, 0] else LocalBytes(base)
  }

  /** A reference: nothing, a self reference as one local, or both parts. */
  function GlobalBytes(g: Global): seq<Byte> {
    if g.base.IsEmpty() && g.local.IsEmpty() then []
    else if !g.base.IsEmpty() && g.base == g.local then LocalBytes(g.local)
    else TwoPartBytes(g.local, g.base)
  }

  function BinarySizeLocal(l: Local): nat {
    if l.IsEmpty() || l.Pulse() == UNKNOWN then 0
    else if IsWhole(l.Pulse()) then LOCAL_SIZE
    else HEADER_SIZE + HashLen(l.hash)
  }

  function BinarySize(g: Global): nat {
    if g.base.IsEmpty() then
      if g.local.IsEmpty() then 0 else LOCAL_SIZE + HEADER_SIZE
    else if g.base == g.local then BinarySizeLocal(g.local)
    else LOCAL_SIZE + BinarySizeLocal(g.base)
  }

  /** The size function is exact, for every reference. */
  lemma {:induction false} BinarySizeExact(g: Global)
    ensures BinarySize(g) == |GlobalBytes(g)| <= GLOBAL_SIZE
    ensures BinarySizeLocal(g.base) == |LocalBytes(g.base)| <= LOCAL_SIZE
  {
    FilledTrimmed(g.base.hash);
    FilledTrimmed(g.local.hash);
  }

  // ------------------------------------------------------------ reading

  /** UnmarshalLocal; None is an error. */
  function UnmarshalLocal(d: seq<Byte>): Option<Local> {
    if |d| > LOCAL_SIZE then None
    else if |d| < HEADER_SIZE then (if |d| == 0 then Some(EMPTY_LOCAL) else None)
    else
      var header := HeaderOf(d);
      var pn := OfUint32(header);
      if IsWhole(pn) then (if |d| == LOCAL_SIZE then Some(Local(header, d[4..])) else None)
      else if IsSpecialOrPrivate(pn) then
        if |d| > HEADER_SIZE && d[|d| - 1] == 0 then None else Some(Local(header, Filled(d[4..])))
      else if |d| == HEADER_SIZE then Some(Local(header, ZERO_HASH))
      else None
  }

  function UnmarshalGlobal(d: seq<Byte>): Option<Global> {
    if |d| == 0 then Some(Global(EMPTY_LOCAL, EMPTY_LOCAL))
    else if |d| < HEADER_SIZE then None
    else if |d| <= LOCAL_SIZE then
      match UnmarshalLocal(d)
      case Some(l) => Some(Global(l, l))
      case None => None
    else if |d| > GLOBAL_SIZE then None
    else
      match UnmarshalLocal(d[32..])
      case Some(base) => Some(Global(Local(HeaderOf(d), d[4..32]), base))
      case None => None
  }

  // ------------------------------------------------------------ round trips

  lemma {:induction false} WholeRoundTrip(l: Local, rest: seq<Byte>)
    ensures var d := WholeBytes(l) + rest; HeaderOf(d) == l.header && d[4..32] == l.hash && d[32..] == rest
  {
    var d := WholeBytes(l) + rest;
    HeaderRoundTrip(l.header);
    assert forall i :: 0 <= i < 4 ==> d[i] == HeaderBytes(l.header)[i];
  }

  /** A local comes back from its bytes exactly when it is well formed. */
  lemma {:induction false} LocalRoundTrip(l: Local)
    ensures UnmarshalLocal(LocalBytes(l)) == Some(l) <==> WellFormed(l)
  {
    var d := LocalBytes(l);
    HeaderRoundTrip(l.header);
    FilledTrimmed(l.hash);
    HashLenIs(l.hash, |l.hash|);
    if l.Pulse() != UNKNOWN {
      assert forall i :: 0 <= i < 4 ==> d[i] == HeaderBytes(l.header)[i];
      assert HeaderOf(d) == l.header;
      if !IsWhole(l.Pulse()) {
        assert d[4..] == l.hash[..HashLen(l.hash)];
      } else {
        assert d[4..] == l.hash;
      }
    }
  }

  /** When a reference comes back: its base must be the zero value or have a pulse, and a self reference
      or an empty one must be well formed; the local part of any other is kept whole. */
  predicate Recoverable(g: Global) {
    if g.base.IsEmpty() then g.base == EMPTY_LOCAL && (g.local.IsEmpty() ==> g.local == EMPTY_LOCAL)
    else WellFormed(g.base)
  }

  /** A reference comes back from its bytes exactly when it is recoverable; well-formed parts suffice. */
  lemma {:induction false} GlobalRoundTrip(g: Global)
    ensures UnmarshalGlobal(GlobalBytes(g)) == Some(g) <==> Recoverable(g)
    ensures WellFormed(g.local) && WellFormed(g.base) ==> UnmarshalGlobal(GlobalBytes(g)) == Some(g)
  {
    BinarySizeExact(g);
    if g.base.IsEmpty() {
      if !g.local.IsEmpty() {
        WholeRoundTrip(g.local, [0, 0, 0, 0]);
      }
    } else if g.base == g.local {
      LocalRoundTrip(g.local);
    } else {
      LocalRoundTrip(g.base);
      WholeRoundTrip(g.local, LocalBytes(g.base));
    }
  }

  /** Conversely, bytes accepted as a local with a pulse are the bytes it is written as. */
  lemma {:induction false} AcceptedIsCanonical(d: seq<Byte>)
    requires UnmarshalLocal(d).Some? && UnmarshalLocal(d).value.Pulse() != UNKNOWN
    ensures LocalBytes(UnmarshalLocal(d).value) == d
  {
    var l := UnmarshalLocal(d).value;
    BytesOfHeader(d);
    assert d == d[..4] + d[4..];
    if !IsWhole(l.Pulse()) {
      var h := l.hash;
      assert IsHashLen(h, |d| - 4);
      HashLenUnique(h, |d| - 4);
      assert h[..|d| - 4] == d[4..];
    }
  }
}
