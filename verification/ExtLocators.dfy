/** The wire codec of the catalog extension locators (ledger-core/rms/proto_catalog.pb.go): size, back-to-front
    writer, front-to-back reader and the skipper of unknown fields. The kinds of read error are not told apart. */
module ExtLocators {
  import opened Bytes
  import opened Varint

  type Uint32 = n: int | 0 <= n < U32
  type Uint64 = n: int | 0 <= n < U64

  datatype ExtLocator = ExtLocator(extensionID: Uint32, payloadLoc: Uint64, payloadSize: Uint32)

  const EMPTY_LOCATOR := ExtLocator(0, 0, 0)

  // ------------------------------------------------------------ bytes and sizes

  function Fixed64(v: nat, count: nat): (bs: seq<Byte>)
    ensures |bs| == count
  {
    if count == 0 then [] else [v % 256] + Fixed64(v / 256, count - 1)
  }

  function ReadFixed(bs: seq<Byte>): nat { if bs == [] then 0 else bs[0] + 256 * ReadFixed(bs[1..]) }

  function Pow256(k: nat): nat { if k == 0 then 1 else 256 * Pow256(k - 1) }

  lemma {:induction false} FixedRoundTrip(v: nat, count: nat)
    requires v < Pow256(count)
    ensures ReadFixed(Fixed64(v, count)) == v
  {
    if count > 0 {
      FixedRoundTrip(v / 256, count - 1);
      assert Fixed64(v, count)[1..] == Fixed64(v / 256, count - 1);
    }
  }

  /** A field with its two-byte tag, left out when zero. */
  function VarintField(b0: Byte, v: nat): seq<Byte> { if v != 0 then [b0, 0x01] + Encode(v) else [] }

  function FixedField(b0: Byte, v: nat): seq<Byte> { if v != 0 then [b0, 0x01] + Fixed64(v, 8) else [] }

  function IdField(m: ExtLocator): seq<Byte> { VarintField(0x88, m.extensionID) }

  function LocField(m: ExtLocator): seq<Byte> { FixedField(0x91, m.payloadLoc) }

  function SizeField(m: ExtLocator): seq<Byte> { VarintField(0xa0, m.payloadSize) }

  /** The encoding of one locator: its non-zero fields in order. */
  function LocatorBytes(m: ExtLocator): seq<Byte> { IdField(m) + LocField(m) + SizeField(m) }

  /** The tag and length of a record, written even when the length is zero. */
  function LengthField(size: nat): seq<Byte> { [0x8a, 0x01] + Encode(size) }

  function RecordBytes(m: ExtLocator): seq<Byte> { LengthField(|LocatorBytes(m)|) + LocatorBytes(m) }

  function LocatorsBytes(ms: seq<ExtLocator>): seq<Byte> {
    if ms == [] then [] else RecordBytes(ms[0]) + LocatorsBytes(ms[1..])
  }

  /** ProtoSize of one locator. */
  function LocatorSize(m: ExtLocator): nat {
    (if m.extensionID != 0 then 2 + Sov(m.extensionID) else 0)
    + (if m.payloadLoc != 0 then 10 else 0)
    + (if m.payloadSize != 0 then 2 + Sov(m.payloadSize) else 0)
  }

  lemma {:induction false} LocatorSizeExact(m: ExtLocator)
    ensures LocatorSize(m) == |LocatorBytes(m)| <= 24
  {
    SovIsLength(m.extensionID);
    SovIsLength(m.payloadSize);
    Uint64Fits(m.extensionID);
    Uint64Fits(m.payloadSize);
  }

  function LocatorsSize(ms: seq<ExtLocator>): nat {
    if ms == [] then 0 else 2 + LocatorSize(ms[0]) + Sov(LocatorSize(ms[0])) + LocatorsSize(ms[1..])
  }

  /** ProtoSize of a list, as the loop adds it up. */
  method ProtoSize(ms: seq<ExtLocator>) returns (n: nat)
    ensures n == LocatorsSize(ms) == |LocatorsBytes(ms)|
  {
    LocatorsSizeExact(ms);
    n := 0;
    for i := 0 to |ms|
      invariant n + LocatorsSize(ms[i..]) == LocatorsSize(ms)
    {
      assert ms[i..][0] == ms[i] && ms[i..][1..] == ms[i + 1..];
      var l := LocatorSize(ms[i]);
      n := n + 2 + l + Sov(l);
    }
  }

  lemma {:induction false} LocatorsSizeExact(ms: seq<ExtLocator>)
    ensures LocatorsSize(ms) == |LocatorsBytes(ms)|
  {
    if ms != [] {
      LocatorSizeExact(ms[0]);
      SovIsLength(LocatorSize(ms[0]));
      LocatorsSizeExact(ms[1..]);
    }
  }

  // ------------------------------------------------------------ writing, from the end

  method WriteTag(a: array<Byte>, lo: nat, b0: Byte)
    requires lo + 2 <= a.Length
    modifies a
    ensures Patched(old(a[..]), a[..], lo, [b0, 0x01])
  {
    a[lo + 1] := 0x01;
    a[lo] := b0;
  }

  method WriteVarintField(a: array<Byte>, hi: nat, b0: Byte, v: nat) returns (lo: nat)
    requires |VarintField(b0, v)| <= hi <= a.Length
    modifies a
    ensures lo == hi - |VarintField(b0, v)| && Patched(old(a[..]), a[..], lo, VarintField(b0, v))
  {
    if v == 0 {
      return hi;
    }
    lo := EncodeTo(a, hi, v);
    ghost var a1 := a[..];
    lo := lo - 2;
    WriteTag(a, lo, b0);
    PatchedBefore(old(a[..]), a1, a[..], lo, [b0, 0x01], Encode(v));
  }

  method WriteFixedField(a: array<Byte>, hi: nat, b0: Byte, v: nat) returns (lo: nat)
    requires |FixedField(b0, v)| <= hi <= a.Length
    modifies a
    ensures lo == hi - |FixedField(b0, v)| && Patched(old(a[..]), a[..], lo, FixedField(b0, v))
  {
    if v == 0 {
      return hi;
    }
    lo := hi - 8;
    WriteFixed64(a, lo, v);
    ghost var a1 := a[..];
    lo := lo - 2;
    WriteTag(a, lo, b0);
    PatchedBefore(old(a[..]), a1, a[..], lo, [b0, 0x01], Fixed64(v, 8));
  }

  method WriteFixed64(a: array<Byte>, lo: nat, v: nat)
    requires lo + 8 <= a.Length
    modifies a
    ensures Patched(old(a[..]), a[..], lo, Fixed64(v, 8))
  {
    var x := v;
    for i := 0 to 8
      invariant Patched(old(a[..]), a[..], lo, a[lo..lo + i])
      invariant Fixed64(v, 8) == a[lo..lo + i] + Fixed64(x, 8 - i)
    {
      a[lo + i] := x % 256;
      x := x / 256;
    }
  }

  lemma {:induction false} PatchedThrice(s0: seq<Byte>, s1: seq<Byte>, s2: seq<Byte>, s3: seq<Byte>, at: nat,
                      bs: seq<Byte>, cs: seq<Byte>, ds: seq<Byte>)
    requires Patched(s0, s1, at + |bs| + |cs|, ds) && Patched(s1, s2, at + |bs|, cs) && Patched(s2, s3, at, bs)
    ensures Patched(s0, s3, at, bs + cs + ds)
  {
  }

  method MarshalLocatorTo(a: array<Byte>, hi: nat, m: ExtLocator) returns (lo: nat)
    requires |LocatorBytes(m)| <= hi <= a.Length
    modifies a
    ensures lo == hi - |LocatorBytes(m)| && Patched(old(a[..]), a[..], lo, LocatorBytes(m))
  {
    lo := WriteVarintField(a, hi, 0xa0, m.payloadSize);
    ghost var a1 := a[..];
    lo := WriteFixedField(a, lo, 0x91, m.payloadLoc);
    ghost var a2 := a[..];
    lo := WriteVarintField(a, lo, 0x88, m.extensionID);
    PatchedThrice(old(a[..]), a1, a2, a[..], lo, IdField(m), LocField(m), SizeField(m));
  }

  /** MarshalToSizedBuffer of a list: the records are written last to first. */
  method MarshalLocatorsTo(a: array<Byte>, hi: nat, ms: seq<ExtLocator>) returns (lo: nat)
    requires |LocatorsBytes(ms)| <= hi <= a.Length
    modifies a
    ensures lo == hi - |LocatorsBytes(ms)| && Patched(old(a[..]), a[..], lo, LocatorsBytes(ms))
  {
    lo := hi;
    ghost var done := [];  // the bytes of the records written so far
    var i := |ms|;
    while i > 0
      invariant 0 <= i <= |ms| && done == LocatorsBytes(ms[i..])
      invariant lo == hi - |done| && Patched(old(a[..]), a[..], lo, done)
    {
      i := i - 1;
      LocatorsStep(ms, i);
      lo := PrependRecord(a, lo, ms[i], old(a[..]), done);
      done := RecordBytes(ms[i]) + done;
    }
    assert ms[0..] == ms;
  }

  /** One more record before those already written into what was before. */
  method PrependRecord(a: array<Byte>, at: nat, m: ExtLocator, ghost before: seq<Byte>, ghost done: seq<Byte>)
    returns (lo: nat)
    requires |RecordBytes(m)| <= at <= a.Length && Patched(before, a[..], at, done)
    modifies a
    ensures lo == at - |RecordBytes(m)| && Patched(before, a[..], lo, RecordBytes(m) + done)
  {
    lo := MarshalRecordTo(a, at, m);
    PatchedBefore(before, old(a[..]), a[..], lo, RecordBytes(m), done);
  }

  lemma {:induction false} LocatorsSuffix(ms: seq<ExtLocator>, i: nat)
    requires i <= |ms|
    ensures |LocatorsBytes(ms[i..])| <= |LocatorsBytes(ms)|
  {
    if i > 0 {
      LocatorsSuffix(ms[1..], i - 1);
      assert ms[1..][i - 1..] == ms[i..];
    } else {
      assert ms[0..] == ms;
    }
  }

  lemma {:induction false} LocatorsStep(ms: seq<ExtLocator>, i: nat)
    requires i < |ms|
    ensures LocatorsBytes(ms[i..]) == RecordBytes(ms[i]) + LocatorsBytes(ms[i + 1..])
    ensures |LocatorsBytes(ms[i..])| <= |LocatorsBytes(ms)|
  {
    assert ms[i..][0] == ms[i] && ms[i..][1..] == ms[i + 1..];
    LocatorsSuffix(ms, i);
  }

  method MarshalRecordTo(a: array<Byte>, hi: nat, m: ExtLocator) returns (lo: nat)
    requires |RecordBytes(m)| <= hi <= a.Length
    modifies a
    ensures lo == hi - |RecordBytes(m)| && Patched(old(a[..]), a[..], lo, RecordBytes(m))
  {
    var body := MarshalLocatorTo(a, hi, m);
    ghost var a1 := a[..];
    lo := WriteLength(a, body, hi - body);
    PatchedBefore(old(a[..]), a1, a[..], lo, LengthField(hi - body), LocatorBytes(m));
  }

  method WriteLength(a: array<Byte>, hi: nat, size: nat) returns (lo: nat)
    requires |LengthField(size)| <= hi <= a.Length
    modifies a
    ensures lo == hi - |LengthField(size)| && Patched(old(a[..]), a[..], lo, LengthField(size))
  {
    var at := EncodeTo(a, hi, size);
    ghost var a1 := a[..];
    lo := at - 2;
    WriteTag(a, lo, 0x8a);
    PatchedBefore(old(a[..]), a1, a[..], lo, [0x8a, 0x01], Encode(size));
  }

  /** Marshal: the buffer is filled exactly, so the size panic is not reachable. */
  method Marshal(ms: seq<ExtLocator>) returns (bytes: seq<Byte>)
    ensures bytes == LocatorsBytes(ms)
  {
    var size := ProtoSize(ms);
    var a := new Byte[size](_ => 0);
    var lo := MarshalLocatorsTo(a, size, ms);
    var n := size - lo;
    assert n == size;
    bytes := a[..];
  }
}
