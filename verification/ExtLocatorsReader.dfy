/** Reading extension locators back (ledger-core/rms/proto_catalog.pb.go): unmarshal of a list and of one
    locator, and the skipper of unknown fields. All read errors are one error. */
module ExtLocatorsReader {
  import opened Bytes
  import opened Varint
  import opened ExtLocators
  import opened FieldLoop

  // ------------------------------------------------------------ tags

  datatype Tag = Tag(field: int, wireType: nat, count: nat) | BadTag

  /** The number of a field is cut to an int32. */
  function Int32(v: nat): int { if v % U32 < 0x8000_0000 then v % U32 else v % U32 - U32 }

  function ReadTag(d: seq<Byte>): (t: Tag)
    ensures t.Tag? ==> 1 <= t.count <= |d| && t.wireType < 8
  {
    match ReadVarint(d, Bits64)
    case ReadOk(v, n) => Tag(Int32(v / 8), v % 8, n)
    case _ => BadTag
  }

  // ------------------------------------------------------------ skipping

  /** The bytes after the tag that belong to a field of the given wire type. */
  function Payload(d: seq<Byte>, wireType: nat): Skip {
    match wireType
    case 0 => if Decode(d, MAX_VARINT).ReadOk? then Skipped(Decode(d, MAX_VARINT).count) else BadField
    case 1 => Skipped(8)
    case 2 =>
      (match ReadVarint(d, Bits64)
       case ReadOk(len, n) => if len < U63 then Skipped(n + len) else BadField
       case _ => BadField)
    case 3 => Skipped(0)
    case 4 => Skipped(0)
    case 5 => Skipped(4)
    case _ => BadField
  }

  /** One turn of the skipping loop, `at` bytes into its data and inside `depth` groups. */
  function SkipOne(d: seq<Byte>, at: nat, depth: nat): (s: SkipStep)
    ensures s.Last? || s.More? ==> s.count >= 1
    ensures s.More? ==> s.count <= |d|
  {
    match ReadTag(d)
    case BadTag => Bad
    case Tag(_, wireType, n) =>
      if wireType == 4 && depth == 0 then Bad
      else
        match Payload(d[n..], wireType)
        case BadField => Bad
        case Skipped(k) =>
          var depth' := if wireType == 3 then depth + 1 else if wireType == 4 then depth - 1 else depth;
          if at + n + k >= U63 then Bad
          else if depth' == 0 then Last(n + k)
          else if n + k > |d| then Bad
          else More(n + k, depth')
  }

  /** skipProtoCatalog; the count may lie past the end of the data. */
  function SkipField(d: seq<Byte>): (s: Skip)
    ensures s.Skipped? ==> s.count >= 1
  {
    var s := SkipAll(SkipOne, d, 0, 0);
    assert s.Skipped? ==> s.count >= 1 by {
      if s.Skipped? {
        SkipAllProgress(SkipOne, d, 0, 0);
      }
    }
    s
  }

  method SkipProtoCatalog(d: seq<Byte>) returns (s: Skip)
    ensures s == SkipField(d)
  {
    s := SkipLoop(SkipOne, d);
  }

  // ------------------------------------------------------------ one locator

  datatype Field = ID(v32: Uint32) | Loc(v64: Uint64) | Size(v32: Uint32) | Unknown

  function Apply(m: ExtLocator, f: Field): ExtLocator {
    match f
    case ID(v) => m.(extensionID := v)
    case Loc(v) => m.(payloadLoc := v)
    case Size(v) => m.(payloadSize := v)
    case Unknown => m
  }

  /** A field that comes again replaces the earlier value. */
  function Assemble(fs: seq<Field>): ExtLocator {
    if fs == [] then EMPTY_LOCATOR else Apply(Assemble(fs[..|fs| - 1]), fs[|fs| - 1])
  }

  function UnknownAt(d: seq<Byte>): (r: Parsed<(Field, nat)>)
    ensures r.Parsed? ==> 1 <= r.value.1 <= |d|
  {
    match SkipField(d)
    case Skipped(n) => if n <= |d| then Parsed((Unknown, n)) else Malformed
    case BadField => Malformed
  }

  /** The field at the start of d and the bytes it takes; an unknown field is skipped. */
  function FieldAt(d: seq<Byte>): (r: Parsed<(Field, nat)>)
    ensures r.Parsed? ==> 1 <= r.value.1 <= |d|
  {
    match ReadTag(d)
    case BadTag => Malformed
    case Tag(field, wireType, n) =>
      if wireType == 4 || field <= 0 then Malformed
      else if field == 17 || field == 20 then
        if wireType != 0 then Malformed
        else (match ReadVarint(d[n..], Bits32)
              case ReadOk(v, k) => Parsed((if field == 17 then ID(v) else Size(v), n + k))
              case _ => Malformed)
      else if field == 18 then
        if wireType == 1 && |d| >= n + 8 then Parsed((Loc(ReadFixed64(d[n..n + 8])), n + 8)) else Malformed
      else UnknownAt(d)
  }

  function ReadFixed64(bs: seq<Byte>): (v: Uint64)
    requires |bs| == 8
  {
    FixedBound(bs);
    assert Pow256(8) == U64;
    ReadFixed(bs)
  }

  lemma {:induction false} FixedBound(bs: seq<Byte>)
    ensures ReadFixed(bs) < Pow256(|bs|)
  {
    if bs != [] {
      FixedBound(bs[1..]);
    }
  }

  function ParseLocator(d: seq<Byte>): Parsed<ExtLocator> {
    match ReadAll(FieldAt, d, [])
    case Parsed(fs) => Parsed(Assemble(fs))
    case Malformed => Malformed
  }

  // ------------------------------------------------------------ a list

  datatype Entry = Item(m: ExtLocator) | Ignored

  function Items(es: seq<Entry>): seq<ExtLocator> {
    if es == [] then [] else Items(es[..|es| - 1]) + (if es[|es| - 1].Item? then [es[|es| - 1].m] else [])
  }

  /** A length-delimited record, after its tag: what parse makes of its body, and the bytes it takes. */
  function Framed<T>(parse: seq<Byte> -> Parsed<T>, d: seq<Byte>): (r: Parsed<(T, nat)>)
    ensures r.Parsed? ==> 1 <= r.value.1 <= |d|
  {
    match ReadVarint(d, Bits64)
    case ReadOk(len, n) =>
      if len >= U63 || n + len > |d| then Malformed
      else (match parse(d[n..n + len])
            case Parsed(m) => Parsed((m, n + len))
            case Malformed => Malformed)
    case _ => Malformed
  }

  /** The record or unknown field at the start of d and the bytes it takes. */
  function EntryWith(parse: seq<Byte> -> Parsed<ExtLocator>, d: seq<Byte>): (r: Parsed<(Entry, nat)>)
    ensures r.Parsed? ==> 1 <= r.value.1 <= |d|
  {
    match ReadTag(d)
    case BadTag => Malformed
    case Tag(field, wireType, n) =>
      if wireType == 4 || field <= 0 then Malformed
      else if field == 17 then
        if wireType != 2 then Malformed
        else (match Framed(parse, d[n..])
              case Parsed((m, k)) => Parsed((Item(m), n + k))
              case Malformed => Malformed)
      else (match UnknownAt(d)
            case Parsed((_, k)) => Parsed((Ignored, k))
            case Malformed => Malformed)
  }

  function EntryAt(d: seq<Byte>): (r: Parsed<(Entry, nat)>)
    ensures r.Parsed? ==> 1 <= r.value.1 <= |d|
  {
    EntryWith(ParseLocator, d)
  }

  function ParseLocators(d: seq<Byte>): Parsed<seq<ExtLocator>> {
    match ReadAll(EntryAt, d, [])
    case Parsed(es) => Parsed(Items(es))
    case Malformed => Malformed
  }

  /** Unmarshal into a fresh value. */
  method Unmarshal(d: seq<Byte>) returns (r: Parsed<seq<ExtLocator>>)
    ensures r == ParseLocators(d)
  {
    var entries := ReadLoop(EntryAt, d);
    if entries.Malformed? {
      return Malformed;
    }
    var ms := [];
    for i := 0 to |entries.value|
      invariant ms == Items(entries.value[..i])
    {
      assert entries.value[..i + 1][..i] == entries.value[..i];
      if entries.value[i].Item? {
        ms := ms + [entries.value[i].m];
      }
    }
    assert entries.value[..|entries.value|] == entries.value;
    r := Parsed(ms);
  }

  // ------------------------------------------------------------ appending bytes

  lemma {:induction false} TagStable(d: seq<Byte>, e: seq<Byte>)
    requires ReadTag(d).Tag?
    ensures ReadTag(d + e) == ReadTag(d)
  {
    DecodeStable(d, e, MAX_VARINT);
  }

  lemma {:induction false} PayloadStable(d: seq<Byte>, e: seq<Byte>, wireType: nat)
    requires Payload(d, wireType).Skipped?
    ensures Payload(d + e, wireType) == Payload(d, wireType)
  {
    if wireType == 0 || wireType == 2 {
      DecodeStable(d, e, MAX_VARINT);
    }
  }

  lemma {:induction false} SkipOneStable()
    ensures StableSkipper(SkipOne)
  {
    forall d: seq<Byte>, e: seq<Byte>, at: nat, depth: nat |
      SkipOne(d, at, depth).More? || (SkipOne(d, at, depth).Last? && SkipOne(d, at, depth).count <= |d|)
      ensures SkipOne(d + e, at, depth) == SkipOne(d, at, depth)
    {
      TagStable(d, e);
      var t := ReadTag(d);
      assert (d + e)[t.count..] == d[t.count..] + e;
      PayloadStable(d[t.count..], e, t.wireType);
    }
  }

  lemma {:induction false} UnknownStable(d: seq<Byte>, e: seq<Byte>)
    requires UnknownAt(d).Parsed?
    ensures UnknownAt(d + e) == UnknownAt(d)
  {
    SkipOneStable();
    SkipAllStable(SkipOne, d, e, 0, 0);
  }

  lemma {:induction false} FieldStable()
    ensures Stable(FieldAt)
  {
    forall d: seq<Byte>, e: seq<Byte> | FieldAt(d).Parsed?
      ensures FieldAt(d + e) == FieldAt(d)
    {
      TagStable(d, e);
      var t := ReadTag(d);
      assert (d + e)[t.count..] == d[t.count..] + e;
      if t.field == 17 || t.field == 20 {
        DecodeStable(d[t.count..], e, MAX_VARINT);
      } else if t.field == 18 {
        assert (d + e)[t.count..t.count + 8] == d[t.count..t.count + 8];
      } else {
        UnknownStable(d, e);
      }
    }
  }

  lemma {:induction false} PrefixSlice(d: seq<Byte>, e: seq<Byte>, i: nat, j: nat)
    requires i <= j <= |d|
    ensures (d + e)[i..j] == d[i..j]
  {
  }

  lemma {:induction false} FramedStable<T>(parse: seq<Byte> -> Parsed<T>, d: seq<Byte>, e: seq<Byte>)
    requires Framed(parse, d).Parsed?
    ensures Framed(parse, d + e) == Framed(parse, d)
  {
    DecodeStable(d, e, MAX_VARINT);
    var r := ReadVarint(d, Bits64);
    PrefixSlice(d, e, r.count, r.count + r.value);
  }

  lemma {:induction false} EntryWithStable(parse: seq<Byte> -> Parsed<ExtLocator>, d: seq<Byte>, e: seq<Byte>)
    requires EntryWith(parse, d).Parsed?
    ensures EntryWith(parse, d + e) == EntryWith(parse, d)
  {
    TagStable(d, e);
    var t := ReadTag(d);
    if t.field == 17 {
      assert (d + e)[t.count..] == d[t.count..] + e;
      FramedStable(parse, d[t.count..], e);
    } else {
      UnknownStable(d, e);
    }
  }

  lemma {:induction false} EntryStable()
    ensures Stable(EntryAt)
  {
    forall d: seq<Byte>, e: seq<Byte> | EntryAt(d).Parsed?
      ensures EntryAt(d + e) == EntryAt(d)
    {
      EntryWithStable(ParseLocator, d, e);
    }
  }

  lemma {:induction false} ItemsConcat(es: seq<Entry>, fs: seq<Entry>)
    ensures Items(es + fs) == Items(es) + Items(fs)
  {
    if fs == [] {
      assert es + fs == es;
    } else {
      assert (es + fs)[..|es + fs| - 1] == es + fs[..|fs| - 1];
      ItemsConcat(es, fs[..|fs| - 1]);
    }
  }

  /** Bytes after a parsed prefix add their locators to those of the prefix. */
  lemma {:induction false} LocatorsConcat(a: seq<Byte>, b: seq<Byte>)
    requires ParseLocators(a).Parsed?
    ensures ParseLocators(a + b) == match ParseLocators(b)
                                    case Parsed(more) => Parsed(ParseLocators(a).value + more)
                                    case Malformed => Malformed
  {
    EntryStable();
    ReadAllAppend(EntryAt, a, b);
    if ReadAll(EntryAt, b, []).Parsed? {
      ItemsConcat(ReadAll(EntryAt, a, []).value, ReadAll(EntryAt, b, []).value);
    }
  }

  // ------------------------------------------------------------ round trips

  lemma {:induction false} ReadTwoByteTag(b0: Byte, rest: seq<Byte>)
    requires b0 >= 128
    ensures ReadTag([b0, 0x01] + rest) == Tag(b0 / 8, b0 % 8, 2)
  {
    var d := [b0, 0x01] + rest;
    assert d[1..] == [0x01] + rest;
    assert Decode(d[1..], 9) == ReadOk(1, 1);
    assert Decode(d, 10) == ReadOk(b0, 2);
  }

  lemma {:induction false} VarintFieldReads(d: seq<Byte>, b0: Byte, v: Uint32)
    requires (b0 == 0x88 || b0 == 0xa0) && d == [b0, 0x01] + Encode(v)
    ensures FieldAt(d) == Parsed((if b0 == 0x88 then ID(v) else Size(v), |d| as nat))
  {
    ReadTwoByteTag(b0, Encode(v));
    assert d[2..] == Encode(v) + [];
    ReadEncode(v, [], Bits32);
  }

  lemma {:induction false} FixedFieldReads(d: seq<Byte>, v: Uint64)
    requires d == [0x91, 0x01] + Fixed64(v, 8)
    ensures FieldAt(d) == Parsed((Loc(v), |d| as nat))
  {
    ReadTwoByteTag(0x91, Fixed64(v, 8));
    assert d[2..10] == Fixed64(v, 8);
    assert Pow256(8) == U64;
    FixedRoundTrip(v, 8);
  }

  /** The non-zero fields of m, with the bytes of each. */
  function FieldsOf(m: ExtLocator): seq<Field> {
    (if m.extensionID != 0 then [ID(m.extensionID)] else [])
    + (if m.payloadLoc != 0 then [Loc(m.payloadLoc)] else [])
    + (if m.payloadSize != 0 then [Size(m.payloadSize)] else [])
  }

  function ChunksOf(m: ExtLocator): seq<seq<Byte>> {
    (if m.extensionID != 0 then [IdField(m)] else [])
    + (if m.payloadLoc != 0 then [LocField(m)] else [])
    + (if m.payloadSize != 0 then [SizeField(m)] else [])
  }

  lemma {:induction false} JoinedConcat(a: seq<seq<Byte>>, b: seq<seq<Byte>>)
    ensures Joined(a + b) == Joined(a) + Joined(b)
  {
    if a == [] {
      assert a + b == b;
    } else {
      assert (a + b)[1..] == a[1..] + b;
      JoinedConcat(a[1..], b);
    }
  }

  lemma {:induction false} JoinedOne(bs: seq<Byte>)
    ensures Joined([bs]) == bs
  {
  }

  lemma {:induction false} ChunksAreBytes(m: ExtLocator)
    ensures Joined(ChunksOf(m)) == LocatorBytes(m)
  {
    var a := if m.extensionID != 0 then [IdField(m)] else [];
    var b := if m.payloadLoc != 0 then [LocField(m)] else [];
    var c := if m.payloadSize != 0 then [SizeField(m)] else [];
    JoinedOne(IdField(m));
    JoinedOne(LocField(m));
    JoinedOne(SizeField(m));
    JoinedConcat(a, b);
    JoinedConcat(a + b, c);
  }

  lemma {:induction false} FieldsAssemble(m: ExtLocator)
    ensures Assemble(FieldsOf(m)) == m
  {
    var a := if m.extensionID != 0 then [ID(m.extensionID)] else [];
    var b := a + if m.payloadLoc != 0 then [Loc(m.payloadLoc)] else [];
    var c := FieldsOf(m);
    assert m.extensionID != 0 ==> a[..|a| - 1] == [];
    assert Assemble(a) == EMPTY_LOCATOR.(extensionID := m.extensionID);
    assert m.payloadLoc != 0 ==> b[..|b| - 1] == a;
    assert Assemble(b) == Assemble(a).(payloadLoc := m.payloadLoc);
    assert m.payloadSize != 0 ==> c[..|c| - 1] == b;
  }

  lemma {:induction false} ChunksRead(m: ExtLocator)
    ensures |ChunksOf(m)| == |FieldsOf(m)|
    ensures forall i :: 0 <= i < |FieldsOf(m)| ==>
              ChunksOf(m)[i] != [] && FieldAt(ChunksOf(m)[i]) == Parsed((FieldsOf(m)[i], |ChunksOf(m)[i]| as nat))
  {
    if m.extensionID != 0 { VarintFieldReads(IdField(m), 0x88, m.extensionID); }
    if m.payloadLoc != 0 { FixedFieldReads(LocField(m), m.payloadLoc); }
    if m.payloadSize != 0 { VarintFieldReads(SizeField(m), 0xa0, m.payloadSize); }
  }

  lemma {:induction false} ParseChunks(d: seq<Byte>, chunks: seq<seq<Byte>>, fs: seq<Field>)
    requires d == Joined(chunks) && |chunks| == |fs|
    requires forall i :: 0 <= i < |fs| ==> chunks[i] != [] && FieldAt(chunks[i]) == Parsed((fs[i], |chunks[i]| as nat))
    ensures ParseLocator(d) == Parsed(Assemble(fs))
  {
    FieldStable();
    ReadAllJoined(FieldAt, chunks, fs, []);
    assert [] + fs == fs;
  }

  lemma {:induction false} LocatorRoundTrip(m: ExtLocator)
    ensures ParseLocator(LocatorBytes(m)) == Parsed(m)
  {
    ChunksAreBytes(m);
    ChunksRead(m);
    ParseChunks(LocatorBytes(m), ChunksOf(m), FieldsOf(m));
    FieldsAssemble(m);
  }

  lemma {:induction false} FramedReads<T>(parse: seq<Byte> -> Parsed<T>, bs: seq<Byte>, m: T)
    requires |bs| < U63 && parse(bs) == Parsed(m)
    ensures Framed(parse, Encode(|bs|) + bs) == Parsed((m, |Encode(|bs|) + bs| as nat))
  {
    ReadEncode(|bs|, bs, Bits64);
    var len := Encode(|bs|);
    assert (len + bs)[|len|..|len| + |bs|] == bs;
  }

  lemma {:induction false} EntryReads(parse: seq<Byte> -> Parsed<ExtLocator>, rest: seq<Byte>, m: ExtLocator)
    requires Framed(parse, rest) == Parsed((m, |rest| as nat))
    ensures EntryWith(parse, [0x8a, 0x01] + rest) == Parsed((Item(m), 2 + |rest| as nat))
  {
    ReadTwoByteTag(0x8a, rest);
    assert ([0x8a, 0x01] + rest)[2..] == rest;
  }

  lemma {:induction false} RecordReadsWith(parse: seq<Byte> -> Parsed<ExtLocator>, bs: seq<Byte>, m: ExtLocator)
    requires |bs| < U63 && parse(bs) == Parsed(m)
    ensures var d := LengthField(|bs|) + bs; EntryWith(parse, d) == Parsed((Item(m), |d| as nat))
  {
    FramedReads(parse, bs, m);
    EntryReads(parse, Encode(|bs|) + bs, m);
    assert [0x8a, 0x01] + (Encode(|bs|) + bs) == LengthField(|bs|) + bs;
  }

  lemma {:induction false} RecordReads(m: ExtLocator)
    ensures EntryAt(RecordBytes(m)) == Parsed((Item(m), |RecordBytes(m)| as nat))
  {
    LocatorSizeExact(m);
    LocatorRoundTrip(m);
    RecordReadsWith(ParseLocator, LocatorBytes(m), m);
  }

  function Records(ms: seq<ExtLocator>): (chunks: seq<seq<Byte>>)
    ensures |chunks| == |ms| && forall i :: 0 <= i < |ms| ==> chunks[i] == RecordBytes(ms[i])
    ensures Joined(chunks) == LocatorsBytes(ms)
  {
    if ms == [] then []
    else
      var tail := Records(ms[1..]);
      assert ([RecordBytes(ms[0])] + tail)[1..] == tail;
      [RecordBytes(ms[0])] + tail
  }

  function AsItems(ms: seq<ExtLocator>): (es: seq<Entry>)
    ensures |es| == |ms| && forall i :: 0 <= i < |ms| ==> es[i] == Item(ms[i])
    ensures Items(es) == ms
  {
    if ms == [] then []
    else
      var es := AsItems(ms[..|ms| - 1]);
      assert (es + [Item(ms[|ms| - 1])])[..|es|] == es;
      es + [Item(ms[|ms| - 1])]
  }

  /** Unmarshalling what was marshalled gives the list back. */
  lemma {:induction false} LocatorsRoundTrip(ms: seq<ExtLocator>)
    ensures ParseLocators(LocatorsBytes(ms)) == Parsed(ms)
  {
    var chunks, es := Records(ms), AsItems(ms);
    forall i | 0 <= i < |ms|
      ensures EntryAt(chunks[i]) == Parsed((es[i], |chunks[i]| as nat))
    {
      RecordReads(ms[i]);
    }
    EntryStable();
    ReadAllJoined(EntryAt, chunks, es, []);
    assert [] + es == es;
  }

  /** Two encodings one after the other unmarshal to the two lists one after the other. */
  lemma {:induction false} ConcatenationRoundTrip(ms: seq<ExtLocator>, ns: seq<ExtLocator>)
    ensures ParseLocators(LocatorsBytes(ms) + LocatorsBytes(ns)) == Parsed(ms + ns)
  {
    LocatorsRoundTrip(ms);
    LocatorsRoundTrip(ns);
    LocatorsConcat(LocatorsBytes(ms), LocatorsBytes(ns));
  }

  /** The skipper takes f whole, and a list of locators does not know its number. */
  predicate IsSkipped(f: seq<Byte>) {
    var t := ReadTag(f);
    t.Tag? && t.wireType != 4 && t.field > 0 && t.field != 17 && SkipField(f) == Skipped(|f|)
  }

  lemma {:induction false} SkippedIgnored(a: seq<Byte>, f: seq<Byte>, b: seq<Byte>)
    requires IsSkipped(f) && ParseLocators(a).Parsed?
    ensures ParseLocators(a + f + b) == ParseLocators(a + b)
  {
    EntryStable();
    assert a + f + b == a + (f + b) && EntryAt(f) == Parsed((Ignored, |f| as nat));
    ReadAllInsert(EntryAt, a, f, b, Ignored);
    ReadAllAppend(EntryAt, a, b);
    if ReadAll(EntryAt, b, []).Parsed? {
      IgnoredDropsOut(ReadAll(EntryAt, a, []).value, ReadAll(EntryAt, b, []).value);
    }
  }

  lemma {:induction false} IgnoredDropsOut(es: seq<Entry>, gs: seq<Entry>)
    ensures Items(es + ([Ignored] + gs)) == Items(es + gs)
  {
    ItemsConcat(es, [Ignored] + gs);
    ItemsConcat([Ignored], gs);
    ItemsConcat(es, gs);
    assert Items([Ignored]) == [];
  }

  lemma {:induction false} SkippedInLocator(a: seq<Byte>, f: seq<Byte>, b: seq<Byte>)
    requires IsSkipped(f) && ReadTag(f).field != 18 && ReadTag(f).field != 20 && ParseLocator(a).Parsed?
    ensures ParseLocator(a + f + b) == ParseLocator(a + b)
  {
    FieldStable();
    assert a + f + b == a + (f + b) && FieldAt(f) == Parsed((Unknown, |f| as nat));
    ReadAllInsert(FieldAt, a, f, b, Unknown);
    ReadAllAppend(FieldAt, a, b);
    if ReadAll(FieldAt, b, []).Parsed? {
      UnknownDropsOut(ReadAll(FieldAt, a, []).value, ReadAll(FieldAt, b, []).value);
    }
  }

  lemma {:induction false} UnknownDropsOut(fs: seq<Field>, gs: seq<Field>)
    ensures Assemble(fs + ([Unknown] + gs)) == Assemble(fs + gs)
  {
    if gs == [] {
      assert fs + ([Unknown] + gs) == fs + [Unknown] && (fs + [Unknown])[..|fs|] == fs && fs + gs == fs;
    } else {
      var init := gs[..|gs| - 1];
      UnknownDropsOut(fs, init);
      var x, y := fs + ([Unknown] + gs), fs + gs;
      assert x[..|x| - 1] == fs + ([Unknown] + init) && y[..|y| - 1] == fs + init;
    }
  }
}
