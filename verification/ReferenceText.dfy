/** The textual form of a reference (ledger-core/reference: encoder.go, decoder.go, byte_decoder.go, byte_encoder.go,
    compact.go). Base58 and base64 are a pair of abstract byte codecs. The encoder writes no parity and has no
    name encoder; the decoder has the default options (legacy and record references allowed) and no names. */
module ReferenceText {
  import opened Bytes
  import opened PulseNumber
  import opened Reference

  datatype ByteCodec = ByteCodec(encode: seq<Byte> -> string, decode: string -> Option<seq<Byte>>)

  datatype Encoding = Base58 | Base64 {
    function Name(): string { if Base58? then "base58" else "base64" }
  }

  /** parityOk is CheckParity, which only the decoder calls. */
  datatype Codecs = Codecs(base58: ByteCodec, base64: ByteCodec, parityOk: (Global, seq<Byte>) -> bool) {
    function For(e: Encoding): ByteCodec { if e.Base58? then base58 else base64 }
  }

  datatype Encoder = Encoder(encoding: Encoding, encodingSchema: bool, formatSchema: bool)

  /** NewBase58Encoder and NewBase64Encoder; the latter always names the format. */
  function NewEncoder(encoding: Encoding, encodingSchema: bool, formatSchema: bool): Encoder {
    Encoder(encoding, encodingSchema, formatSchema || encoding.Base64?)
  }

  const SCHEMA_V1 := "insolar"
  const RECORD_DOMAIN := "record"
  const LEGACY_DOMAIN := "11111111111111111111111111111111"

  /** None of the separators of a reference. */
  predicate Plain(s: string) { '.' !in s && ':' !in s && '/' !in s }

  /** What the round trip needs of a byte codec: it is lossless, not shorter than the bytes, and plain. */
  ghost predicate Lossless(c: ByteCodec) {
    forall bs :: c.decode(c.encode(bs)) == Some(bs) && |c.encode(bs)| >= |bs| && Plain(c.encode(bs))
  }

  // ------------------------------------------------------------ encoding

  predicate IsRecordScope(g: Global) { g.base.IsEmpty() && !g.local.IsEmpty() && g.local.SubScope() == 0 }

  predicate IsSelfScope(g: Global) { !g.local.IsEmpty() && g.base == g.local }

  /** encodeBinary; None is its panic on a local that has a scope but no pulse. */
  function LocalText(c: ByteCodec, l: Local): Option<string> {
    if l.IsEmpty() then Some("0")
    else if IsTimePulse(l.Pulse()) then Some("1" + c.encode(WholeBytes(l)))
    else if IsSpecialOrPrivate(l.Pulse()) then
      FilledTrimmed(l.hash);
      Some("0" + c.encode(WholeBytes(l)[..HEADER_SIZE + HashLen(l.hash)]))
    else None
  }

  function Body(c: ByteCodec, g: Global): Option<string> {
    if g.local.IsEmpty() && g.base.IsEmpty() then Some("0")
    else
      match LocalText(c, g.local)
      case None => None
      case Some(local) =>
        if IsRecordScope(g) then Some(local + "." + RECORD_DOMAIN)
        else if IsSelfScope(g) then Some(local)
        else
          match LocalText(c, g.base)
          case None => None
          case Some(base) => Some(local + "." + base)
  }

  /** The schema an encoder writes; it writes none when both options are off. */
  function SchemaOf(e: Encoder): string
    requires e.encodingSchema || e.formatSchema
  {
    if e.encodingSchema && e.formatSchema then SCHEMA_V1 + "+" + e.encoding.Name()
    else if e.formatSchema then SCHEMA_V1
    else e.encoding.Name()
  }

  function Prefix(e: Encoder): string { if e.encodingSchema || e.formatSchema then SchemaOf(e) + ":" else "" }

  function EncodeText(cs: Codecs, e: Encoder, g: Global): Option<string> {
    match Body(cs.For(e.encoding), g)
    case None => None
    case Some(body) => Some(Prefix(e) + body)
  }

  // ------------------------------------------------------------ decoding

  /** strings.IndexRune */
  function IndexOf(s: string, c: char): (i: Option<nat>)
    ensures i.Some? ==> i.value < |s| && s[i.value] == c && c !in s[..i.value]
    ensures i.None? <==> c !in s
  {
    if s == "" then None
    else if s[0] == c then Some(0)
    else
      match IndexOf(s[1..], c)
      case None => None
      case Some(i) =>
        assert s[..i + 1] == [s[0]] + s[1..][..i];
        Some(i + 1)
  }

  /** strings.Split at plus signs */
  function SplitPlus(s: string): seq<string> {
    match IndexOf(s, '+')
    case None => [s]
    case Some(i) => [s[..i]] + SplitPlus(s[i + 1..])
  }

  function NamedDecoder(cs: Codecs, name: string): Option<ByteCodec> {
    if name == "base58" then Some(cs.base58) else if name == "base64" then Some(cs.base64) else None
  }

  /** parseSchema */
  function SchemaDecoder(cs: Codecs, schema: string): Option<ByteCodec> {
    var parts := SplitPlus(schema);
    if |parts| == 1 then
      if parts[0] == SCHEMA_V1 then Some(cs.base64) else NamedDecoder(cs, parts[0])
    else if |parts| == 2 then
      if parts[0] == SCHEMA_V1 then NamedDecoder(cs, parts[1])
      else if parts[1] == SCHEMA_V1 then NamedDecoder(cs, parts[0])
      else None
    else None
  }

  /** The bytes a local shows after bs has been written over the zero value. */
  function Padded(bs: seq<Byte>): (w: seq<Byte>)
    requires |bs| <= LOCAL_SIZE
    ensures |w| == LOCAL_SIZE
  {
    bs + Zeros(LOCAL_SIZE - |bs|)
  }

  function LocalOfBytes(w: seq<Byte>): Local
    requires |w| == LOCAL_SIZE
  {
    Local(HeaderOf(w), w[4..])
  }

  /** The local that a byte writer makes of bs. */
  function WrittenLocal(bs: seq<Byte>): Local
    requires |bs| <= LOCAL_SIZE
  {
    if bs == [] then EMPTY_LOCAL else LocalOfBytes(Padded(bs))
  }

  /** The bytes a part of a reference holds; None if it is not a valid part. */
  function PartBytes(c: ByteCodec, name: string): (bs: Option<seq<Byte>>)
    ensures bs.Some? ==> |bs.value| <= LOCAL_SIZE
  {
    if name == "" || (name[0] != '0' && name[0] != '1') then None
    else if name == "0" then Some([])
    else
      match c.decode(name[1..])
      case None => None
      case Some(bs) => if |bs| > LOCAL_SIZE || (name[0] == '1' && |bs| < LOCAL_SIZE) then None else Some(bs)
  }

  /** parseBinaryAddress; None is any of its errors. */
  function ParseLocal(c: ByteCodec, name: string): Option<Local> {
    match PartBytes(c, name)
    case None => None
    case Some(bs) => Some(WrittenLocal(bs))
  }

  /** Panicked is an index out of range on a reference that ends with its parity separator. */
  datatype Decoded = Ref(g: Global) | Failed | Panicked

  const LOCAL_DOMAIN_MEMBER := 4
  const GLOBAL_DOMAIN_MEMBER := 15

  function ScopeOf(g: Global): nat { 4 * g.base.SubScope() + g.local.SubScope() }

  function TryApplyBase(g: Global, base: Global): Option<Global> {
    if !g.base.IsEmpty() then None
    else if !IsSelfScope(base) && ScopeOf(base) != LOCAL_DOMAIN_MEMBER
      && ScopeOf(base) != GLOBAL_DOMAIN_MEMBER then None
    else Some(Global(g.local, base.local))
  }

  /** parseAddressWithBase; a base has been turned into a self reference before. */
  function ParseWithBase(c: ByteCodec, name: string, base: Option<Global>): Decoded
    requires name != ""
  {
    match ParseLocal(c, name)
    case None => Failed
    case Some(l) =>
      var g := Global(l, EMPTY_LOCAL);
      if base.None? then (if l.IsEmpty() then Ref(g) else Ref(Global(l, l)))
      else if base.value.local.IsEmpty() && base.value.base.IsEmpty() then (if l.IsEmpty() then Ref(g) else Failed)
      else if l.IsEmpty() then Failed
      else
        match TryApplyBase(g, base.value)
        case Some(applied) => Ref(applied)
        case None => Failed
  }

  function ParseAddress(c: ByteCodec, ref: string): Decoded
    requires ref != ""
  {
    match IndexOf(ref, '.')
    case None => ParseWithBase(c, ref, None)
    case Some(p) =>
      var name, domain := ref[..p], ref[p + 1..];
      if name == "" || domain == "" then Failed
      else if domain == RECORD_DOMAIN then
        match ParseLocal(c, name)
        case Some(l) => Ref(Global(l, EMPTY_LOCAL))
        case None => Failed
      else if domain == LEGACY_DOMAIN then Failed
      else
        match ParseLocal(c, domain)
        case Some(b) => ParseWithBase(c, name, Some(Global(b, b)))
        case None => Failed
  }

  /** parseAuthority: what follows the authority */
  function AfterAuthority(ref: string): string {
    if |ref| < 3 || ref[..2] != "//" then ref
    else
      match IndexOf(ref[2..], '/')
      case None => ""
      case Some(p) => ref[2..][p + 1..]
  }

  /** The parity after the separator is one that CheckParity accepts for g. */
  predicate ParityAgrees(cs: Codecs, c: ByteCodec, encoded: string, g: Global) {
    encoded != "" && encoded[0] == '2' && c.decode(encoded[1..]).Some? && cs.parityOk(g, c.decode(encoded[1..]).value)
  }

  /** What is left of the outcome d of an address when a parity follows it. */
  function AfterParity(cs: Codecs, c: ByteCodec, encoded: string, d: Decoded): Decoded {
    if encoded == "" then Panicked
    else if encoded[0] != '2' || c.decode(encoded[1..]).None? then Failed
    else if d.Ref? && !ParityAgrees(cs, c, encoded, d.g) then Failed
    else d
  }

  function ParseReference(cs: Codecs, c: ByteCodec, full: string): Decoded {
    var ref := AfterAuthority(full);
    if ref == "" then Failed
    else
      match IndexOf(ref, '/')
      case None => ParseAddress(c, ref)
      case Some(p) => if p == 0 then Failed else AfterParity(cs, c, ref[p + 1..], ParseAddress(c, ref[..p]))
  }

  /** parseLegacyAddress, for a reference in the legacy domain */
  function ParseLegacy(cs: Codecs, name: string): Decoded {
    match cs.base58.decode(name)
    case None => Failed
    case Some(bs) =>
      if |bs| != LOCAL_SIZE || LocalOfBytes(bs).SubScope() != 0 then Failed
      else Ref(Global(LocalOfBytes(bs), LocalOfBytes(bs)))
  }

  function IsLegacy(ref: string): bool {
    var p := IndexOf(ref, '.');
    && |ref| >= 2 * |LEGACY_DOMAIN| + 1
    && p.Some? && p.value >= |LEGACY_DOMAIN| && ref[p.value + 1..] == LEGACY_DOMAIN
  }

  /** Decode */
  function DecodeText(cs: Codecs, ref: string): Decoded {
    match IndexOf(ref, ':')
    case Some(i) =>
      (match SchemaDecoder(cs, ref[..i])
       case None => Failed
       case Some(c) => ParseReference(cs, c, ref[i + 1..]))
    case None =>
      if IsLegacy(ref) then ParseLegacy(cs, ref[..IndexOf(ref, '.').value])
      else ParseReference(cs, cs.base64, ref)
  }

  /** tryConvertToCompact: an empty part is replaced by the zero value. */
  function AsHolder(g: Global): Global {
    var local := if g.local.IsEmpty() then EMPTY_LOCAL else g.local;
    if g.base.IsEmpty() then Global(local, EMPTY_LOCAL) else Global(local, g.base)
  }

  function Held(d: Decoded): Decoded { if d.Ref? then Ref(AsHolder(d.g)) else d }

  /** DecodeHolder */
  function DecodeHolderText(cs: Codecs, ref: string): Decoded {
    Held(DecodeText(cs, ref))
  }

  // ------------------------------------------------------------ finding separators

  lemma {:induction false} IndexIs(s: string, c: char, i: nat)
    requires i < |s| && s[i] == c && c !in s[..i]
    ensures IndexOf(s, c) == Some(i)
  {
  }

  lemma {:induction false} IndexAfter(a: string, c: char, b: string)
    requires c !in a
    ensures IndexOf(a + [c] + b, c) == Some(|a|)
    ensures (a + [c] + b)[..|a|] == a && (a + [c] + b)[|a| + 1..] == b
  {
    var s := a + [c] + b;
    assert s[..|a|] == a;
    IndexIs(s, c, |a|);
  }

  // ------------------------------------------------------------ schemas

  lemma {:induction false} SplitOne(s: string)
    requires '+' !in s
    ensures SplitPlus(s) == [s]
  {
  }

  lemma {:induction false} SplitTwo(a: string, b: string)
    requires '+' !in a && '+' !in b
    ensures SplitPlus(a + "+" + b) == [a, b]
  {
    IndexAfter(a, '+', b);
    SplitOne(b);
  }

  /** The decoder picks the encoder's own byte codec exactly when the schema names the encoding or the
      encoding is the default one. */
  lemma {:induction false} SchemaNamesDecoder(cs: Codecs, e: Encoder)
    requires e.encodingSchema || e.formatSchema
    requires cs.base58 != cs.base64
    ensures SchemaDecoder(cs, SchemaOf(e)) == Some(cs.For(e.encoding)) <==> e.encodingSchema || e.encoding.Base64?
  {
    SchemaGives(cs, e);
  }

  lemma {:induction false} SchemaGives(cs: Codecs, e: Encoder)
    requires e.encodingSchema || e.formatSchema
    ensures SchemaDecoder(cs, SchemaOf(e)) == Some(if e.encodingSchema then cs.For(e.encoding) else cs.base64)
  {
    var name := e.encoding.Name();
    if e.encodingSchema && e.formatSchema {
      SplitTwo(SCHEMA_V1, name);
    } else if e.formatSchema {
      SplitOne(SCHEMA_V1);
    } else {
      SplitOne(name);
    }
  }

  lemma {:induction false} DecodeAfterPrefix(cs: Codecs, e: Encoder, body: string)
    requires e.encodingSchema || (e.formatSchema && e.encoding.Base64?)
    ensures DecodeText(cs, Prefix(e) + body) == ParseReference(cs, cs.For(e.encoding), body)
  {
    var schema := SchemaOf(e);
    assert ':' !in schema;
    IndexAfter(schema, ':', body);
    SchemaGives(cs, e);
  }

  // ------------------------------------------------------------ one local

  lemma {:induction false} PaddedPrefix(l: Local, n: nat)
    requires HashLen(l.hash) <= n <= HASH_SIZE
    ensures WrittenLocal(WholeBytes(l)[..HEADER_SIZE + n]) == l
  {
    HashLenIs(l.hash, |l.hash|);
    HeaderRoundTrip(l.header);
    var bs := WholeBytes(l)[..HEADER_SIZE + n];
    assert forall i :: 0 <= i < 4 ==> Padded(bs)[i] == HeaderBytes(l.header)[i];
    assert forall i :: 0 <= i < HASH_SIZE ==> Padded(bs)[4..][i] == l.hash[i];
  }

  /** What every encoded local looks like, and that it parses to the local, or to the zero value if empty. */
  lemma {:induction false} LocalTextParses(c: ByteCodec, l: Local)
    requires Lossless(c) && LocalText(c, l).Some?
    ensures var t := LocalText(c, l).value;
            && t != "" && Plain(t) && t[0] in ['0', '1'] && t != LEGACY_DOMAIN
            && ParseLocal(c, t) == Some(if l.IsEmpty() then EMPTY_LOCAL else l)
  {
    if !l.IsEmpty() {
      HashLenIs(l.hash, |l.hash|);
      var n := if IsTimePulse(l.Pulse()) then HASH_SIZE else HashLen(l.hash);
      var bs := WholeBytes(l)[..HEADER_SIZE + n];
      assert n == HASH_SIZE ==> bs == WholeBytes(l);
      var t := LocalText(c, l).value;
      assert t == [t[0]] + c.encode(bs);
      assert t[1..] == c.encode(bs);
      PaddedPrefix(l, n);
    }
  }

  // ------------------------------------------------------------ round trip

  lemma {:induction false} ParsePlainBody(cs: Codecs, c: ByteCodec, body: string)
    requires body != "" && body[0] in ['0', '1'] && '/' !in body
    ensures ParseReference(cs, c, body) == ParseAddress(c, body)
  {
  }

  lemma {:induction false} TwoPartBody(cs: Codecs, c: ByteCodec, a: string, b: string)
    requires a != "" && Plain(a) && a[0] in ['0', '1'] && b != "" && '/' !in b
    ensures ParseReference(cs, c, a + "." + b) ==
            if b == RECORD_DOMAIN then
              (if ParseLocal(c, a).Some? then Ref(Global(ParseLocal(c, a).value, EMPTY_LOCAL)) else Failed)
            else if b == LEGACY_DOMAIN || ParseLocal(c, b).None? then Failed
            else ParseWithBase(c, a, Some(Global(ParseLocal(c, b).value, ParseLocal(c, b).value)))
  {
    var body := a + "." + b;
    assert body[0] == a[0];
    ParsePlainBody(cs, c, body);
    IndexAfter(a, '.', b);
  }

  /** When a reference survives: it is the zero value, a record, or both its parts have pulses. */
  predicate TextRecoverable(g: Global) {
    || g == Global(EMPTY_LOCAL, EMPTY_LOCAL)
    || (g.base == EMPTY_LOCAL && g.local.Pulse() != UNKNOWN && g.local.SubScope() == 0)
    || (g.local.Pulse() != UNKNOWN && g.base.Pulse() != UNKNOWN)
  }

  /** Two different parts, neither a record: they come back exactly when neither is empty. */
  lemma {:induction false} PartsRoundTrip(cs: Codecs, c: ByteCodec, g: Global, a: string, b: string)
    requires Lossless(c) && LocalText(c, g.local) == Some(a) && LocalText(c, g.base) == Some(b)
    ensures ParseReference(cs, c, a + "." + b) ==
            if g.local.IsEmpty() && g.base.IsEmpty() then Ref(Global(EMPTY_LOCAL, EMPTY_LOCAL))
            else if g.local.IsEmpty() || g.base.IsEmpty() then Failed else Ref(g)
  {
    LocalTextParses(c, g.local);
    LocalTextParses(c, g.base);
    TwoPartBody(cs, c, a, b);
  }

  lemma {:induction false} RecordRoundTrip(cs: Codecs, c: ByteCodec, l: Local, a: string)
    requires Lossless(c) && LocalText(c, l) == Some(a) && !l.IsEmpty()
    ensures ParseReference(cs, c, a + "." + RECORD_DOMAIN) == Ref(Global(l, EMPTY_LOCAL))
    ensures ParseReference(cs, c, a) == Ref(Global(l, l))
  {
    LocalTextParses(c, l);
    TwoPartBody(cs, c, a, RECORD_DOMAIN);
    ParsePlainBody(cs, c, a);
  }

  lemma {:induction false} HasText(c: ByteCodec, l: Local)
    ensures LocalText(c, l).Some? <==> l.IsEmpty() || l.Pulse() != UNKNOWN
  {
  }

  lemma {:induction false} BodyRoundTrip(cs: Codecs, c: ByteCodec, g: Global)
    requires Lossless(c)
    ensures Body(c, g).Some? && ParseReference(cs, c, Body(c, g).value) == Ref(g) <==> TextRecoverable(g)
  {
    HasText(c, g.local);
    HasText(c, g.base);
    if g.local.IsEmpty() && g.base.IsEmpty() {
      ParsePlainBody(cs, c, "0");
    } else if LocalText(c, g.local).Some? {
      var a := LocalText(c, g.local).value;
      if IsRecordScope(g) || IsSelfScope(g) {
        RecordRoundTrip(cs, c, g.local, a);
      } else if LocalText(c, g.base).Some? {
        PartsRoundTrip(cs, c, g, a, LocalText(c, g.base).value);
      }
    }
  }

  /** Decoding the text of a reference gives it back exactly when it is recoverable, for base64 under all
      options and for base58 when the schema names it. */
  lemma {:induction false} TextRoundTrip(cs: Codecs, encoding: Encoding, encodingSchema: bool, formatSchema: bool,
                                         g: Global)
    requires Lossless(cs.For(encoding)) && (encoding.Base64? || encodingSchema)
    ensures var text := EncodeText(cs, NewEncoder(encoding, encodingSchema, formatSchema), g);
            text.Some? && DecodeText(cs, text.value) == Ref(g) <==> TextRecoverable(g)
  {
    var e, c := NewEncoder(encoding, encodingSchema, formatSchema), cs.For(encoding);
    BodyRoundTrip(cs, c, g);
    if Body(c, g).Some? {
      DecodeAfterPrefix(cs, e, Body(c, g).value);
    }
  }

  // ------------------------------------------------------------ DecodeHolder against Decode

  /** The bytes of a local, zero-filled, start with an empty header. */
  predicate HasNoHeader(bs: seq<Byte>)
    requires |bs| <= LOCAL_SIZE
  {
    Padded(bs)[..4] == Zeros(4)
  }

  predicate IsHashOnly(bs: seq<Byte>)
    requires |bs| <= LOCAL_SIZE
  {
    HasNoHeader(bs) && Padded(bs)[4..] != Zeros(28)
  }

  /** A local part that is a hash without a header, alone, as a record, or with a base that is empty too. */
  predicate AddressLosesHash(c: ByteCodec, ref: string) {
    match IndexOf(ref, '.')
    case None => HashOnlyPart(c, ref)
    case Some(p) =>
      var domain := ref[p + 1..];
      && HashOnlyPart(c, ref[..p])
      && (domain == RECORD_DOMAIN
          || (domain != LEGACY_DOMAIN && PartBytes(c, domain).Some? && HasNoHeader(PartBytes(c, domain).value)))
  }

  predicate HashOnlyPart(c: ByteCodec, name: string) {
    PartBytes(c, name).Some? && IsHashOnly(PartBytes(c, name).value)
  }

  function LocalName(ref: string): string {
    match IndexOf(ref, '.')
    case None => ref
    case Some(p) => ref[..p]
  }

  /** The same with an authority before it, or a parity that matches after it. */
  predicate ReferenceLosesHash(cs: Codecs, c: ByteCodec, full: string) {
    var ref := AfterAuthority(full);
    match IndexOf(ref, '/')
    case None => AddressLosesHash(c, ref)
    case Some(p) => AddressLosesHash(c, ref[..p]) && ParityAgrees(cs, c, ref[p + 1..], LocalOnly(c, ref[..p]))
  }

  /** The local part with an empty base. */
  function LocalOnly(c: ByteCodec, ref: string): Global
    requires PartBytes(c, LocalName(ref)).Some?
  {
    Global(WrittenLocal(PartBytes(c, LocalName(ref)).value), EMPTY_LOCAL)
  }

  predicate LegacyLosesHash(cs: Codecs, name: string) {
    var bs := cs.base58.decode(name);
    bs.Some? && |bs.value| == LOCAL_SIZE && IsHashOnly(bs.value)
  }

  /** A text whose local part is a hash without a header. */
  predicate TextLosesHash(cs: Codecs, ref: string) {
    match IndexOf(ref, ':')
    case Some(i) =>
      (match SchemaDecoder(cs, ref[..i])
       case None => false
       case Some(c) => ReferenceLosesHash(cs, c, ref[i + 1..]))
    case None =>
      if IsLegacy(ref) then LegacyLosesHash(cs, ref[..IndexOf(ref, '.').value])
      else ReferenceLosesHash(cs, cs.base64, ref)
  }

  /** The decoded reference is shown differently by its holder. */
  predicate Differs(d: Decoded) { d.Ref? && AsHolder(d.g) != d.g }

  lemma {:induction false} HeaderOfZeros(w: seq<Byte>)
    requires |w| >= 4
    ensures HeaderOf(w) == 0 <==> w[..4] == Zeros(4)
  {
    assert w[..4] == Zeros(4) ==> w[..4][0] == 0 && w[..4][1] == 0 && w[..4][2] == 0 && w[..4][3] == 0;
  }

  lemma {:induction false} WrittenIsPadded(bs: seq<Byte>)
    requires |bs| <= LOCAL_SIZE
    ensures WrittenLocal(bs) == LocalOfBytes(Padded(bs))
  {
    if bs == [] {
      HeaderOfZeros(Padded(bs));
      assert Padded(bs)[..4] == Zeros(4) && Padded(bs)[4..] == ZERO_HASH;
    }
  }

  lemma {:induction false} NoHeaderIsEmpty(bs: seq<Byte>)
    requires |bs| <= LOCAL_SIZE
    ensures HasNoHeader(bs) <==> WrittenLocal(bs).IsEmpty()
    ensures IsHashOnly(bs) <==> WrittenLocal(bs).IsEmpty() && WrittenLocal(bs) != EMPTY_LOCAL
  {
    WrittenIsPadded(bs);
    HeaderOfZeros(Padded(bs));
  }

  lemma {:induction false} PartDiffers(c: ByteCodec, name: string)
    ensures HashOnlyPart(c, name) <==>
            ParseLocal(c, name).Some? && ParseLocal(c, name).value.IsEmpty() && ParseLocal(c, name).value != EMPTY_LOCAL
    ensures PartBytes(c, name).Some? && HasNoHeader(PartBytes(c, name).value) <==>
            ParseLocal(c, name).Some? && ParseLocal(c, name).value.IsEmpty()
  {
    if PartBytes(c, name).Some? {
      NoHeaderIsEmpty(PartBytes(c, name).value);
    }
  }

  lemma {:induction false} WithBaseDiffers(c: ByteCodec, name: string, b: Local)
    requires name != ""
    ensures Differs(ParseWithBase(c, name, None)) <==> HashOnlyPart(c, name)
    ensures Differs(ParseWithBase(c, name, Some(Global(b, b)))) <==> HashOnlyPart(c, name) && b.IsEmpty()
  {
    PartDiffers(c, name);
    WithBaseGives(c, name, b);
  }

  /** What a parsed local part becomes, alone or with a base. */
  lemma {:induction false} WithBaseGives(c: ByteCodec, name: string, b: Local)
    requires name != ""
    ensures var l := ParseLocal(c, name);
            && ParseWithBase(c, name, None) ==
                 (if l.None? then Failed
                  else if l.value.IsEmpty() then Ref(Global(l.value, EMPTY_LOCAL)) else Ref(Global(l.value, l.value)))
            && ParseWithBase(c, name, Some(Global(b, b))) ==
                 (if l.None? || l.value.IsEmpty() != b.IsEmpty() then Failed
                  else if b.IsEmpty() then Ref(Global(l.value, EMPTY_LOCAL)) else Ref(Global(l.value, b)))
  {
  }

  lemma {:induction false} AddressDiffers(c: ByteCodec, ref: string)
    requires ref != ""
    ensures Differs(ParseAddress(c, ref)) <==> AddressLosesHash(c, ref)
  {
    var p := IndexOf(ref, '.');
    if p.None? {
      WithBaseDiffers(c, ref, EMPTY_LOCAL);
    } else {
      DomainDiffers(c, ref, p.value, ref[..p.value], ref[p.value + 1..]);
    }
  }

  lemma {:induction false} DomainDiffers(c: ByteCodec, ref: string, p: nat, name: string, domain: string)
    requires IndexOf(ref, '.') == Some(p) && name == ref[..p] && domain == ref[p + 1..]
    ensures Differs(ParseAddress(c, ref)) <==> AddressLosesHash(c, ref)
  {
    if name != "" && domain == RECORD_DOMAIN {
      PartDiffers(c, name);
    } else if name != "" && domain != "" && domain != LEGACY_DOMAIN {
      PartDiffers(c, domain);
      if ParseLocal(c, domain).Some? {
        WithBaseDiffers(c, name, ParseLocal(c, domain).value);
      }
    }
  }

  /** A text that loses its hash is the local part and an empty base. */
  lemma {:induction false} LosingAddressGives(c: ByteCodec, ref: string)
    requires ref != "" && AddressLosesHash(c, ref)
    ensures ParseAddress(c, ref) == Ref(LocalOnly(c, ref))
  {
    var name, p := LocalName(ref), IndexOf(ref, '.');
    PartDiffers(c, name);
    if p.Some? && ref[p.value + 1..] != RECORD_DOMAIN {
      var domain := ref[p.value + 1..];
      PartDiffers(c, domain);
      WithBaseGives(c, name, ParseLocal(c, domain).value);
    }
  }

  lemma {:induction false} ReferenceDiffers(cs: Codecs, c: ByteCodec, full: string)
    ensures Differs(ParseReference(cs, c, full)) <==> ReferenceLosesHash(cs, c, full)
  {
    var ref := AfterAuthority(full);
    if ref != "" {
      var p := IndexOf(ref, '/');
      if p.None? {
        AddressDiffers(c, ref);
      } else if p.value > 0 {
        ParityDiffers(cs, c, ref[..p.value], ref[p.value + 1..]);
      }
    }
  }

  lemma {:induction false} ParityDiffers(cs: Codecs, c: ByteCodec, address: string, encoded: string)
    requires address != ""
    ensures Differs(AfterParity(cs, c, encoded, ParseAddress(c, address))) <==>
            AddressLosesHash(c, address) && ParityAgrees(cs, c, encoded, LocalOnly(c, address))
  {
    AddressDiffers(c, address);
    ParityKeeps(cs, c, encoded, ParseAddress(c, address));
    if AddressLosesHash(c, address) {
      LosingAddressGives(c, address);
    }
  }

  lemma {:induction false} ParityKeeps(cs: Codecs, c: ByteCodec, encoded: string, d: Decoded)
    ensures Differs(AfterParity(cs, c, encoded, d)) <==> Differs(d) && ParityAgrees(cs, c, encoded, d.g)
  {
  }

  lemma {:induction false} LegacyDiffers(cs: Codecs, name: string)
    ensures Differs(ParseLegacy(cs, name)) <==> LegacyLosesHash(cs, name)
  {
    var bs := cs.base58.decode(name);
    if bs.Some? && |bs.value| == LOCAL_SIZE {
      assert Padded(bs.value) == bs.value;
      NoHeaderIsEmpty(bs.value);
    }
  }

  lemma {:induction false} TextDiffers(cs: Codecs, ref: string)
    ensures Differs(DecodeText(cs, ref)) <==> TextLosesHash(cs, ref)
  {
    var i := IndexOf(ref, ':');
    if i.Some? {
      if SchemaDecoder(cs, ref[..i.value]).Some? {
        ReferenceDiffers(cs, SchemaDecoder(cs, ref[..i.value]).value, ref[i.value + 1..]);
      }
    } else if IsLegacy(ref) {
      LegacyDiffers(cs, ref[..IndexOf(ref, '.').value]);
    } else {
      ReferenceDiffers(cs, cs.base64, ref);
    }
  }

  /** For every text, DecodeHolder differs from Decode exactly when the local part is a hash without a header. */
  lemma {:induction false} HolderDiffersExactly(cs: Codecs, ref: string)
    ensures DecodeHolderText(cs, ref) != DecodeText(cs, ref) <==> TextLosesHash(cs, ref)
  {
    TextDiffers(cs, ref);
    HolderOfDecoded(DecodeText(cs, ref));
  }

  lemma {:induction false} HolderOfDecoded(d: Decoded)
    ensures Held(d) != d <==> Differs(d)
  {
  }

  lemma {:induction false} RecoverableIsHeld(g: Global)
    requires TextRecoverable(g)
    ensures Held(Ref(g)) == Ref(g)
  {
  }

  /** So DecodeHolder gives back what was encoded wherever Decode does. */
  lemma {:induction false} HolderRoundTrip(cs: Codecs, encoding: Encoding, encodingSchema: bool, formatSchema: bool,
                                           g: Global)
    requires Lossless(cs.For(encoding)) && (encoding.Base64? || encodingSchema) && TextRecoverable(g)
    ensures var text := EncodeText(cs, NewEncoder(encoding, encodingSchema, formatSchema), g);
            text.Some? && DecodeHolderText(cs, text.value) == Ref(g)
  {
    TextRoundTrip(cs, encoding, encodingSchema, formatSchema, g);
    RecoverableIsHeld(g);
  }

  lemma {:induction false} SinglePartBody(cs: Codecs, c: ByteCodec, bs: seq<Byte>, l: Local)
    requires Lossless(c) && 0 < |bs| <= LOCAL_SIZE && l == WrittenLocal(bs) && l.IsEmpty()
    ensures ParseReference(cs, c, "0" + c.encode(bs)) == Ref(Global(l, EMPTY_LOCAL))
  {
    var body := "0" + c.encode(bs);
    ParsePlainBody(cs, c, body);
    assert body[1..] == c.encode(bs);
  }

  lemma {:induction false} EmptyHeader(w: seq<Byte>)
    requires |w| == LOCAL_SIZE && w[0] == w[1] == w[2] == w[3] == 0
    ensures LocalOfBytes(w).IsEmpty()
  {
  }

  lemma {:induction false} FirstHashByte(w: seq<Byte>)
    requires |w| == LOCAL_SIZE
    ensures LocalOfBytes(w).hash[0] == w[4]
  {
  }

  lemma {:induction false} PaddedStarts(bs: seq<Byte>, i: nat)
    requires i < |bs| <= LOCAL_SIZE
    ensures Padded(bs)[i] == bs[i]
  {
  }

  lemma {:induction false} HashWithoutHeader(bs: seq<Byte>, w: seq<Byte>)
    requires 5 <= |bs| <= LOCAL_SIZE && w == Padded(bs) && bs[0] == bs[1] == bs[2] == bs[3] == 0 && bs[4] != 0
    ensures LocalOfBytes(w).IsEmpty() && LocalOfBytes(w).hash[0] != 0
  {
    PaddedStarts(bs, 0);
    PaddedStarts(bs, 1);
    PaddedStarts(bs, 2);
    PaddedStarts(bs, 3);
    PaddedStarts(bs, 4);
    EmptyHeader(w);
    FirstHashByte(w);
  }

  /** Such a text: four zero bytes and one more. */
  lemma {:induction false} HolderLosesHash(cs: Codecs)
    requires Lossless(cs.base64)
    ensures var ref := Prefix(NewEncoder(Base64, false, true)) + ("0" + cs.base64.encode([0, 0, 0, 0, 1]));
            DecodeText(cs, ref).Ref? && DecodeHolderText(cs, ref) != DecodeText(cs, ref)
  {
    var bs: seq<Byte> := [0, 0, 0, 0, 1];
    HashWithoutHeader(bs, Padded(bs));
    SinglePartBody(cs, cs.base64, bs, WrittenLocal(bs));
    DecodeAfterPrefix(cs, NewEncoder(Base64, false, true), "0" + cs.base64.encode(bs));
  }
}
