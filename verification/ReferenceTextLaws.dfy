/** The layout of the textual form of references, and what the decoder makes of other texts. */
module ReferenceTextLaws {
  import opened Bytes
  import opened PulseNumber
  import opened Reference
  import opened ReferenceText

  // ------------------------------------------------------------ layout

  /** An encoded local is "0" if empty; else "1" and all its bytes for a time pulse, or "0" and its bytes without the
      zeros at the end of its hash for any other pulse. */
  lemma {:induction false} LocalTextIs(c: ByteCodec, l: Local, n: nat)
    requires IsHashLen(l.hash, n)
    ensures LocalText(c, l) ==
            if l.header == 0 then Some("0")
            else if l.Pulse() == 0 then None
            else if l.Pulse() > 65536 then Some("1" + c.encode(WholeBytes(l)))
            else Some("0" + c.encode(HeaderBytes(l.header) + l.hash[..n]))
  {
    HashLenUnique(l.hash, n);
    FilledTrimmed(l.hash);
    assert WholeBytes(l)[..4 + n] == HeaderBytes(l.header) + l.hash[..n];
  }

  /** A reference is "0" if empty, its local and the record domain for a record without scope, its local alone for a
      self reference, and else its local and its base. */
  lemma {:induction false} BodyIs(c: ByteCodec, g: Global)
    ensures Body(c, g) ==
            var local, base := LocalText(c, g.local), LocalText(c, g.base);
            if g.local.header == 0 && g.base.header == 0 then Some("0")
            else if local.None? then None
            else if g.base.header == 0 && g.local.header / 0x4000_0000 == 0 && g.local.header != 0 then
              Some(local.value + ".record")
            else if g.local.header != 0 && g.base == g.local then local
            else if base.None? then None else Some(local.value + "." + base.value)
  {
    if LocalText(c, g.local).Some? {
      var local := LocalText(c, g.local).value;
      assert local + "." + RECORD_DOMAIN == local + ".record";
    }
  }

  /** The schema that every encoder writes. */
  lemma {:induction false} PrefixIs()
    ensures Prefix(NewEncoder(Base64, true, true)) == Prefix(NewEncoder(Base64, true, false)) == "insolar+base64:"
    ensures Prefix(NewEncoder(Base64, false, true)) == Prefix(NewEncoder(Base64, false, false)) == "insolar:"
    ensures Prefix(NewEncoder(Base58, true, true)) == "insolar+base58:"
    ensures Prefix(NewEncoder(Base58, true, false)) == "base58:"
    ensures Prefix(NewEncoder(Base58, false, true)) == "insolar:" && Prefix(NewEncoder(Base58, false, false)) == ""
  {
  }

  // ------------------------------------------------------------ one part

  /** A part of a reference holds the bytes bs exactly when it is "0" and they are none,
    or "0" before at most 32 encoded
      bytes, or "1" before exactly 32. */
  lemma {:induction false} PartBytesExactly(c: ByteCodec, name: string, bs: seq<Byte>)
    ensures PartBytes(c, name) == Some(bs) <==>
            || (name == "0" && bs == [])
            || (|name| > 1 && name[0] == '0' && c.decode(name[1..]) == Some(bs) && |bs| <= 32)
            || (|name| > 0 && name[0] == '1' && c.decode(name[1..]) == Some(bs) && |bs| == 32)
  {
  }

  /** They fill the local from the most significant byte of its header on, and the rest is zero. */
  lemma {:induction false} PartReads(c: ByteCodec, name: string, bs: seq<Byte>, w: seq<Byte>)
    requires PartBytes(c, name) == Some(bs) && |w| == 32 && bs <= w && forall i :: |bs| <= i < 32 ==> w[i] == 0
    ensures ParseLocal(c, name) == Some(Local(HeaderOf(w), w[4..]))
  {
    WrittenIsPadded(bs);
    PaddedIs(bs, w);
  }

  lemma {:induction false} PaddedIs(bs: seq<Byte>, w: seq<Byte>)
    requires |w| == 32 && bs <= w && forall i :: |bs| <= i < 32 ==> w[i] == 0
    ensures Padded(bs) == w
  {
  }

  // ------------------------------------------------------------ addresses

  /** Two parts, in order: a local part before "record" is a record, before the legacy domain nothing is accepted, and
      before another part both are accepted exactly when both or neither is empty. */
  lemma {:induction false} AddressReadExactly(c: ByteCodec, a: string, b: string)
    requires '.' !in a
    ensures var l, d := ParseLocal(c, a), ParseAddress(c, a + "." + b);
            if a == "" || b == "" || b == "11111111111111111111111111111111" || l.None? then d == Failed
            else if b == "record" then d == Ref(Global(l.value, EMPTY_LOCAL))
            else if ParseLocal(c, b).None? || l.value.IsEmpty() != ParseLocal(c, b).value.IsEmpty() then d == Failed
            else d == Ref(Global(l.value, if l.value.IsEmpty() then EMPTY_LOCAL else ParseLocal(c, b).value))
  {
    IndexAfter(a, '.', b);
    if a != "" && ParseLocal(c, b).Some? {
      WithBaseGives(c, a, ParseLocal(c, b).value);
    } else if a != "" {
      WithBaseGives(c, a, EMPTY_LOCAL);
    }
  }

  /** One part alone is a self reference, or empty. */
  lemma {:induction false} LoneReadExactly(c: ByteCodec, a: string)
    requires a != "" && '.' !in a
    ensures var l, d := ParseLocal(c, a), ParseAddress(c, a);
            if l.None? then d == Failed
            else d == Ref(Global(l.value, if l.value.IsEmpty() then EMPTY_LOCAL else l.value))
  {
    WithBaseGives(c, a, EMPTY_LOCAL);
  }

  /** A base is applied to a local part without one exactly when it is a self reference, or its parts have the scopes of
      a member of a local or of a global domain. */
  lemma {:induction false} ApplyBaseExactly(g: Global, base: Global)
    ensures TryApplyBase(g, base) ==
            if g.base.header == 0
               && ((base.local.header != 0 && base.base == base.local)
                   || (base.base.SubScope() == 1 && base.local.SubScope() == 0)
                   || (base.base.SubScope() == 3 && base.local.SubScope() == 3))
            then Some(Global(g.local, base.local)) else None
  {
  }

  // ------------------------------------------------------------ around an address

  /** An authority is left out, and is not enough. */
  lemma {:induction false} AuthorityIsLeftOut(cs: Codecs, c: ByteCodec, authority: string, body: string)
    requires '/' !in authority
    ensures ParseReference(cs, c, "//" + authority + "/" + body) == ParsePlain(cs, c, body)
    ensures authority != "" ==> ParseReference(cs, c, "//" + authority) == Failed
  {
    assert ("//" + authority)[..2] == "//" && ("//" + authority)[2..] == authority;
    var full := "//" + authority + "/" + body;
    assert full[..2] == "//" && full[2..] == authority + "/" + body;
    IndexAfter(authority, '/', body);
  }

  /** A reference without an authority: its address, checked by the parity after it if there is one. */
  function ParsePlain(cs: Codecs, c: ByteCodec, ref: string): Decoded {
    if ref == "" then Failed
    else
      match IndexOf(ref, '/')
      case None => ParseAddress(c, ref)
      case Some(p) => if p == 0 then Failed else AfterParity(cs, c, ref[p + 1..], ParseAddress(c, ref[..p]))
  }

  /** A parity is "2" and encoded bytes, and must be the one of the reference; a missing one panics. */
  lemma {:induction false} ParityReadExactly(cs: Codecs, c: ByteCodec, address: string, encoded: string)
    requires address != "" && '/' !in address && !(|address| >= 2 && address[..2] == "//")
    ensures var d, r := ParseAddress(c, address), ParseReference(cs, c, address + "/" + encoded);
            if encoded == "" then r == Panicked
            else if encoded[0] != '2' || c.decode(encoded[1..]).None? then r == Failed
            else if d.Ref? && !cs.parityOk(d.g, c.decode(encoded[1..]).value) then r == Failed
            else r == d
  {
    IndexAfter(address, '/', encoded);
    NoAuthority(address, encoded);
  }

  lemma {:induction false} NoAuthority(address: string, encoded: string)
    requires address != "" && '/' !in address
    ensures AfterAuthority(address + "/" + encoded) == address + "/" + encoded
  {
    var full := address + "/" + encoded;
    assert full[0] == address[0] && address[0] in address;
    assert |full| >= 2 ==> full[..2][0] == full[0];
  }

  // ------------------------------------------------------------ schemas and the legacy form

  /** A schema is the format, an encoding, or both in either order; nothing else is accepted. */
  lemma {:induction false} SchemaReadExactly(cs: Codecs, a: string, b: string)
    requires '+' !in a && '+' !in b
    ensures SchemaDecoder(cs, a) == if a == "insolar" || a == "base64" then Some(cs.base64)
                                    else if a == "base58" then Some(cs.base58) else None
    ensures SchemaDecoder(cs, a + "+" + b) ==
            if (a == "insolar" && b == "base64") || (a == "base64" && b == "insolar") then Some(cs.base64)
            else if (a == "insolar" && b == "base58") || (a == "base58" && b == "insolar") then Some(cs.base58)
            else None
  {
    SplitOne(a);
    SplitTwo(a, b);
  }

  lemma {:induction false} LongSchemaRefused(cs: Codecs, a: string, b: string, more: string)
    requires '+' !in a && '+' !in b
    ensures SchemaDecoder(cs, a + "+" + (b + "+" + more)) == None
  {
    var rest := b + "+" + more;
    IndexAfter(a, '+', rest);
    IndexAfter(b, '+', more);
    SplitIsSome(more);
    assert SplitPlus(rest) == [b] + SplitPlus(more) && SplitPlus(a + "+" + rest) == [a] + SplitPlus(rest);
  }

  lemma {:induction false} SplitIsSome(s: string)
    ensures SplitPlus(s) != []
  {
  }

  /** Without a schema, base64 is read, but for the legacy form: at least 32 characters of base58 and the legacy
      domain, of exactly 32 bytes without a scope. */
  lemma {:induction false} LegacyReadExactly(cs: Codecs, name: string)
    requires '.' !in name && ':' !in name && |name| >= 32
    ensures var d, bs := DecodeText(cs, name + "." + LEGACY_DOMAIN), cs.base58.decode(name);
            if bs.Some? && |bs.value| == 32 && LocalOfBytes(bs.value).SubScope() == 0
            then d == Ref(Global(LocalOfBytes(bs.value), LocalOfBytes(bs.value))) else d == Failed
  {
    var ref := name + "." + LEGACY_DOMAIN;
    IndexAfter(name, '.', LEGACY_DOMAIN);
    assert ':' !in LEGACY_DOMAIN && ':' !in ref;
    assert ref[..|name|] == name;
  }

  lemma {:induction false} NoSchemaReads(cs: Codecs, ref: string)
    requires ':' !in ref && !IsLegacy(ref)
    ensures DecodeText(cs, ref) == ParseReference(cs, cs.base64, ref)
  {
  }

  lemma {:induction false} SchemaReads(cs: Codecs, schema: string, ref: string)
    requires ':' !in schema
    ensures DecodeText(cs, schema + ":" + ref) ==
            if SchemaDecoder(cs, schema).None? then Failed
            else ParseReference(cs, SchemaDecoder(cs, schema).value, ref)
  {
    IndexAfter(schema, ':', ref);
  }

  /** The zero value in place of a part without a header, whatever its hash. */
  function Shown(l: Local): Local { if l.header == 0 then Local(0, Zeros(28)) else l }

  /** The holder of a text shows both parts of the reference in it; failures and panics are the same. */
  lemma {:induction false} HolderShows(cs: Codecs, ref: string)
    ensures var d, h := DecodeText(cs, ref), DecodeHolderText(cs, ref);
            h == if d.Ref? then Ref(Global(Shown(d.g.local), Shown(d.g.base))) else d
  {
  }
}
