/** What single fields read as, which are refused, and the very bytes of a locator. */
module ExtLocatorLaws {
  import opened Bytes
  import opened Varint
  import opened FieldLoop
  import opened ExtLocators
  import opened ExtLocatorsReader
  import opened UnknownFields

  /** The conversion to int32. */
  lemma {:induction false} Int32Exactly(v: nat)
    ensures -0x8000_0000 <= Int32(v) < 0x8000_0000
    ensures exists k: int :: Int32(v) == v + k * 0x1_0000_0000
  {
    var q: int := v / U32;
    assert v % U32 == v - q * U32;
    assert Int32(v) == v + (-q) * 0x1_0000_0000 || Int32(v) == v + (-q - 1) * 0x1_0000_0000;
  }

  /** The field number and the wire type in a tag. */
  function TagNumber(tag: seq<Byte>): int { Int32(VarintValue(tag) % U64 / 8) }

  lemma {:induction false} IdReads(tag: seq<Byte>, payload: seq<Byte>, more: seq<Byte>)
    requires IsTag(tag, 0) && TagNumber(tag) == 17 && IsVarint(payload)
    ensures FieldAt(tag + (payload + more))
         == Parsed((ID(VarintValue(payload) % 0x1_0000_0000), |tag| + |payload|))
  {
    TagReads(tag, payload + more);
    ReadCuts(payload, more);
    assert (tag + (payload + more))[|tag|..] == payload + more;
  }

  lemma {:induction false} SizeReads(tag: seq<Byte>, payload: seq<Byte>, more: seq<Byte>)
    requires IsTag(tag, 0) && TagNumber(tag) == 20 && IsVarint(payload)
    ensures FieldAt(tag + (payload + more))
         == Parsed((Size(VarintValue(payload) % 0x1_0000_0000), |tag| + |payload|))
  {
    TagReads(tag, payload + more);
    ReadCuts(payload, more);
    assert (tag + (payload + more))[|tag|..] == payload + more;
  }

  /** Eight bytes, the least significant first. */
  lemma {:induction false} LocReads(tag: seq<Byte>, payload: seq<Byte>, more: seq<Byte>, v: Uint64)
    requires IsTag(tag, 1) && TagNumber(tag) == 18 && payload == Fixed64(v, 8)
    ensures FieldAt(tag + (payload + more)) == Parsed((Loc(v), |tag| + 8))
  {
    TagReads(tag, payload + more);
    assert (tag + (payload + more))[|tag|..|tag| + 8] == payload;
    assert Pow256(8) == U64;
    FixedRoundTrip(v, 8);
  }

  /** A field is refused for its tag: an end of a group, a number that is not positive, a known number with another
      wire type; or for its value: cut short or too long. */
  lemma {:induction false} FieldRefused(tag: seq<Byte>, more: seq<Byte>)
    requires IsVarint(tag)
    ensures tag[0] % 8 == 4 || TagNumber(tag) <= 0 ==> FieldAt(tag + more) == Malformed
    ensures (TagNumber(tag) == 17 || TagNumber(tag) == 20) && tag[0] % 8 != 0 ==> FieldAt(tag + more) == Malformed
    ensures TagNumber(tag) == 18 && (tag[0] % 8 != 1 || |more| < 8) ==> FieldAt(tag + more) == Malformed
    ensures (TagNumber(tag) == 17 || TagNumber(tag) == 20) && !Decode(more, MAX_VARINT).ReadOk? ==>
              FieldAt(tag + more) == Malformed
  {
    TagReads(tag, more);
    assert (tag + more)[|tag|..] == more;
  }

  /** The same for the entries of a list, whose only number is 17, with a length. */
  lemma {:induction false} EntryRefused(tag: seq<Byte>, more: seq<Byte>)
    requires IsVarint(tag)
    ensures tag[0] % 8 == 4 || TagNumber(tag) <= 0 ==> EntryAt(tag + more) == Malformed
    ensures TagNumber(tag) == 17 && tag[0] % 8 != 2 ==> EntryAt(tag + more) == Malformed
  {
    TagReads(tag, more);
  }

  /** A record is refused when its length runs past the data, or its body is refused. */
  lemma {:induction false} RecordRefused(parse: seq<Byte> -> Parsed<ExtLocator>, len: seq<Byte>, body: seq<Byte>)
    requires IsVarint(len)
    ensures VarintValue(len) % U64 > |body| ==> Framed(parse, len + body) == Malformed
    ensures VarintValue(len) % U64 == |body| && parse(body).Malformed? ==> Framed(parse, len + body) == Malformed
  {
    ReadCuts(len, body);
    assert (len + body)[|len|..|len| + |body|] == body;
  }

  // ------------------------------------------------------------ two encodings of a locator

  /** The later value of a field counts, where there is one. */
  function Merge(a: ExtLocator, b: ExtLocator): ExtLocator {
    ExtLocator(if b.extensionID != 0 then b.extensionID else a.extensionID,
               if b.payloadLoc != 0 then b.payloadLoc else a.payloadLoc,
               if b.payloadSize != 0 then b.payloadSize else a.payloadSize)
  }

  lemma {:induction false} AssembleOnto(fs: seq<Field>, f: Field)
    ensures Assemble(fs + [f]) == Apply(Assemble(fs), f)
  {
    assert (fs + [f])[..|fs|] == fs;
  }

  function Onto(m: ExtLocator, x: seq<Field>): ExtLocator {
    if x == [] then m else Apply(m, x[0])
  }

  lemma {:induction false} AssembleMaybe(fs: seq<Field>, x: seq<Field>)
    requires |x| <= 1
    ensures Assemble(fs + x) == Onto(Assemble(fs), x)
  {
    if x == [] {
      assert fs + x == fs;
    } else {
      assert x == [x[0]];
      AssembleOnto(fs, x[0]);
    }
  }

  lemma {:induction false} AssembleThree(fs: seq<Field>, x: seq<Field>, y: seq<Field>, z: seq<Field>)
    requires |x| <= 1 && |y| <= 1 && |z| <= 1
    ensures Assemble(fs + (x + y + z)) == Onto(Onto(Onto(Assemble(fs), x), y), z)
  {
    assert fs + (x + y + z) == fs + x + y + z;
    AssembleMaybe(fs, x);
    AssembleMaybe(fs + x, y);
    AssembleMaybe(fs + x + y, z);
  }

  lemma {:induction false} AssembleAfter(fs: seq<Field>, b: ExtLocator)
    ensures Assemble(fs + FieldsOf(b)) == Merge(Assemble(fs), b)
  {
    var x := if b.extensionID != 0 then [ID(b.extensionID)] else [];
    var y := if b.payloadLoc != 0 then [Loc(b.payloadLoc)] else [];
    var z := if b.payloadSize != 0 then [Size(b.payloadSize)] else [];
    AssembleThree(fs, x, y, z);
  }

  /** Two encodings of a locator one after the other read as the later values over the earlier ones. */
  lemma {:induction false} LocatorsMerge(a: ExtLocator, b: ExtLocator)
    ensures ParseLocator(LocatorBytes(a) + LocatorBytes(b)) == Parsed(Merge(a, b))
  {
    FieldStable();
    FieldsRead(a);
    FieldsRead(b);
    ReadAllAppend(FieldAt, LocatorBytes(a), LocatorBytes(b));
    FieldsAssemble(a);
    AssembleAfter(FieldsOf(a), b);
  }

  lemma {:induction false} FieldsRead(m: ExtLocator)
    ensures ReadAll(FieldAt, LocatorBytes(m), []) == Parsed(FieldsOf(m))
  {
    FieldStable();
    ChunksAreBytes(m);
    ChunksRead(m);
    ReadAllJoined(FieldAt, ChunksOf(m), FieldsOf(m), []);
    assert [] + FieldsOf(m) == FieldsOf(m);
  }

  // ------------------------------------------------------------ the very bytes

  /** Field 17 as a varint, 18 as eight bytes and 20 as a varint, each left out when zero; a record is field 17. */
  lemma {:induction false} LocatorBytesAre()
    ensures LocatorBytes(ExtLocator(1, 2, 300))
         == [0x88, 0x01, 1, 0x91, 0x01, 2, 0, 0, 0, 0, 0, 0, 0, 0xa0, 0x01, 0xac, 0x02]
    ensures LocatorBytes(ExtLocator(0, 0, 5)) == [0xa0, 0x01, 5] && LocatorBytes(ExtLocator(0, 0, 0)) == []
    ensures LengthField(0) == [0x8a, 0x01, 0] && LengthField(300) == [0x8a, 0x01, 0xac, 0x02]
  {
    assert Encode(300) == [0xac] + Encode(2);
    FixedTwo();
  }

  lemma {:induction false} FixedTwo()
    ensures Fixed64(2, 8) == [2, 0, 0, 0, 0, 0, 0, 0]
  {
    FixedZero(7);
    assert Fixed64(2, 8) == [2] + Fixed64(0, 7);
  }

  lemma {:induction false} FixedZero(n: nat)
    ensures Fixed64(0, n) == seq(n, _ => 0)
  {
    if n > 0 {
      FixedZero(n - 1);
    }
  }
}
