/** The byte reader and byte writer of a local (ledger-core/reference/local.go), and the parts of the textual
    encoder and decoder that work through them (encoder.go, decoder.go, byte_encoder.go, byte_decoder.go). */
module ReferenceTextIO {
  import opened Bytes
  import opened PulseNumber
  import opened Reference
  import opened ReferenceText

  /** byte(v >> (3 - o) << 3) */
  function ByteAt(v: Number, o: nat): Byte
    requires o < 4
  {
    if o == 0 then v / 0x100_0000
    else if o == 1 then v / 0x1_0000 % 256
    else if o == 2 then v / 0x100 % 256
    else v % 256
  }

  function WeightAt(o: nat): nat {
    if o == 0 then 0x100_0000 else if o == 1 then 0x1_0000 else if o == 2 then 0x100 else 1
  }

  /** The byte at o taken out of v and c put in its place. */
  function WithByteAt(v: Number, o: nat, c: Byte): (v': Number)
    requires o < 4
    ensures HeaderBytes(v') == HeaderBytes(v)[o := c]
  {
    SwapByte(v, o, c);
    v - WeightAt(o) * ByteAt(v, o) + WeightAt(o) * c
  }

  lemma {:induction false} SwapByte(v: Number, o: nat, c: Byte)
    requires o < 4
    ensures var v' := v - WeightAt(o) * ByteAt(v, o) + WeightAt(o) * c;
            0 <= v' < 0x1_0000_0000 && HeaderBytes(v') == HeaderBytes(v)[o := c]
  {
    var bs := HeaderBytes(v);
    HeaderRoundTrip(v);
    BytesOfHeader(bs[o := c]);
    WordSwap(bs[0], bs[1], bs[2], bs[3], o, c);
  }

  lemma {:induction false} WordSwap(x: int, y: int, z: int, w: int, o: nat, c: int)
    requires o < 4
    ensures var before := if o == 0 then x else if o == 1 then y else if o == 2 then z else w;
            Word(if o == 0 then c else x, if o == 1 then c else y, if o == 2 then c else z, if o == 3 then c else w)
            == Word(x, y, z, w) - WeightAt(o) * before + WeightAt(o) * c
  {
  }

  lemma {:induction false} LocalOfWhole(l: Local)
    ensures LocalOfBytes(WholeBytes(l)) == l
  {
    HeaderRoundTrip(l.header);
    assert forall i :: 0 <= i < 4 ==> WholeBytes(l)[i] == HeaderBytes(l.header)[i];
  }

  class ByteWriter {
    var header: Number
    var hash: Hash
    var o: nat

    ghost function Value(): Local
      reads this
    {
      Local(header, hash)
    }

    constructor ()
      ensures o == 0 && Value() == EMPTY_LOCAL
    {
      header, hash, o := 0, ZERO_HASH, 0;
    }

    predicate IsFull()
      reads this
    {
      o >= LOCAL_SIZE
    }

    /** The next byte of the local is replaced, until all 32 are written. */
    method WriteByte(c: Byte) returns (ok: bool)
      modifies this
      ensures ok <==> old(o) < LOCAL_SIZE
      ensures if ok then o == old(o) + 1 && WholeBytes(Value()) == old(WholeBytes(Value()))[old(o) := c]
              else o == old(o) && Value() == old(Value())
    {
      if o < HEADER_SIZE {
        header := WithByteAt(header, o, c);
      } else if IsFull() {
        return false;
      } else {
        hash := hash[o - HEADER_SIZE := c];
      }
      o := o + 1;
      ok := true;
    }
  }

  class ByteReader {
    const v: Local
    var o: nat
    const s: nat

    constructor (v: Local, limit: nat)
      ensures this.v == v && s == limit && o == 0
    {
      this.v, s, o := v, limit, 0;
    }

    /** The next byte of the local, the header always and the hash up to the limit. */
    method ReadByte() returns (b: Option<Byte>)
      requires HEADER_SIZE <= s <= LOCAL_SIZE
      modifies this
      ensures b == if old(o) < s then Some(WholeBytes(v)[old(o)]) else None
      ensures o == if b.Some? then old(o) + 1 else old(o)
    {
      if o < HEADER_SIZE {
        b := Some(ByteAt(v.header, o));
      } else if o >= s {
        return None;
      } else {
        b := Some(v.hash[o - HEADER_SIZE]);
      }
      o := o + 1;
    }
  }

  /** The loop of the byte encoders: all that the reader gives. */
  method ReadOut(l: Local, limit: nat) returns (bytes: seq<Byte>)
    requires HEADER_SIZE <= limit <= LOCAL_SIZE
    ensures bytes == WholeBytes(l)[..limit]
  {
    var r := new ByteReader(l, limit);
    bytes := [];
    var b := r.ReadByte();
    while b.Some?
      invariant |bytes| <= limit && bytes == WholeBytes(l)[..|bytes|]
      invariant if b.None? then |bytes| == limit
                else |bytes| < limit && r.o == |bytes| + 1 && b.value == WholeBytes(l)[|bytes|]
      decreases limit - |bytes|
    {
      bytes := bytes + [b.value];
      b := r.ReadByte();
    }
  }

  /** encodeBinary; None is its panic. */
  method EncodeBinary(c: ByteCodec, l: Local) returns (text: Option<string>)
    ensures text == LocalText(c, l)
  {
    if l.IsEmpty() {
      return Some("0");
    } else if IsTimePulse(l.Pulse()) {
      var bytes := ReadOut(l, LOCAL_SIZE);
      assert bytes == WholeBytes(l);
      return Some("1" + c.encode(bytes));
    } else if IsSpecialOrPrivate(l.Pulse()) {
      var limit := HashLenLoop(l.hash);
      var bytes := ReadOut(l, limit + HEADER_SIZE);
      return Some("0" + c.encode(bytes));
    }
    text := None;
  }

  /** EncodeToBuilder */
  method EncodeToBuilder(cs: Codecs, e: Encoder, g: Global) returns (text: Option<string>)
    ensures text == EncodeText(cs, e, g)
  {
    var c := cs.For(e.encoding);
    var b := Prefix(e);
    if g.local.IsEmpty() && g.base.IsEmpty() {
      return Some(b + "0");
    }
    var local := EncodeBinary(c, g.local);
    if local.None? {
      return None;
    }
    b := b + local.value;
    if IsRecordScope(g) {
      b := b + ("." + RECORD_DOMAIN);
      assert b == Prefix(e) + (local.value + "." + RECORD_DOMAIN);
    } else if !IsSelfScope(g) {
      var base := EncodeBinary(c, g.base);
      if base.None? {
        return None;
      }
      b := b + "." + base.value;
      assert b == Prefix(e) + (local.value + "." + base.value);
    }
    text := Some(b);
  }

  lemma {:induction false} PaddedNothing()
    ensures WholeBytes(EMPTY_LOCAL) == Padded([])
  {
  }

  lemma {:induction false} PaddedSnoc(bs: seq<Byte>, i: nat)
    requires i < |bs| && i < LOCAL_SIZE
    ensures Padded(bs[..i + 1]) == Padded(bs[..i])[i := bs[i]]
  {
  }

  /** The loop of the byte decoders, into a new writer. */
  method WriteAll(w: ByteWriter, bytes: seq<Byte>) returns (ok: bool)
    requires w.o == 0 && w.Value() == EMPTY_LOCAL
    modifies w
    ensures ok <==> |bytes| <= LOCAL_SIZE
    ensures ok ==> w.o == |bytes| && WholeBytes(w.Value()) == Padded(bytes)
  {
    PaddedNothing();
    for i := 0 to |bytes|
      invariant w.o == i <= LOCAL_SIZE && WholeBytes(w.Value()) == Padded(bytes[..i])
    {
      ok := w.WriteByte(bytes[i]);
      if !ok {
        return;
      }
      PaddedSnoc(bytes, i);
    }
    assert bytes[..|bytes|] == bytes;
    ok := true;
  }

  /** parseBinaryAddress; None is any of its errors. */
  method ParseBinaryAddress(c: ByteCodec, name: string) returns (r: Option<Local>)
    requires name != ""
    ensures r == ParseLocal(c, name)
  {
    if name[0] != '0' && name[0] != '1' {
      return None;
    } else if name[0] == '0' && |name| == 1 {
      return Some(EMPTY_LOCAL);
    }
    var bytes := c.decode(name[1..]);
    if bytes.None? {
      return None;
    }
    var w := new ByteWriter();
    var ok := WriteAll(w, bytes.value);
    if !ok || (name[0] == '1' && !w.IsFull()) {
      return None;
    }
    LocalOfWhole(w.Value());
    WrittenIsPadded(bytes.value);
    r := Some(Local(w.header, w.hash));
  }
}
