/** Well-formed fields by the Protocol Buffers Encoding guide ("Message Structure", "Length-Delimited Records" and
    "Groups"), and that the skipper of the catalog messages (ledger-core/rms/proto_catalog.pb.go) takes exactly them. */
module UnknownFields {
  import opened Bytes
  import opened Varint
  import opened FieldLoop
  import opened ExtLocators
  import opened ExtLocatorsReader

  /** Fields one after another: a tag with the bytes of its value, or a group between its two tags. */
  datatype Fields =
    | NoFields
    | Value(tag: seq<Byte>, payload: seq<Byte>, rest: Fields)
    | Group(start: seq<Byte>, inner: Fields, end: seq<Byte>, rest: Fields)

  function BytesOf(f: Fields): seq<Byte> {
    match f
    case NoFields => []
    case Value(tag, payload, rest) => tag + payload + BytesOf(rest)
    case Group(start, inner, end, rest) => start + BytesOf(inner) + end + BytesOf(rest)
  }

  /** A tag is a varint; its lowest three bits are the wire type. */
  predicate IsTag(bs: seq<Byte>, wireType: nat) { IsVarint(bs) && bs[0] % 8 == wireType }

  /** A varint and then as many bytes as it says. */
  ghost predicate IsDelimited(bs: seq<Byte>) {
    exists n :: 0 <= n <= |bs| && IsVarint(bs[..n]) && VarintValue(bs[..n]) % U64 == |bs| - n
  }

  /** The bytes of a value: a varint, eight bytes, a length and as many bytes, or four bytes. */
  ghost predicate IsPayload(bs: seq<Byte>, wireType: nat) {
    || (wireType == 0 && IsVarint(bs))
    || (wireType == 1 && |bs| == 8)
    || (wireType == 2 && IsDelimited(bs))
    || (wireType == 5 && |bs| == 4)
  }

  ghost predicate IsValue(tag: seq<Byte>, payload: seq<Byte>) { IsVarint(tag) && IsPayload(payload, tag[0] % 8) }

  ghost predicate WellFormed(f: Fields) {
    match f
    case NoFields => true
    case Value(tag, payload, rest) => IsValue(tag, payload) && WellFormed(rest)
    case Group(start, inner, end, rest) => IsTag(start, 3) && WellFormed(inner) && IsTag(end, 4) && WellFormed(rest)
  }

  predicate IsOneField(f: Fields) { (f.Value? || f.Group?) && f.rest.NoFields? }

  // ------------------------------------------------------------ one turn of the skipper

  lemma {:induction false} LowBits(bs: seq<Byte>)
    requires bs != []
    ensures VarintValue(bs) % 8 == bs[0] % 8
  {
    LowBitsOf(bs[0], VarintValue(bs[1..]));
  }

  lemma {:induction false} LowBitsOf(b: Byte, v: nat)
    ensures (b % 128 + 128 * v) % 8 == b % 8
  {
    var x := b % 128 / 8 + 16 * v;
    assert b % 128 == b % 8 + 8 * (b % 128 / 8);
    assert b % 128 + 128 * v == b % 8 + 8 * x;
  }

  /** Cutting a value to 64 bits leaves its low bits. */
  lemma {:induction false} CutLowBits(v: nat)
    ensures v % U64 % 8 == v % 8
  {
    assert v == v % U64 + 8 * (U64 / 8 * (v / U64));
  }

  lemma {:induction false} TagReads(tag: seq<Byte>, more: seq<Byte>)
    requires IsVarint(tag)
    ensures ReadTag(tag + more).Tag? && ReadTag(tag + more).count == |tag|
    ensures ReadTag(tag + more).wireType == tag[0] % 8
    ensures ReadTag(tag + more).field == Int32(VarintValue(tag) % U64 / 8)
  {
    ReadCuts(tag, more);
    LowBits(tag);
    CutLowBits(VarintValue(tag));
  }

  lemma {:induction false} PayloadIs(payload: seq<Byte>, more: seq<Byte>, wireType: nat)
    requires IsPayload(payload, wireType) && |payload| < U63
    ensures Payload(payload + more, wireType) == Skipped(|payload|)
  {
    if wireType == 0 {
      VarintReads(payload, more, MAX_VARINT);
    } else if wireType == 2 {
      var n :| 0 <= n <= |payload| && IsVarint(payload[..n]) && VarintValue(payload[..n]) % U64 == |payload| - n;
      VarintReads(payload[..n], payload[n..] + more, MAX_VARINT);
      assert payload + more == payload[..n] + (payload[n..] + more);
    }
  }

  /** What a turn does with a value, a start tag and an end tag. */
  ghost predicate TakesValues(turn: Skipper) {
    forall tag, payload, more, at: nat, depth: nat {:trigger turn(tag + (payload + more), at, depth), IsValue(tag,
      payload)} ::
      IsValue(tag, payload) && at + |tag| + |payload| < U63 ==>
        turn(tag + (payload + more), at, depth)
        == if depth == 0 then Last(|tag| + |payload|) else More(|tag| + |payload|, depth)
  }

  ghost predicate TakesStarts(turn: Skipper) {
    forall tag, more, at: nat, depth: nat {:trigger turn(tag + more, at, depth), IsTag(tag, 3)} ::
      IsTag(tag, 3) && at + |tag| < U63 ==> turn(tag + more, at, depth) == More(|tag|, depth + 1)
  }

  ghost predicate TakesEnds(turn: Skipper) {
    forall tag, more, at: nat, depth: nat {:trigger turn(tag + more, at, depth), IsTag(tag, 4)} ::
      IsTag(tag, 4) && at + |tag| < U63 && depth > 0 ==>
        turn(tag + more, at, depth) == if depth == 1 then Last(|tag|) else More(|tag|, depth - 1)
  }

  lemma {:induction false} ValueTurn(tag: seq<Byte>, payload: seq<Byte>, more: seq<Byte>, at: nat, depth: nat)
    requires IsValue(tag, payload) && at + |tag| + |payload| < U63
    ensures SkipOne(tag + (payload + more), at, depth)
         == if depth == 0 then Last(|tag| + |payload|) else More(|tag| + |payload|, depth)
  {
    TagReads(tag, payload + more);
    PayloadIs(payload, more, tag[0] % 8);
    assert (tag + (payload + more))[|tag|..] == payload + more;
  }

  lemma {:induction false} SkipOneTakes()
    ensures TakesValues(SkipOne) && TakesStarts(SkipOne) && TakesEnds(SkipOne)
  {
    forall tag, payload, more, at: nat, depth: nat | IsValue(tag, payload) && at + |tag| + |payload| < U63
      ensures SkipOne(tag + (payload + more), at, depth)
           == if depth == 0 then Last(|tag| + |payload|) else More(|tag| + |payload|, depth)
    {
      ValueTurn(tag, payload, more, at, depth);
    }
    forall tag, more, at: nat, depth: nat | (IsTag(tag, 3) || IsTag(tag, 4)) && at + |tag| < U63
      ensures IsTag(tag, 3) ==> SkipOne(tag + more, at, depth) == More(|tag|, depth + 1)
      ensures IsTag(tag, 4) && depth > 0 ==>
                SkipOne(tag + more, at, depth) == if depth == 1 then Last(|tag|) else More(|tag|, depth - 1)
    {
      TagReads(tag, more);
    }
  }

  // ------------------------------------------------------------ well-formed fields are skipped

  lemma {:induction false} MoreTurn(turn: Skipper, d: seq<Byte>, n: nat, more: seq<Byte>, at: nat, depth: nat,
                                    depth': nat)
    requires 1 <= n <= |d| && d[n..] == more && turn(d, at, depth) == More(n, depth')
    ensures SkipAll(turn, d, at, depth) == SkipAll(turn, more, at + n, depth')
  {
  }

  lemma {:induction false} ValueSkipped(turn: Skipper, tag: seq<Byte>, payload: seq<Byte>, more: seq<Byte>, at: nat,
                                        depth: nat)
    requires TakesValues(turn) && IsValue(tag, payload) && depth > 0 && at + |tag| + |payload| < U63
    ensures SkipAll(turn, tag + (payload + more), at, depth) == SkipAll(turn, more, at + |tag| + |payload|, depth)
  {
    assert (tag + (payload + more))[|tag| + |payload|..] == more;
    MoreTurn(turn, tag + (payload + more), |tag| + |payload|, more, at, depth, depth);
  }

  lemma {:induction false} StartSkipped(turn: Skipper, tag: seq<Byte>, more: seq<Byte>, at: nat, depth: nat)
    requires TakesStarts(turn) && IsTag(tag, 3) && at + |tag| < U63
    ensures SkipAll(turn, tag + more, at, depth) == SkipAll(turn, more, at + |tag|, depth + 1)
  {
    assert (tag + more)[|tag|..] == more;
    MoreTurn(turn, tag + more, |tag|, more, at, depth, depth + 1);
  }

  lemma {:induction false} EndSkipped(turn: Skipper, tag: seq<Byte>, more: seq<Byte>, at: nat, depth: nat)
    requires TakesEnds(turn) && IsTag(tag, 4) && at + |tag| < U63 && depth > 0
    ensures SkipAll(turn, tag + more, at, depth)
         == if depth == 1 then Skipped(at + |tag|) else SkipAll(turn, more, at + |tag|, depth - 1)
  {
    assert (tag + more)[|tag|..] == more;
    if depth > 1 {
      MoreTurn(turn, tag + more, |tag|, more, at, depth, depth - 1);
    }
  }

  lemma {:induction false} SplitValue(tag: seq<Byte>, payload: seq<Byte>, rest: seq<Byte>, more: seq<Byte>)
    ensures tag + payload + rest + more == tag + (payload + (rest + more))
  {
  }

  lemma {:induction false} SplitGroup(start: seq<Byte>, inner: seq<Byte>, end: seq<Byte>, rest: seq<Byte>,
                                      more: seq<Byte>)
    ensures start + inner + end + rest + more == start + (inner + (end + (rest + more)))
  {
  }

  ghost predicate TakesFields(turn: Skipper) { TakesValues(turn) && TakesStarts(turn) && TakesEnds(turn) }

  lemma {:induction false} ValueThen(turn: Skipper, tag: seq<Byte>, payload: seq<Byte>, rest: seq<Byte>,
                                     more: seq<Byte>, at: nat, depth: nat)
    requires TakesValues(turn) && IsValue(tag, payload) && depth > 0 && at + |tag| + |payload| < U63
    ensures SkipAll(turn, tag + payload + rest + more, at, depth)
         == SkipAll(turn, rest + more, at + |tag + payload|, depth)
  {
    SplitValue(tag, payload, rest, more);
    ValueSkipped(turn, tag, payload, rest + more, at, depth);
  }

  lemma {:induction false} GroupThen(turn: Skipper, start: seq<Byte>, inner: Fields, body: seq<Byte>, end: seq<Byte>,
                                     rest: seq<Byte>, more: seq<Byte>, at: nat, depth: nat)
    requires TakesFields(turn) && IsTag(start, 3) && WellFormed(inner) && body == BytesOf(inner) && IsTag(end, 4)
    requires at + |start + body + end| < U63 && depth > 0
    ensures SkipAll(turn, start + body + end + rest + more, at, depth)
         == SkipAll(turn, rest + more, at + |start + body + end|, depth)
    decreases inner, 2
  {
    SplitGroup(start, body, end, rest, more);
    GroupSkipped(turn, start, inner, body, end, rest + more, at, depth);
  }

  /** Inside a group, fields are skipped one after another. */
  lemma {:induction false} FieldsSkipped(turn: Skipper, f: Fields, more: seq<Byte>, at: nat, depth: nat)
    requires TakesFields(turn) && WellFormed(f) && depth > 0 && at + |BytesOf(f)| < U63
    ensures SkipAll(turn, BytesOf(f) + more, at, depth) == SkipAll(turn, more, at + |BytesOf(f)|, depth)
    decreases f, 0
  {
    match f
    case NoFields => assert BytesOf(f) + more == more;
    case Value(tag, payload, rest) =>
      ValueThen(turn, tag, payload, BytesOf(rest), more, at, depth);
      FieldsSkipped(turn, rest, more, at + |tag + payload|, depth);
    case Group(start, inner, end, rest) =>
      GroupThen(turn, start, inner, BytesOf(inner), end, BytesOf(rest), more, at, depth);
      FieldsSkipped(turn, rest, more, at + |start + BytesOf(inner) + end|, depth);
  }

  /** A group is skipped with its end tag. */
  lemma {:induction false} GroupSkipped(turn: Skipper, start: seq<Byte>, inner: Fields, body: seq<Byte>, end: seq<Byte>,
                                        more: seq<Byte>, at: nat, depth: nat)
    requires TakesFields(turn) && IsTag(start, 3) && WellFormed(inner) && body == BytesOf(inner) && IsTag(end, 4)
    requires at + |start| + |body| + |end| < U63
    ensures var n := |start| + |body| + |end|;
            SkipAll(turn, start + (body + (end + more)), at, depth)
            == if depth == 0 then Skipped(at + n) else SkipAll(turn, more, at + n, depth)
    decreases inner, 1
  {
    StartSkipped(turn, start, body + (end + more), at, depth);
    FieldsSkipped(turn, inner, end + more, at + |start|, depth + 1);
    EndSkipped(turn, end, more, at + |start| + |body|, depth + 1);
  }

  lemma {:induction false} FieldSkippedBy(turn: Skipper, f: Fields, more: seq<Byte>)
    requires TakesFields(turn) && IsOneField(f) && WellFormed(f) && |BytesOf(f)| < U63
    ensures SkipAll(turn, BytesOf(f) + more, 0, 0) == Skipped(|BytesOf(f)|)
  {
    assert [] + more == more;
    match f
    case Value(tag, payload, _) =>
      SplitValue(tag, payload, [], more);
      assert turn(tag + (payload + more), 0, 0) == Last(|tag| + |payload|);
    case Group(start, inner, end, _) =>
      SplitGroup(start, BytesOf(inner), end, [], more);
      GroupSkipped(turn, start, inner, BytesOf(inner), end, more, 0, 0);
  }

  /** The skipper takes exactly one well-formed field, whatever follows it. */
  lemma {:induction false} OneFieldSkipped(f: Fields, more: seq<Byte>)
    requires IsOneField(f) && WellFormed(f) && |BytesOf(f)| < U63
    ensures SkipField(BytesOf(f) + more) == Skipped(|BytesOf(f)|)
  {
    SkipOneTakes();
    FieldSkippedBy(SkipOne, f, more);
  }

  // ------------------------------------------------------------ and nothing else is

  /** The bytes of one turn are a value, a start tag or an end tag, with the depth that follows. */
  ghost predicate IsTurn(tag: seq<Byte>, payload: seq<Byte>, s: SkipStep, depth: nat) {
    || (IsTag(tag, 4) && payload == [] && depth > 0 && s == if depth == 1 then Last(|tag|) else More(|tag|, depth - 1))
    || (IsTag(tag, 3) && payload == [] && s == More(|tag|, depth + 1))
    || (IsValue(tag, payload) && s == if depth == 0 then Last(|tag| + |payload|) else More(|tag| + |payload|, depth))
  }

  predicate Within(s: SkipStep, d: seq<Byte>) { s.More? || (s.Last? && s.count <= |d|) }

  ghost predicate GivesTurns(turn: Skipper) {
    forall d, at: nat, depth: nat {:trigger Within(turn(d, at, depth), d)} :: Within(turn(d, at, depth), d) ==>
      1 <= turn(d, at, depth).count <= |d| && exists tag, payload ::
        tag + payload == d[..turn(d, at, depth).count] && IsTurn(tag, payload, turn(d, at, depth), depth)
  }

  lemma {:induction false} TagTaken(d: seq<Byte>)
    requires ReadTag(d).Tag?
    ensures IsTag(d[..ReadTag(d).count], ReadTag(d).wireType)
  {
    DecodeExactly(d, MAX_VARINT);
    LowBits(d[..ReadTag(d).count]);
    CutLowBits(VarintValue(d[..ReadTag(d).count]));
  }

  lemma {:induction false} PayloadTaken(d: seq<Byte>, wireType: nat)
    requires Payload(d, wireType).Skipped? && Payload(d, wireType).count <= |d| && wireType != 3 && wireType != 4
    ensures IsPayload(d[..Payload(d, wireType).count], wireType)
  {
    DecodeExactly(d, MAX_VARINT);
    if wireType == 2 {
      var n, bs := Decode(d, MAX_VARINT).count, d[..Payload(d, wireType).count];
      assert bs[..n] == d[..n];
    }
  }

  lemma {:induction false} SkipOneGives(d: seq<Byte>, at: nat, depth: nat) returns (tag: seq<Byte>, payload: seq<Byte>)
    requires Within(SkipOne(d, at, depth), d)
    ensures 1 <= SkipOne(d, at, depth).count <= |d|
    ensures tag + payload == d[..SkipOne(d, at, depth).count] && IsTurn(tag, payload, SkipOne(d, at, depth), depth)
  {
    var t, n := ReadTag(d), SkipOne(d, at, depth).count;
    tag, payload := d[..t.count], d[t.count..n];
    TagTaken(d);
    assert d[..n] == tag + payload && payload == d[t.count..][..n - t.count];
    if t.wireType != 3 && t.wireType != 4 {
      PayloadTaken(d[t.count..], t.wireType);
    }
  }

  lemma {:induction false} SkipOneGivesTurns()
    ensures GivesTurns(SkipOne)
  {
    forall d, at: nat, depth: nat | Within(SkipOne(d, at, depth), d)
      ensures 1 <= SkipOne(d, at, depth).count <= |d| && exists tag, payload ::
                tag + payload == d[..SkipOne(d, at, depth).count]
                && IsTurn(tag, payload, SkipOne(d, at, depth), depth)
    {
      var tag, payload := SkipOneGives(d, at, depth);
    }
  }

  /** The fields up to the end tag of a group, and that tag. */
  datatype Level = Level(inner: Fields, end: seq<Byte>)

  function LevelsBytes(ls: seq<Level>): seq<Byte> {
    if ls == [] then [] else BytesOf(ls[0].inner) + ls[0].end + LevelsBytes(ls[1..])
  }

  ghost predicate LevelsFormed(ls: seq<Level>) {
    forall i :: 0 <= i < |ls| ==> WellFormed(ls[i].inner) && IsTag(ls[i].end, 4)
  }

  /** Data skipped inside some groups are the rest of each of them. */
  lemma {:induction false} SkippedAreLevels(turn: Skipper, d: seq<Byte>, at: nat, depth: nat, total: nat)
    returns (ls: seq<Level>)
    requires GivesTurns(turn) && depth > 0 && SkipAll(turn, d, at, depth) == Skipped(at + total) && total <= |d|
    ensures |ls| == depth && LevelsFormed(ls) && LevelsBytes(ls) == d[..total]
    decreases |d|
  {
    var s := turn(d, at, depth);
    var tag, payload := TurnTakes(turn, d, at, depth);
    if s.Last? {
      ls := LastLevel(tag, payload);
    } else {
      EnoughLeft(turn, d, at, depth, total, s.count, s.depth);
      var more := SkippedAreLevels(turn, d[s.count..], at + s.count, s.depth, total - s.count);
      ls := AddTurn(tag, payload, depth, s.depth, more);
      JoinPrefix(d, s.count, total);
    }
  }

  lemma {:induction false} JoinPrefix(d: seq<Byte>, n: nat, total: nat)
    requires n <= total <= |d|
    ensures d[..total] == d[..n] + d[n..][..total - n]
  {
  }

  lemma {:induction false} LastLevel(tag: seq<Byte>, payload: seq<Byte>) returns (ls: seq<Level>)
    requires IsTag(tag, 4) && payload == []
    ensures |ls| == 1 && LevelsFormed(ls) && LevelsBytes(ls) == tag + payload
  {
    ls := [Level(NoFields, tag)];
    assert LevelsBytes(ls[1..]) == [];
  }

  lemma {:induction false} TurnTakes(turn: Skipper, d: seq<Byte>, at: nat, depth: nat)
    returns (tag: seq<Byte>, payload: seq<Byte>)
    requires GivesTurns(turn) && Within(turn(d, at, depth), d)
    ensures tag + payload == d[..turn(d, at, depth).count] && IsTurn(tag, payload, turn(d, at, depth), depth)
    ensures 1 <= turn(d, at, depth).count == |tag| + |payload| <= |d|
  {
    tag, payload :| tag + payload == d[..turn(d, at, depth).count] && IsTurn(tag, payload, turn(d, at, depth), depth);
    assert |tag + payload| == |tag| + |payload|;
  }

  lemma {:induction false} EnoughLeft(turn: Skipper, d: seq<Byte>, at: nat, depth: nat, total: nat, n: nat, depth': nat)
    requires SkipAll(turn, d, at, depth) == Skipped(at + total) && turn(d, at, depth) == More(n, depth')
             && 1 <= n <= |d|
    ensures SkipAll(turn, d[n..], at + n, depth') == Skipped(at + total) && n <= total
  {
    CountPasses(turn, d[n..], at + n, depth');
  }

  lemma {:induction false} CountPasses(turn: Skipper, d: seq<Byte>, at: nat, depth: nat)
    requires SkipAll(turn, d, at, depth).Skipped?
    ensures SkipAll(turn, d, at, depth).count >= at
    decreases |d|
  {
    var s := turn(d, at, depth);
    if s.More? {
      CountPasses(turn, d[s.count..], at + s.count, s.depth);
    }
  }

  /** One more turn before some levels. */
  lemma {:induction false} AddTurn(tag: seq<Byte>, payload: seq<Byte>, depth: nat, depth': nat, more: seq<Level>)
    returns (ls: seq<Level>)
    requires LevelsFormed(more) && |more| == depth' > 0 && depth > 0
    requires IsTurn(tag, payload, More(|tag| + |payload|, depth'), depth)
    ensures |ls| == depth && LevelsFormed(ls) && LevelsBytes(ls) == tag + payload + LevelsBytes(more)
  {
    if depth' == depth - 1 {
      ls := [Level(NoFields, tag)] + more;
      assert ls[1..] == more;
    } else if depth' == depth + 1 {
      ls := CloseGroup(tag, more);
      assert tag + payload == tag;
    } else {
      ls := [Level(Value(tag, payload, more[0].inner), more[0].end)] + more[1..];
      assert ls[1..] == more[1..];
    }
  }

  lemma {:induction false} CloseGroup(tag: seq<Byte>, more: seq<Level>) returns (ls: seq<Level>)
    requires LevelsFormed(more) && |more| >= 2 && IsTag(tag, 3)
    ensures |ls| == |more| - 1 && LevelsFormed(ls) && LevelsBytes(ls) == tag + LevelsBytes(more)
  {
    var a, b, rest := more[0], more[1], more[2..];
    ls := [Level(Group(tag, a.inner, a.end, b.inner), b.end)] + rest;
    assert ls[1..] == rest && more[1..][0] == b && more[1..][1..] == rest;
    assert LevelsBytes(more) == BytesOf(a.inner) + a.end + (BytesOf(b.inner) + b.end + LevelsBytes(rest));
  }

  lemma {:induction false} SkippedIsFieldOf(turn: Skipper, d: seq<Byte>, n: nat) returns (f: Fields)
    requires GivesTurns(turn) && SkipAll(turn, d, 0, 0) == Skipped(n) && n <= |d|
    ensures IsOneField(f) && WellFormed(f) && BytesOf(f) == d[..n]
  {
    var s := turn(d, 0, 0);
    var tag, payload := TurnTakes(turn, d, 0, 0);
    if s.Last? {
      f := TopValue(tag, payload);
    } else {
      EnoughLeft(turn, d, 0, 0, n, s.count, s.depth);
      f := GroupTaken(turn, d, s.count, n);
    }
  }

  lemma {:induction false} GroupTaken(turn: Skipper, d: seq<Byte>, k: nat, n: nat) returns (f: Fields)
    requires GivesTurns(turn) && k <= n <= |d| && IsTag(d[..k], 3) && SkipAll(turn, d[k..], k, 1) == Skipped(n)
    ensures IsOneField(f) && WellFormed(f) && BytesOf(f) == d[..n]
  {
    var ls := SkippedAreLevels(turn, d[k..], k, 1, n - k);
    f := TopGroup(d[..k], ls);
    JoinPrefix(d, k, n);
  }

  lemma {:induction false} TopValue(tag: seq<Byte>, payload: seq<Byte>) returns (f: Fields)
    requires IsValue(tag, payload)
    ensures IsOneField(f) && WellFormed(f) && BytesOf(f) == tag + payload
  {
    f := Value(tag, payload, NoFields);
    assert BytesOf(f) == tag + payload + [];
  }

  lemma {:induction false} TopGroup(tag: seq<Byte>, ls: seq<Level>) returns (f: Fields)
    requires IsTag(tag, 3) && |ls| == 1 && LevelsFormed(ls)
    ensures IsOneField(f) && WellFormed(f) && BytesOf(f) == tag + LevelsBytes(ls)
  {
    f := Group(tag, ls[0].inner, ls[0].end, NoFields);
    assert LevelsBytes(ls[1..]) == [];
  }

  /** The skipper takes n bytes of the data exactly when these are one well-formed field. */
  lemma {:induction false} SkippedExactly(d: seq<Byte>, n: nat)
    requires n <= |d| < U63
    ensures SkipField(d) == Skipped(n) <==> exists f :: IsOneField(f) && WellFormed(f) && BytesOf(f) == d[..n]
  {
    if SkipField(d) == Skipped(n) {
      SkipOneGivesTurns();
      var f := SkippedIsFieldOf(SkipOne, d, n);
    }
    if f :| IsOneField(f) && WellFormed(f) && BytesOf(f) == d[..n] {
      assert d == d[..n] + d[n..];
      OneFieldSkipped(f, d[n..]);
    }
  }

  // ------------------------------------------------------------ unknown fields change nothing

  function TagOf(f: Fields): seq<Byte>
    requires IsOneField(f)
  {
    if f.Value? then f.tag else f.start
  }

  /** The number of a field, from its tag. */
  function NumberOf(f: Fields): int
    requires IsOneField(f)
  {
    Int32(VarintValue(TagOf(f)) % U64 / 8)
  }

  lemma {:induction false} StartsWithTag(f: Fields) returns (more: seq<Byte>)
    requires IsOneField(f) && WellFormed(f)
    ensures BytesOf(f) == TagOf(f) + more && IsVarint(TagOf(f)) && TagOf(f)[0] % 8 != 4
  {
    match f
    case Value(tag, payload, _) =>
      more := payload;
      assert BytesOf(f) == tag + payload + [];
    case Group(start, inner, end, _) =>
      more := BytesOf(inner) + end;
      assert BytesOf(f) == start + BytesOf(inner) + end + [] == start + more;
  }

  lemma {:induction false} FieldIsSkipped(f: Fields)
    requires IsOneField(f) && WellFormed(f) && |BytesOf(f)| < U63 && NumberOf(f) > 0 && NumberOf(f) != 17
    ensures IsSkipped(BytesOf(f)) && ReadTag(BytesOf(f)).field == NumberOf(f)
  {
    OneFieldSkipped(f, []);
    assert BytesOf(f) + [] == BytesOf(f);
    var more := StartsWithTag(f);
    TagReads(TagOf(f), more);
  }

  /** An unknown well-formed field between any two runs of records changes nothing. */
  lemma {:induction false} UnknownFieldIgnored(a: seq<Byte>, f: Fields, b: seq<Byte>)
    requires IsOneField(f) && WellFormed(f) && |BytesOf(f)| < U63 && NumberOf(f) > 0 && NumberOf(f) != 17
    requires ParseLocators(a).Parsed?
    ensures ParseLocators(a + BytesOf(f) + b) == ParseLocators(a + b)
  {
    FieldIsSkipped(f);
    SkippedIgnored(a, BytesOf(f), b);
  }

  /** The same inside one locator, for a field other than its own three. */
  lemma {:induction false} UnknownFieldInLocator(a: seq<Byte>, f: Fields, b: seq<Byte>)
    requires IsOneField(f) && WellFormed(f) && |BytesOf(f)| < U63
    requires NumberOf(f) > 0 && NumberOf(f) != 17 && NumberOf(f) != 18 && NumberOf(f) != 20
    requires ParseLocator(a).Parsed?
    ensures ParseLocator(a + BytesOf(f) + b) == ParseLocator(a + b)
  {
    FieldIsSkipped(f);
    SkippedInLocator(a, BytesOf(f), b);
  }
}
