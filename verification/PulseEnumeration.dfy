/** The enumerators of a pulse range (ledger-core/pulse/pulse_range.go) as loops that call a visitor.
    A visitor is a decision on everything it has been shown so far, so captured variables are covered. */
module PulseEnumeration {
  import opened PulseNumber
  import opened PulseData
  import opened PulseRange

  datatype Visit<T> = Visit(seen: seq<T>, stopped: bool)

  /** Show es one by one, after seen, until the visitor says stop. */
  function Feed<T>(seen: seq<T>, es: seq<T>, stop: seq<T> -> bool): Visit<T>
    decreases |es|
  {
    if es == [] then Visit(seen, false)
    else if stop(seen + [es[0]]) then Visit(seen + [es[0]], true)
    else Feed(seen + [es[0]], es[1..], stop)
  }

  lemma {:induction false} FeedConcat<T>(seen: seq<T>, a: seq<T>, b: seq<T>, stop: seq<T> -> bool)
    ensures var v := Feed(seen, a, stop);
            Feed(seen, a + b, stop) == if v.stopped then v else Feed(v.seen, b, stop)
    decreases |a|
  {
    if a == [] {
      assert a + b == b;
    } else {
      assert (a + b)[1..] == a[1..] + b;
      FeedConcat(seen + [a[0]], a[1..], b, stop);
    }
  }

  lemma {:induction false} FeedOne<T>(seen: seq<T>, e: T, stop: seq<T> -> bool)
    ensures Feed(seen, [e], stop) == Visit(seen + [e], stop(seen + [e]))
  {
  }

  /** What is shown is a prefix that ends at the first stop; what was shown before does not count. */
  lemma {:induction false} FeedShows<T>(before: seq<T>, es: seq<T>, stop: seq<T> -> bool) returns (k: nat)
    ensures var v, all, first := Feed(before, es, stop), before + es, |before|;
            && first <= k <= |all| && v.seen == all[..k] && (!v.stopped ==> k == |all|)
            && (v.stopped <==> first < k && stop(all[..k])) && forall i :: first < i < k ==> !stop(all[..i])
    decreases |es|
  {
    k := |before|;
    if es == [] {
      assert before + es == before;
    } else {
      var seen := before + [es[0]];
      assert seen + es[1..] == before + es && (before + es)[..k + 1] == seen;
      if stop(seen) {
        k := k + 1;
      } else {
        k := FeedShows(seen, es[1..], stop);
      }
    }
  }

  // ------------------------------------------------------------ numbers

  method EnumSegments(start: Number, startDelta: Delta, end: Number, endNext: Delta,
                      stop: seq<Entry> -> bool, shown: seq<Entry>) returns (v: Visit<Entry>)
    requires MIN_TIME_PULSE <= start <= end <= MAX_TIME_PULSE
    ensures v == Feed(shown, Segments(start, startDelta, end, endNext), stop)
  {
    var next, prevDelta: Delta, seen := start, startDelta, shown;
    while next < end
      invariant start <= next <= end
      invariant Feed(seen, Segments(next, prevDelta, end, endNext), stop)
             == Feed(shown, Segments(start, startDelta, end, endNext), stop)
    {
      var delta := end - next;
      if delta <= 0xFFFF {
      } else if delta < 0xFFFF + MIN_SEGMENT_DELTA {
        delta := delta - MIN_SEGMENT_DELTA;
      } else {
        delta := 0xFFFF;
      }
      var e := Entry(next, prevDelta, delta);
      assert Segments(next, prevDelta, end, endNext) == [e] + Segments(next + delta, delta, end, endNext);
      seen := seen + [e];
      if stop(seen) {
        return Visit(seen, true);
      }
      prevDelta := delta;
      var following := TryNext(next, prevDelta);
      assert following.Some?;
      next := following.value;
    }
    seen := seen + [Entry(next, prevDelta, endNext)];
    v := Visit(seen, stop(seen));
  }

  /** One turn of the sparse loop, and all of the gap shape. */
  method EnumHop(next: nat, pd: Delta, d: Data, stop: seq<Entry> -> bool, shown: seq<Entry>) returns (v: Visit<Entry>)
    requires Reaches(next, pd, d)
    ensures v == Feed(shown, HopNumbers(next, pd, d), stop)
  {
    if next == d.pn {
      v := EnumSegments(next, pd, d.pn, d.next, stop, shown);
    } else {
      FeedConcat(shown, Segments(next, pd, d.pn - d.prev, d.prev), [EntryOf(d)], stop);
      v := EnumSegments(next, pd, d.pn - d.prev, d.prev, stop, shown);
      if !v.stopped {
        FeedOne(v.seen, EntryOf(d), stop);
        var seen := v.seen + [EntryOf(d)];
        v := Visit(seen, stop(seen));
      }
    }
  }

  /** The enumerators of provided pulses: show what each pulse gives until told to stop. */
  method EnumProvided<T>(ds: seq<Data>, shape: Data -> T, stop: seq<T> -> bool) returns (v: Visit<T>)
    ensures v == Feed([], Shaped(ds, shape), stop)
  {
    v := Visit([], false);
    ghost var es := Shaped(ds, shape);
    for i := 0 to |ds|
      invariant !v.stopped && Feed(v.seen, es[i..], stop) == Feed([], es, stop)
    {
      assert es[i..][0] == shape(ds[i]) && es[i..][1..] == es[i + 1..];
      var seen := v.seen + [shape(ds[i])];
      v := Visit(seen, stop(seen));
      if v.stopped {
        return;
      }
    }
  }

  function Shaped<T>(ds: seq<Data>, shape: Data -> T): (es: seq<T>)
    ensures |es| == |ds| && forall i :: 0 <= i < |ds| ==> es[i] == shape(ds[i])
  {
    seq(|ds|, i requires 0 <= i < |ds| => shape(ds[i]))
  }

  /** EnumNonArticulatedNumbers of every shape. */
  method EnumNonArticulatedNumbers(r: Range, stop: seq<Entry> -> bool) returns (v: Visit<Entry>)
    requires Valid(r)
    ensures v == Feed([], ProvidedNumbers(r), stop)
  {
    v := EnumProvided(ProvidedData(r), EntryOf, stop);
    assert Shaped(ProvidedData(r), EntryOf) == ProvidedNumbers(r);
  }

  method EnumNonArticulatedData(r: Range, stop: seq<Data> -> bool) returns (v: Visit<Data>)
    requires Valid(r)
    ensures v == Feed([], ProvidedData(r), stop)
  {
    v := EnumProvided(ProvidedData(r), (d: Data) => d, stop);
    assert Shaped(ProvidedData(r), (d: Data) => d) == ProvidedData(r);
  }

  /** The sparse shape shows its first provided pulse without asking whether to stop. */
  ghost function NumbersVisit(r: Range, stop: seq<Entry> -> bool): Visit<Entry>
    requires Valid(r)
  {
    if r.Sparse? then
      SparseReaches(r);
      Feed(EntriesOf(BeforeLoop(r)), TailNumbers(LoopStart(r).0, LoopStart(r).1, r.ds[1..]), stop)
    else Feed([], NumbersOf(r), stop)
  }

  /** The loop of the sparse shape computes the number after its last pulse and panics when there is none. */
  predicate PanicsAtEnd(r: Range)
    requires Valid(r)
  {
    r.Sparse? && RightBoundData(r).pn + RightBoundData(r).next > MAX_TIME_PULSE
  }

  /** One turn of a sparse loop, the i-th, and then the rest of it. */
  lemma {:induction false} FeedTurn<T>(seen: seq<T>, hop: (nat, Delta, Data) --> seq<T>, next: nat, pd: Delta,
                                       ds: seq<Data>, i: nat, stop: seq<T> -> bool)
    requires i < |ds| && CanHop(hop) && ReachesAll(next, pd, ds[i..])
    ensures Reaches(next, pd, ds[i]) && ReachesAll(ds[i].pn + ds[i].next, ds[i].next, ds[i + 1..])
    ensures var v := Feed(seen, hop(next, pd, ds[i]), stop);
            Feed(seen, Tail(hop, next, pd, ds[i..]), stop)
            == if v.stopped then v
               else Feed(v.seen, Tail(hop, ds[i].pn + ds[i].next, ds[i].next, ds[i + 1..]), stop)
  {
    assert ds[i..][0] == ds[i] && ds[i..][1..] == ds[i + 1..];
    FeedConcat(seen, hop(next, pd, ds[i]), Tail(hop, ds[i].pn + ds[i].next, ds[i].next, ds[i + 1..]), stop);
  }

  method EnumNumbersFrom(start: nat, startDelta: Delta, ds: seq<Data>, stop: seq<Entry> -> bool, shown: seq<Entry>)
    returns (v: Visit<Entry>, panicked: bool)
    requires ds != [] && ReachesAll(start, startDelta, ds)
    ensures v == Feed(shown, TailNumbers(start, startDelta, ds), stop)
    ensures panicked <==> !v.stopped && ds[|ds| - 1].pn + ds[|ds| - 1].next > MAX_TIME_PULSE
  {
    var next: nat, prevDelta := start, startDelta;
    v := Visit(shown, false);
    ghost var goal := Feed(shown, TailNumbers(start, startDelta, ds), stop);
    for i := 0 to |ds|
      invariant ReachesAll(next, prevDelta, ds[i..]) && !v.stopped
      invariant i == |ds| ==> ds[|ds| - 1].pn + ds[|ds| - 1].next <= MAX_TIME_PULSE
      invariant Feed(v.seen, Tail(HopNumbers, next, prevDelta, ds[i..]), stop) == goal
    {
      FeedTurn(v.seen, HopNumbers, next, prevDelta, ds, i, stop);
      var d := ds[i];
      v := EnumHop(next, prevDelta, d, stop, v.seen);
      if v.stopped {
        return v, false;
      }
      var following := NextNumber(d);
      if following.None? {
        LastOverflows(ds, i);
        return v, true;
      }
      next, prevDelta := following.value, d.next;
    }
    panicked := false;
  }

  lemma {:induction false} LastOverflows(ds: seq<Data>, i: nat)
    requires i < |ds| && ReachesAll(ds[i].pn + ds[i].next, ds[i].next, ds[i + 1..])
    requires IsTimePulse(ds[i].pn) && ds[i].pn + ds[i].next > MAX_TIME_PULSE
    ensures i + 1 == |ds|
  {
  }

  method EnumNumbers(r: Range, stop: seq<Entry> -> bool) returns (v: Visit<Entry>, panicked: bool)
    requires Valid(r)
    ensures v == NumbersVisit(r, stop)
    ensures panicked <==> PanicsAtEnd(r) && !v.stopped
    ensures (forall h :: !stop(h)) ==> (panicked <==> PanicsAtEnd(r))
  {
    if forall h :: !stop(h) {
      NumbersVisitIsNotStopped(r, stop);
    }
    v, panicked := Visit([], false), false;
    match r {
      case One(d) =>
        FeedOne([], EntryOf(d), stop);
        v := Visit([] + [EntryOf(d)], stop([] + [EntryOf(d)]));
      case Gap(start, prevDelta, end) =>
        v := EnumHop(start, prevDelta, end, stop, []);
      case Sequence(ds) =>
        v := EnumProvided(ds, EntryOf, stop);
        assert Shaped(ds, EntryOf) == EntriesOf(ds);
      case Sparse(ds) =>
        SparseReaches(r);
        var (next, pd) := LoopStart(r);
        v, panicked := EnumNumbersFrom(next, pd, ds[1..], stop, EntriesOf(BeforeLoop(r)));
    }
  }

  /** The visitor is shown the numbers of the range in order, up to the first answer to stop; the answer to a pulse
      shown before the loop of the sparse shape does not count. */
  lemma {:induction false} VisitExactly(r: Range, stop: seq<Entry> -> bool) returns (k: nat)
    requires Valid(r)
    ensures var v, es, first := NumbersVisit(r, stop), NumbersOf(r), if r.Sparse? then |BeforeLoop(r)| else 0;
            && first <= k <= |es| && v.seen == es[..k] && (!v.stopped ==> k == |es|)
            && (v.stopped <==> first < k && stop(es[..k])) && forall i :: first < i < k ==> !stop(es[..i])
  {
    if r.Sparse? {
      SparseReaches(r);
      var before, tail := EntriesOf(BeforeLoop(r)), TailNumbers(LoopStart(r).0, LoopStart(r).1, r.ds[1..]);
      k := FeedShows(before, tail, stop);
    } else {
      k := FeedShows([], NumbersOf(r), stop);
      assert [] + NumbersOf(r) == NumbersOf(r);
    }
  }

  /** The same for pulse data. */
  lemma {:induction false} VisitDataExactly(r: Range, stop: seq<Data> -> bool) returns (k: nat)
    requires Valid(r)
    ensures var v, ds, first := DataVisit(r, stop), DataOf(r), if r.Sparse? then |BeforeLoop(r)| else 0;
            && first <= k <= |ds| && v.seen == ds[..k] && (!v.stopped ==> k == |ds|)
            && (v.stopped <==> first < k && stop(ds[..k])) && forall i :: first < i < k ==> !stop(ds[..i])
  {
    if r.Sparse? {
      SparseReaches(r);
      k := FeedShows(BeforeLoop(r), TailData(LoopStart(r).0, LoopStart(r).1, r.ds[1..]), stop);
    } else {
      k := FeedShows([], DataOf(r), stop);
      assert [] + DataOf(r) == DataOf(r);
    }
  }

  /** A visitor that never stops is shown the whole linked chain, for every shape. */
  lemma {:induction false} NeverStoppingSeesAll(r: Range, stop: seq<Entry> -> bool)
    requires Valid(r) && forall h :: !stop(h)
    ensures NumbersVisit(r, stop) == Visit(NumbersOf(r), false)
  {
    var k := VisitExactly(r, stop);
    assert NumbersOf(r)[..|NumbersOf(r)|] == NumbersOf(r);
  }

  lemma {:induction false} NumbersVisitIsNotStopped(r: Range, stop: seq<Entry> -> bool)
    requires Valid(r) && forall h :: !stop(h)
    ensures !NumbersVisit(r, stop).stopped
  {
    NeverStoppingSeesAll(r, stop);
  }

  /** There is such a range: its right bound is the last time pulse. */
  lemma {:induction false} SparsePanics()
    ensures var r := Sparse([Data(100000, 100000, 10, 10, 0, 0), Data(MAX_TIME_PULSE, 100000, 10, 10, 0, 0)]);
            Valid(r) && PanicsAtEnd(r)
  {
    var a, b := Data(100000, 100000, 10, 10, 0, 0), Data(MAX_TIME_PULSE, 100000, 10, 10, 0, 0);
    assert LinkedOrApart(a, b) && !IsValidNext([a, b][0], [a, b][1]);
  }

  // ------------------------------------------------------------ data

  function Articulated(e: Entry): Data { Data(e.n, ARTICULATION_EPOCH, e.next, e.prev, 0, 0) }

  function ArticulatedAll(es: seq<Entry>): seq<Data> { seq(|es|, i requires 0 <= i < |es| => Articulated(es[i])) }

  /** Everything _enumSegmentData emits for a visitor that never stops. */
  function HopData(next: nat, pd: Delta, d: Data): seq<Data>
    requires Reaches(next, pd, d)
  {
    if next == d.pn then [d] else ArticulatedAll(Segments(next, pd, d.pn - d.prev, d.prev)) + [d]
  }

  function TailData(next: nat, pd: Delta, ds: seq<Data>): seq<Data>
    requires ReachesAll(next, pd, ds)
  {
    Tail(HopData, next, pd, ds)
  }

  function SparseData(r: Range): seq<Data>
    requires r.Sparse? && Valid(r)
  {
    SparseReaches(r);
    BeforeLoop(r) + TailData(LoopStart(r).0, LoopStart(r).1, r.ds[1..])
  }

  /** Everything EnumData emits for a visitor that never stops. */
  function DataOf(r: Range): seq<Data>
    requires Valid(r)
  {
    match r
    case One(d) => [d]
    case Gap(start, prevDelta, end) => HopData(start, prevDelta, end)
    case Sequence(ds) => ds
    case Sparse(_) => SparseData(r)
  }

  lemma {:induction false} FeedWrapped(shown: seq<Data>, stop: seq<Data> -> bool,
                                       seen: seq<Entry>, es: seq<Entry>, wrapped: seq<Entry> -> bool)
    requires forall h :: wrapped(h) == stop(shown + ArticulatedAll(h))
    ensures var w := Feed(seen, es, wrapped);
            Feed(shown + ArticulatedAll(seen), ArticulatedAll(es), stop)
            == Visit(shown + ArticulatedAll(w.seen), w.stopped)
    decreases |es|
  {
    if es != [] {
      var all := ArticulatedAll(es);
      assert shown + ArticulatedAll(seen) + [all[0]] == shown + ArticulatedAll(seen + [es[0]]);
      assert all[1..] == ArticulatedAll(es[1..]);
      FeedWrapped(shown, stop, seen + [es[0]], es[1..], wrapped);
    }
  }

  /** The segments reach the visitor through a wrapper that turns each number into articulated data. */
  method EnumArticulated(start: Number, pd: Delta, end: Number, endNext: Delta, stop: seq<Data> -> bool,
                         shown: seq<Data>)
    returns (v: Visit<Data>)
    requires MIN_TIME_PULSE <= start <= end <= MAX_TIME_PULSE
    ensures v == Feed(shown, ArticulatedAll(Segments(start, pd, end, endNext)), stop)
  {
    var wrapped := (h: seq<Entry>) => stop(shown + ArticulatedAll(h));
    var w := EnumSegments(start, pd, end, endNext, wrapped, []);
    FeedWrapped(shown, stop, [], Segments(start, pd, end, endNext), wrapped);
    assert shown + ArticulatedAll([]) == shown;
    v := Visit(shown + ArticulatedAll(w.seen), w.stopped);
  }

  method EnumSegmentData(start: nat, pd: Delta, end: Data, stop: seq<Data> -> bool, shown: seq<Data>)
    returns (v: Visit<Data>)
    requires Reaches(start, pd, end)
    ensures v == Feed(shown, HopData(start, pd, end), stop)
  {
    v := Visit(shown, false);
    if start != end.pn {
      v := EnumArticulated(start, pd, end.pn - end.prev, end.prev, stop, shown);
      FeedConcat(shown, ArticulatedAll(Segments(start, pd, end.pn - end.prev, end.prev)), [end], stop);
      if v.stopped {
        return;
      }
    }
    FeedOne(v.seen, end, stop);
    v := Visit(v.seen + [end], stop(v.seen + [end]));
  }

  /** The loop of the sparse EnumData. */
  method EnumDataFrom(start: nat, startDelta: Delta, ds: seq<Data>, stop: seq<Data> -> bool, shown: seq<Data>)
    returns (v: Visit<Data>, panicked: bool)
    requires ds != [] && ReachesAll(start, startDelta, ds)
    ensures v == Feed(shown, TailData(start, startDelta, ds), stop)
    ensures panicked <==> !v.stopped && ds[|ds| - 1].pn + ds[|ds| - 1].next > MAX_TIME_PULSE
  {
    var next: nat, prevDelta := start, startDelta;
    v := Visit(shown, false);
    ghost var goal := Feed(shown, TailData(start, startDelta, ds), stop);
    for i := 0 to |ds|
      invariant ReachesAll(next, prevDelta, ds[i..]) && !v.stopped
      invariant i == |ds| ==> ds[|ds| - 1].pn + ds[|ds| - 1].next <= MAX_TIME_PULSE
      invariant Feed(v.seen, Tail(HopData, next, prevDelta, ds[i..]), stop) == goal
    {
      FeedTurn(v.seen, HopData, next, prevDelta, ds, i, stop);
      var d := ds[i];
      v := EnumSegmentData(next, prevDelta, d, stop, v.seen);
      if v.stopped {
        return v, false;
      }
      var following := NextNumber(d);
      if following.None? {
        LastOverflows(ds, i);
        return v, true;
      }
      next, prevDelta := following.value, d.next;
    }
    panicked := false;
  }

  ghost function DataVisit(r: Range, stop: seq<Data> -> bool): Visit<Data>
    requires Valid(r)
  {
    if r.Sparse? then
      SparseReaches(r);
      Feed(BeforeLoop(r), TailData(LoopStart(r).0, LoopStart(r).1, r.ds[1..]), stop)
    else Feed([], DataOf(r), stop)
  }

  /** EnumData of every shape. */
  method EnumData(r: Range, stop: seq<Data> -> bool) returns (v: Visit<Data>, panicked: bool)
    requires Valid(r)
    ensures v == DataVisit(r, stop)
    ensures panicked <==> PanicsAtEnd(r) && !v.stopped
    ensures (forall h :: !stop(h)) ==> (panicked <==> PanicsAtEnd(r))
  {
    if forall h :: !stop(h) {
      DataVisitIsNotStopped(r, stop);
    }
    v, panicked := Visit([], false), false;
    match r {
      case One(d) =>
        FeedOne([], d, stop);
        v := Visit([] + [d], stop([] + [d]));
      case Gap(start, prevDelta, end) =>
        v := EnumSegmentData(start, prevDelta, end, stop, []);
      case Sequence(ds) =>
        v := EnumNonArticulatedData(r, stop);
      case Sparse(ds) =>
        SparseReaches(r);
        var (next, pd) := LoopStart(r);
        v, panicked := EnumDataFrom(next, pd, ds[1..], stop, BeforeLoop(r));
    }
  }

  lemma {:induction false} NeverStoppingSeesAllData(r: Range, stop: seq<Data> -> bool)
    requires Valid(r) && forall h :: !stop(h)
    ensures DataVisit(r, stop) == Visit(DataOf(r), false)
  {
    var k := VisitDataExactly(r, stop);
    assert DataOf(r)[..|DataOf(r)|] == DataOf(r);
  }

  lemma {:induction false} DataVisitIsNotStopped(r: Range, stop: seq<Data> -> bool)
    requires Valid(r) && forall h :: !stop(h)
    ensures !DataVisit(r, stop).stopped
  {
    NeverStoppingSeesAllData(r, stop);
  }

  lemma {:induction false} HopDataIsHopNumbers(next: nat, pd: Delta, d: Data)
    requires Reaches(next, pd, d)
    ensures EntriesOf(HopData(next, pd, d)) == HopNumbers(next, pd, d)
  {
  }

  lemma {:induction false} TailProjects(hop: (nat, Delta, Data) --> seq<Data>, hop': (nat, Delta, Data) --> seq<Entry>,
                                        next: nat, pd: Delta, ds: seq<Data>)
    requires CanHop(hop) && CanHop(hop')
    requires forall n, p, d :: Reaches(n, p, d) ==> EntriesOf(hop(n, p, d)) == hop'(n, p, d)
    requires ReachesAll(next, pd, ds)
    ensures EntriesOf(Tail(hop, next, pd, ds)) == Tail(hop', next, pd, ds)
    decreases |ds|
  {
    if ds != [] {
      var d, rest := ds[0], ds[1..];
      TailProjects(hop, hop', d.pn + d.next, d.next, rest);
      EntriesJoin(hop(next, pd, d), hop'(next, pd, d),
                  Tail(hop, d.pn + d.next, d.next, rest), Tail(hop', d.pn + d.next, d.next, rest));
    }
  }

  lemma {:induction false} TailDataIsTailNumbers(next: nat, pd: Delta, ds: seq<Data>)
    requires ReachesAll(next, pd, ds)
    ensures EntriesOf(TailData(next, pd, ds)) == TailNumbers(next, pd, ds)
  {
    forall n, p, d | Reaches(n, p, d)
      ensures EntriesOf(HopData(n, p, d)) == HopNumbers(n, p, d)
    {
      HopDataIsHopNumbers(n, p, d);
    }
    TailProjects(HopData, HopNumbers, next, pd, ds);
  }

  lemma {:induction false} EntriesJoin(a: seq<Data>, x: seq<Entry>, b: seq<Data>, y: seq<Entry>)
    requires EntriesOf(a) == x && EntriesOf(b) == y
    ensures EntriesOf(a + b) == x + y
  {
  }

  /** The data enumerator agrees with the number enumerator, for every shape. */
  lemma {:induction false} DataProjectsToNumbers(r: Range)
    requires Valid(r)
    ensures EntriesOf(DataOf(r)) == NumbersOf(r)
  {
    match r
    case One(_) =>
    case Gap(start, prevDelta, end) => HopDataIsHopNumbers(start, prevDelta, end);
    case Sequence(_) =>
    case Sparse(ds) =>
      SparseReaches(r);
      TailDataIsTailNumbers(LoopStart(r).0, LoopStart(r).1, ds[1..]);
      EntriesConcat(BeforeLoop(r), TailData(LoopStart(r).0, LoopStart(r).1, ds[1..]));
  }

  lemma {:induction false} EntriesConcat(a: seq<Data>, b: seq<Data>)
    ensures EntriesOf(a + b) == EntriesOf(a) + EntriesOf(b)
  {
  }

  predicate FromPulsar(ds: seq<Data>) { forall i :: 0 <= i < |ds| ==> IsTimeEpoch(ds[i].epoch) }

  function WithoutArticulated(ds: seq<Data>): seq<Data> {
    if ds == [] then []
    else if ds[0].epoch == ARTICULATION_EPOCH then WithoutArticulated(ds[1..])
    else [ds[0]] + WithoutArticulated(ds[1..])
  }

  lemma {:induction false} WithoutArticulatedConcat(a: seq<Data>, b: seq<Data>)
    ensures WithoutArticulated(a + b) == WithoutArticulated(a) + WithoutArticulated(b)
  {
    if a == [] {
      assert a + b == b;
    } else {
      assert (a + b)[1..] == a[1..] + b;
      WithoutArticulatedConcat(a[1..], b);
    }
  }

  lemma {:induction false} WithoutArticulatedAll(es: seq<Entry>)
    ensures WithoutArticulated(ArticulatedAll(es)) == []
  {
    if es != [] {
      assert ArticulatedAll(es)[1..] == ArticulatedAll(es[1..]);
      WithoutArticulatedAll(es[1..]);
    }
  }

  lemma {:induction false} FromPulsarKeepsAll(ds: seq<Data>)
    requires FromPulsar(ds)
    ensures WithoutArticulated(ds) == ds
  {
    if ds != [] {
      FromPulsarKeepsAll(ds[1..]);
    }
  }

  lemma {:induction false} HopProvides(next: nat, pd: Delta, d: Data)
    requires Reaches(next, pd, d) && IsTimeEpoch(d.epoch)
    ensures WithoutArticulated(HopData(next, pd, d)) == [d]
  {
    if next != d.pn {
      var es := Segments(next, pd, d.pn - d.prev, d.prev);
      WithoutArticulatedAll(es);
      WithoutArticulatedConcat(ArticulatedAll(es), [d]);
    }
  }

  lemma {:induction false} TailProvides(hop: (nat, Delta, Data) --> seq<Data>, next: nat, pd: Delta, ds: seq<Data>)
    requires CanHop(hop)
    requires forall n, p, d :: Reaches(n, p, d) && IsTimeEpoch(d.epoch) ==> WithoutArticulated(hop(n, p, d)) == [d]
    requires ReachesAll(next, pd, ds) && FromPulsar(ds)
    ensures WithoutArticulated(Tail(hop, next, pd, ds)) == ds
    decreases |ds|
  {
    if ds != [] {
      var d, rest := ds[0], ds[1..];
      TailProvides(hop, d.pn + d.next, d.next, rest);
      WithoutArticulatedConcat(hop(next, pd, d), Tail(hop, d.pn + d.next, d.next, rest));
    }
  }

  lemma {:induction false} TailDataProvides(next: nat, pd: Delta, ds: seq<Data>)
    requires ReachesAll(next, pd, ds) && FromPulsar(ds)
    ensures WithoutArticulated(TailData(next, pd, ds)) == ds
  {
    forall n, p, d | Reaches(n, p, d) && IsTimeEpoch(d.epoch)
      ensures WithoutArticulated(HopData(n, p, d)) == [d]
    {
      HopProvides(n, p, d);
    }
    TailProvides(HopData, next, pd, ds);
  }

  /** The non-articulated enumerator is the full one with the articulated pulses left out. */
  lemma {:induction false} ProvidedIsSubsequence(r: Range)
    requires Valid(r) && FromPulsar(ProvidedData(r))
    ensures WithoutArticulated(DataOf(r)) == ProvidedData(r)
  {
    match r
    case One(_) =>
    case Gap(start, prevDelta, end) =>
      assert end == ProvidedData(r)[0];
      HopProvides(start, prevDelta, end);
    case Sequence(ds) => FromPulsarKeepsAll(ds);
    case Sparse(_) => SparseProvides(r);
  }

  lemma {:induction false} SparseProvides(r: Range)
    requires r.Sparse? && Valid(r) && FromPulsar(ProvidedData(r))
    ensures WithoutArticulated(SparseData(r)) == ProvidedData(r)
  {
    var rest := r.ds[1..];
    assert ProvidedData(r) == BeforeLoop(r) + rest;
    ProvidedFromPulsar(r);
    SparseReaches(r);
    FromPulsarKeepsAll(BeforeLoop(r));
    TailDataProvides(LoopStart(r).0, LoopStart(r).1, rest);
    WithoutArticulatedConcat(BeforeLoop(r), TailData(LoopStart(r).0, LoopStart(r).1, rest));
  }

  ghost predicate OnlyTimeOrArticulated(ds: seq<Data>) {
    forall i :: 0 <= i < |ds| ==> IsTimeEpoch(ds[i].epoch) || ds[i].epoch == ARTICULATION_EPOCH
  }

  lemma {:induction false} EpochsJoin(a: seq<Data>, b: seq<Data>)
    requires OnlyTimeOrArticulated(a) && OnlyTimeOrArticulated(b)
    ensures OnlyTimeOrArticulated(a + b)
  {
  }

  lemma {:induction false} TailEpochs(hop: (nat, Delta, Data) --> seq<Data>, next: nat, pd: Delta, ds: seq<Data>)
    requires CanHop(hop)
    requires forall n, p, d :: Reaches(n, p, d) && IsTimeEpoch(d.epoch) ==> OnlyTimeOrArticulated(hop(n, p, d))
    requires ReachesAll(next, pd, ds) && FromPulsar(ds)
    ensures OnlyTimeOrArticulated(Tail(hop, next, pd, ds))
    decreases |ds|
  {
    if ds != [] {
      var d, rest := ds[0], ds[1..];
      TailEpochs(hop, d.pn + d.next, d.next, rest);
      EpochsJoin(hop(next, pd, d), Tail(hop, d.pn + d.next, d.next, rest));
    }
  }

  lemma {:induction false} TailDataEpochs(next: nat, pd: Delta, ds: seq<Data>)
    requires ReachesAll(next, pd, ds) && FromPulsar(ds)
    ensures OnlyTimeOrArticulated(TailData(next, pd, ds))
  {
    TailEpochs(HopData, next, pd, ds);
  }

  lemma {:induction false} SparseEpochs(r: Range)
    requires r.Sparse? && Valid(r) && FromPulsar(ProvidedData(r))
    ensures OnlyTimeOrArticulated(SparseData(r))
  {
    var rest := r.ds[1..];
    ProvidedFromPulsar(r);
    SparseReaches(r);
    TailDataEpochs(LoopStart(r).0, LoopStart(r).1, rest);
    EpochsJoin(BeforeLoop(r), TailData(LoopStart(r).0, LoopStart(r).1, rest));
  }

  lemma {:induction false} ProvidedFromPulsar(r: Range)
    requires r.Sparse? && Valid(r) && FromPulsar(ProvidedData(r))
    ensures FromPulsar(BeforeLoop(r)) && FromPulsar(r.ds[1..]) && OnlyTimeOrArticulated(BeforeLoop(r))
  {
    assert ProvidedData(r) == BeforeLoop(r) + r.ds[1..];
  }

  lemma {:induction false} DataEpochs(r: Range)
    requires Valid(r) && FromPulsar(ProvidedData(r))
    ensures OnlyTimeOrArticulated(DataOf(r))
  {
    match r
    case One(d) => assert d == ProvidedData(r)[0];
    case Gap(_, _, end) => assert end == ProvidedData(r)[0];
    case Sequence(_) =>
    case Sparse(_) => SparseEpochs(r);
  }

  /** Every pulse data emitted is a valid next of the one before it. */
  lemma {:induction false} DataLinked(r: Range)
    requires Valid(r) && FromPulsar(ProvidedData(r))
    ensures AllLinked(DataOf(r))
  {
    var ds := DataOf(r);
    DataEpochs(r);
    DataProjectsToNumbers(r);
    NumbersChain(r);
    if |ds| > 1 {
      DataAreTimePulses(ds, RightBoundData(r));
    }
  }

  lemma {:induction false} DataAreTimePulses(ds: seq<Data>, last: Data)
    requires |ds| > 1 && Linked(EntriesOf(ds)) && OnlyTimeOrArticulated(ds)
    requires EntriesOf(ds)[|ds| - 1] == EntryOf(last) && IsTimePulse(last.pn) && !IsExpected(last)
    requires IsTimePulse(ds[0].pn)
    ensures AllLinked(ds)
  {
    var es := EntriesOf(ds);
    forall i, j | 0 <= i < j < |ds| && j == i + 1
      ensures IsValidNext(ds[i], ds[j])
    {
      LinkedAt(es, i);
      if j < |ds| - 1 {
        LinkedAt(es, j);
        LinkedIncreases(es, j, |ds| - 1);
      }
      if i > 0 {
        LinkedIncreases(es, 0, i);
      }
    }
  }

  lemma {:induction false} TailPlain(a: Data, ds: seq<Data>)
    requires Sorted([a] + ds) && FromPulsar([a] + ds)
    requires ReachesAll(a.pn + a.next, a.next, ds)
    requires forall d :: d in TailData(a.pn + a.next, a.next, ds) ==> d.epoch != ARTICULATION_EPOCH
    ensures AllLinked([a] + ds)
    decreases |ds|
  {
    if ds != [] {
      var d := ds[0];
      var all := [a] + ds;
      var hop, tail := HopData(a.pn + a.next, a.next, d), TailData(d.pn + d.next, d.next, ds[1..]);
      assert TailData(a.pn + a.next, a.next, ds) == hop + tail;
      assert LinkedOrApart(all[0], all[1]);
      assert hop[0] in hop + tail;
      assert IsValidNext(a, d);
      assert [d] + ds[1..] == ds && ds == all[1..];
      assert forall x :: x in tail ==> x in hop + tail;
      TailPlain(d, ds[1..]);
      assert AllLinked(ds);
    }
  }

  /** IsArticulated tells whether the enumerator has to make up any pulse. */
  lemma {:induction false} ArticulatedIffEmitted(r: Range)
    requires Valid(r) && FromPulsar(ProvidedData(r))
    ensures IsArticulated(r) <==> exists d :: d in DataOf(r) && d.epoch == ARTICULATION_EPOCH
  {
    match r
    case One(d) => assert d == ProvidedData(r)[0];
    case Gap(start, prevDelta, end) => assert DataOf(r)[0] in DataOf(r);
    case Sequence(_) =>
    case Sparse(ds) =>
      if IsExpected(ds[0]) {
        SparseReaches(r);
        assert DataOf(r)[0].epoch == ARTICULATION_EPOCH && DataOf(r)[0] in DataOf(r);
      } else {
        SparseEmitsArticulated(r);
      }
  }

  lemma {:induction false} SparseEmitsArticulated(r: Range)
    requires r.Sparse? && Valid(r) && !IsExpected(r.ds[0]) && FromPulsar(r.ds)
    ensures exists d :: d in SparseData(r) && d.epoch == ARTICULATION_EPOCH
  {
    SparseReaches(r);
    var tail := TailData(LoopStart(r).0, LoopStart(r).1, r.ds[1..]);
    var x := TailEmitsArticulated(r.ds, tail);
    assert x in BeforeLoop(r) + tail;
  }

  lemma {:induction false} TailEmitsArticulated(ds: seq<Data>, tail: seq<Data>) returns (x: Data)
    requires ds != [] && Sorted(ds) && !AllLinked(ds) && FromPulsar(ds)
    requires ReachesAll(ds[0].pn + ds[0].next, ds[0].next, ds[1..])
    requires tail == TailData(ds[0].pn + ds[0].next, ds[0].next, ds[1..])
    ensures x in tail && x.epoch == ARTICULATION_EPOCH
  {
    if forall d :: d in tail ==> d.epoch != ARTICULATION_EPOCH {
      assert ds == [ds[0]] + ds[1..];
      TailPlain(ds[0], ds[1..]);
      assert false;
    }
    x :| x in tail && x.epoch == ARTICULATION_EPOCH;
  }
}
