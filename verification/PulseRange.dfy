/** Pulse ranges (ledger-core/pulse/pulse_range.go): four shapes, their constructors, and the
    enumerators that fill gaps with articulated pulses. */
module PulseRange {
  import opened PulseNumber
  import opened PulseData

  /** The arguments of one visitor call. */
  datatype Entry = Entry(n: Number, prev: Delta, next: Delta)

  datatype Range =
    | One(data: Data)
    | Gap(start: Number, prevDelta: Delta, end: Data)
    | Sequence(ds: seq<Data>)
    | Sparse(ds: seq<Data>)

  // ------------------------------------------------------------ constructors

  /** The pair check of checkSequence that does not panic: linked, or clearly apart. */
  predicate LinkedOrApart(a: Data, b: Data) {
    IsValidNext(a, b) || (NextNumber(a).Some? && PrevNumber(b).Some? && NextNumber(a).value <= PrevNumber(b).value)
  }

  ghost predicate Sorted(ds: seq<Data>) {
    && (forall i :: 0 <= i < |ds| ==> IsPulseData(ds[i]))
    && (forall i, j :: 0 <= i < j < |ds| && j == i + 1 ==> LinkedOrApart(ds[i], ds[j]))
  }

  ghost predicate AllLinked(ds: seq<Data>) {
    forall i, j :: 0 <= i < j < |ds| && j == i + 1 ==> IsValidNext(ds[i], ds[j])
  }

  method CheckSequence(ds: seq<Data>) returns (r: Option<bool>)
    ensures r.Some? <==> Sorted(ds)
    ensures r.Some? ==> (r.value <==> AllLinked(ds))
  {
    var sequence := true;
    for i := 0 to |ds|
      invariant forall j :: 0 <= j < i ==> IsPulseData(ds[j])
      invariant forall j, k :: 0 <= j < k < i && k == j + 1 ==> LinkedOrApart(ds[j], ds[k])
      invariant sequence <==> forall j, k :: 0 <= j < k < i && k == j + 1 ==> IsValidNext(ds[j], ds[k])
    {
      if !IsPulseData(ds[i]) {
        return None;
      }
      if i > 0 {
        var prev := ds[i - 1];
        if IsValidNext(prev, ds[i]) {
        } else if NextNumber(prev).None? || PrevNumber(ds[i]).None?
               || NextNumber(prev).value > PrevNumber(ds[i]).value {
          return None;
        } else {
          sequence := false;
        }
      }
    }
    r := Some(sequence);
  }

  function NewOnePulseRange(d: Data): Option<Range> { if IsRangeData(d) then Some(One(d)) else None }

  function NewLeftGapRange(left: Number, leftPrevDelta: Delta, right: Data): Option<Range> {
    if !IsPulseData(right) then None
    else if left == right.pn then
      if leftPrevDelta == right.prev then NewOnePulseRange(right) else None
    else if PrevNumber(right).None? || !IsBeforeOrEq(left, PrevNumber(right).value) then None
    else if TryPrev(left, leftPrevDelta).None? then None
    else Some(Gap(left, leftPrevDelta, right))
  }

  /** What NewSequenceRange returns; None is its panic. */
  ghost function SequenceRangeOf(ds: seq<Data>): Option<Range> {
    if |ds| == 0 then None
    else if |ds| == 1 then NewOnePulseRange(ds[0])
    else if Sorted(ds) && AllLinked(ds) then Some(Sequence(ds))
    else None
  }

  method NewSequenceRange(ds: seq<Data>) returns (r: Option<Range>)
    ensures r == SequenceRangeOf(ds)
  {
    if |ds| == 0 {
      return None;
    } else if |ds| == 1 {
      return NewOnePulseRange(ds[0]);
    }
    var linked := CheckSequence(ds);
    r := if linked == Some(true) then Some(Sequence(ds)) else None;
  }

  /** What NewPulseRange returns; None is its panic. */
  ghost function PulseRangeOf(ds: seq<Data>): Option<Range> {
    if |ds| == 0 then None
    else if |ds| == 1 then NewOnePulseRange(ds[0])
    else if !IsExpected(ds[0]) then
      if !Sorted(ds) then None
      else if AllLinked(ds) then Some(Sequence(ds))
      else Some(Sparse(ds))
    else if PrevNumber(ds[1]).None? || PrevNumber(ds[1]).value < ds[0].pn || !IsExpectedData(ds[0]) then None
    else if |ds| == 2 then NewLeftGapRange(ds[0].pn, ds[0].prev, ds[1])
    else if Sorted(ds[1..]) then Some(Sparse(ds))
    else None
  }

  method NewPulseRange(ds: seq<Data>) returns (r: Option<Range>)
    ensures r == PulseRangeOf(ds)
  {
    if |ds| == 0 {
      return None;
    } else if |ds| == 1 {
      return NewOnePulseRange(ds[0]);
    } else if !IsExpected(ds[0]) {
      var linked := CheckSequence(ds);
      if linked.None? {
        return None;
      } else if linked.value {
        return Some(Sequence(ds));
      }
    } else if PrevNumber(ds[1]).None? || PrevNumber(ds[1]).value < ds[0].pn || !IsExpectedData(ds[0]) {
      return None;
    } else if |ds| == 2 {
      return NewLeftGapRange(ds[0].pn, ds[0].prev, ds[1]);
    } else {
      var checked := CheckSequence(ds[1..]);
      if checked.None? {
        return None;
      }
    }
    r := Some(Sparse(ds));
  }

  /** The ranges that exist: exactly those some constructor returns (ConstructorsGiveValid, ValidIsConstructed). */
  ghost predicate Valid(r: Range) {
    match r
    case One(d) => IsRangeData(d)
    case Gap(start, prevDelta, end) =>
      && IsPulseData(end) && !IsFirst(end)
      && start <= end.pn - end.prev
      && TryPrev(start, prevDelta).Some?
    case Sequence(ds) => |ds| >= 2 && Sorted(ds) && AllLinked(ds)
    case Sparse(ds) =>
      if |ds| >= 2 && !IsExpected(ds[0]) then Sorted(ds) && !AllLinked(ds)
      else |ds| >= 3 && IsExpectedData(ds[0]) && Sorted(ds[1..])
           && !IsFirst(ds[1]) && ds[0].pn <= ds[1].pn - ds[1].prev
  }

  lemma {:induction false} ConstructorsGiveValid(ds: seq<Data>, left: Number, leftPrevDelta: Delta, right: Data)
    ensures SequenceRangeOf(ds).Some? ==> Valid(SequenceRangeOf(ds).value)
    ensures PulseRangeOf(ds).Some? ==> Valid(PulseRangeOf(ds).value)
    ensures NewLeftGapRange(left, leftPrevDelta, right).Some? ==>
            Valid(NewLeftGapRange(left, leftPrevDelta, right).value)
  {
  }

  lemma {:induction false} ValidIsConstructed(r: Range)
    requires Valid(r)
    ensures || (exists ds :: SequenceRangeOf(ds) == Some(r) || PulseRangeOf(ds) == Some(r))
            || (exists left, leftPrevDelta, right :: NewLeftGapRange(left, leftPrevDelta, right) == Some(r))
  {
    match r
    case One(d) => assert SequenceRangeOf([d]) == Some(r);
    case Gap(start, prevDelta, end) => assert NewLeftGapRange(start, prevDelta, end) == Some(r);
    case Sequence(ds) => assert SequenceRangeOf(ds) == Some(r);
    case Sparse(ds) =>
      if IsExpected(ds[0]) {
        assert IsPulseData(ds[1..][0]);
      }
      assert PulseRangeOf(ds) == Some(r);
  }

  // ------------------------------------------------------------ accessors

  function LeftBoundNumber(r: Range): Number
    requires Valid(r)
  {
    match r
    case One(d) => d.pn
    case Gap(start, _, _) => start
    case Sequence(ds) => ds[0].pn
    case Sparse(ds) => ds[0].pn
  }

  function LeftPrevDelta(r: Range): Delta
    requires Valid(r)
  {
    match r
    case One(d) => d.prev
    case Gap(_, prevDelta, _) => prevDelta
    case Sequence(ds) => ds[0].prev
    case Sparse(ds) => ds[0].prev
  }

  function RightBoundData(r: Range): Data
    requires Valid(r)
  {
    match r
    case One(d) => d
    case Gap(_, _, end) => end
    case Sequence(ds) => ds[|ds| - 1]
    case Sparse(ds) => ds[|ds| - 1]
  }

  predicate IsArticulated(r: Range) { r.Gap? || r.Sparse? }

  predicate IsSingular(r: Range) { r.One? }

  /** Range.IsValidNext of every shape: only the one-pulse shape tests the zero delta itself, the others
      through GetNextPulseNumber. */
  predicate RangeIsValidNext(r: Range, a: Range)
    requires Valid(r) && Valid(a)
  {
    var end := RightBoundData(r);
    end.next == LeftPrevDelta(a) && NextNumber(end) == Some(LeftBoundNumber(a))
  }

  // ------------------------------------------------------------ splitting a gap

  const MIN_SEGMENT_DELTA := 10

  function SegmentDelta(gap: nat): (d: Delta)
    requires gap > 0
  {
    if gap <= 0xFFFF then gap
    else if gap < 0xFFFF + MIN_SEGMENT_DELTA then gap - MIN_SEGMENT_DELTA
    else 0xFFFF
  }

  /** Everything _enumSegments emits for a visitor that never stops. */
  function Segments(next: Number, prevDelta: Delta, end: Number, endNext: Delta): (es: seq<Entry>)
    requires MIN_TIME_PULSE <= next <= end <= MAX_TIME_PULSE
    ensures es != []
    decreases end - next
  {
    if next == end then [Entry(next, prevDelta, endNext)]
    else
      var d := SegmentDelta(end - next);
      [Entry(next, prevDelta, d)] + Segments(next + d, d, end, endNext)
  }

  /** Pulse a plus its next delta is pulse b, whose prev delta is that delta. */
  predicate Link(a: Entry, b: Entry) { a.next > 0 && a.n + a.next == b.n && b.prev == a.next }

  predicate Linked(es: seq<Entry>) { |es| > 1 ==> Link(es[0], es[1]) && Linked(es[1..]) }

  lemma {:induction false} LinkedAt(es: seq<Entry>, i: nat)
    requires Linked(es) && i + 1 < |es|
    ensures Link(es[i], es[i + 1])
  {
    if i > 0 {
      LinkedAt(es[1..], i - 1);
    }
  }

  lemma {:induction false} LinkedConcat(a: seq<Entry>, b: seq<Entry>)
    requires a != [] && b != [] && Linked(a) && Linked(b) && Link(a[|a| - 1], b[0])
    ensures Linked(a + b)
  {
    if |a| == 1 {
      assert (a + b)[1..] == b;
    } else {
      LinkedConcat(a[1..], b);
      assert (a + b)[1..] == a[1..] + b;
    }
  }

  /** A non-empty linked chain that starts at number n with prev delta pd and ends with entry last. */
  predicate Chain(es: seq<Entry>, n: int, pd: Delta, last: Entry) {
    es != [] && Linked(es) && es[0].n == n && es[0].prev == pd && es[|es| - 1] == last
  }

  function Ceil(a: nat, b: nat): nat
    requires b > 0
  {
    (a + b - 1) / b
  }

  /** Splitting a gap links its two ends. */
  lemma {:induction false} SegmentsChain(next: Number, prevDelta: Delta, end: Number, endNext: Delta)
    requires MIN_TIME_PULSE <= next <= end <= MAX_TIME_PULSE
    ensures var es := Segments(next, prevDelta, end, endNext);
            Chain(es, next, prevDelta, es[|es| - 1]) && es[|es| - 1].n == end && es[|es| - 1].next == endNext
    decreases end - next
  {
    if next < end {
      var d := SegmentDelta(end - next);
      SegmentsChain(next + d, d, end, endNext);
      assert Segments(next, prevDelta, end, endNext)[1..] == Segments(next + d, d, end, endNext);
    }
  }

  /** A gap of any size is split into the fewest segments that fit a uint16, which add up to the gap,
      and a gap that needs splitting at all leaves no segment below the minimum. */
  lemma {:induction false} SegmentsSplitGap(next: Number, prevDelta: Delta, end: Number, endNext: Delta)
    requires MIN_TIME_PULSE <= next < end <= MAX_TIME_PULSE
    ensures var es := Segments(next, prevDelta, end, endNext);
            && |es| == Ceil(end - next, 0xFFFF) + 1
            && SumOfNext(es[..|es| - 1]) == end - next
            && (forall i :: 0 <= i < |es| - 1 ==> 1 <= es[i].next <= 0xFFFF)
            && (end - next >= MIN_SEGMENT_DELTA ==> forall i :: 0 <= i < |es| - 1 ==> es[i].next >= MIN_SEGMENT_DELTA)
    decreases end - next
  {
    var d := SegmentDelta(end - next);
    var rest := Segments(next + d, d, end, endNext);
    var es := Segments(next, prevDelta, end, endNext);
    assert es[..|es| - 1] == [Entry(next, prevDelta, d)] + rest[..|rest| - 1];
    if next + d < end {
      SegmentsSplitGap(next + d, d, end, endNext);
      CeilStep(end - next, d);
    } else {
      assert rest == [Entry(end, d, endNext)];
    }
  }

  function SumOfNext(es: seq<Entry>): nat { if es == [] then 0 else es[0].next + SumOfNext(es[1..]) }

  lemma {:induction false} CeilStep(gap: nat, d: nat)
    requires gap > 0xFFFF && d == SegmentDelta(gap)
    ensures Ceil(gap, 0xFFFF) == Ceil(gap - d, 0xFFFF) + 1
  {
  }

  // ------------------------------------------------------------ enumeration

  function EntryOf(d: Data): Entry { Entry(d.pn, d.prev, d.next) }

  function EntriesOf(ds: seq<Data>): seq<Entry> { seq(|ds|, i requires 0 <= i < |ds| => EntryOf(ds[i])) }

  /** The pulse d can be reached from the pulse next, whose prev delta is pd. */
  predicate Reaches(next: nat, pd: Delta, d: Data) {
    && !IsExpected(d) && d.pn <= MAX_TIME_PULSE && MIN_TIME_PULSE <= next
    && ((next == d.pn && pd == d.prev) || (!IsFirst(d) && next <= d.pn - d.prev))
  }

  predicate ReachesAll(next: nat, pd: Delta, ds: seq<Data>)
    decreases |ds|
  {
    ds != [] ==> Reaches(next, pd, ds[0]) && ReachesAll(ds[0].pn + ds[0].next, ds[0].next, ds[1..])
  }

  /** What one turn of the loop in the sparse EnumNumbers emits. */
  function HopNumbers(next: nat, pd: Delta, d: Data): seq<Entry>
    requires Reaches(next, pd, d)
  {
    if next == d.pn then Segments(next, pd, d.pn, d.next)
    else Segments(next, pd, d.pn - d.prev, d.prev) + [EntryOf(d)]
  }

  ghost predicate CanHop<T>(hop: (nat, Delta, Data) --> seq<T>) {
    forall next, pd, d :: Reaches(next, pd, d) ==> hop.requires(next, pd, d)
  }

  /** What the whole loop of a sparse enumerator emits when one turn of it emits hop. */
  function Tail<T>(hop: (nat, Delta, Data) --> seq<T>, next: nat, pd: Delta, ds: seq<Data>): seq<T>
    requires CanHop(hop) && ReachesAll(next, pd, ds)
    decreases |ds|
  {
    if ds == [] then [] else hop(next, pd, ds[0]) + Tail(hop, ds[0].pn + ds[0].next, ds[0].next, ds[1..])
  }

  function TailNumbers(next: nat, pd: Delta, ds: seq<Data>): seq<Entry>
    requires ReachesAll(next, pd, ds)
  {
    Tail(HopNumbers, next, pd, ds)
  }

  lemma {:induction false} SortedReaches(ds: seq<Data>)
    requires ds != [] && Sorted(ds)
    ensures ReachesAll(ds[0].pn + ds[0].next, ds[0].next, ds[1..])
  {
    if |ds| > 1 {
      assert LinkedOrApart(ds[0], ds[1]);
      var rest := ds[1..];
      SortedReaches(rest);
    }
  }

  /** Where the loop of the sparse enumerators starts, and what they emit before it. */
  function LoopStart(r: Range): (nat, Delta)
    requires r.Sparse? && Valid(r)
  {
    var d := r.ds[0];
    if IsExpected(d) then (d.pn, d.prev) else (d.pn + d.next, d.next)
  }

  function BeforeLoop(r: Range): seq<Data>
    requires r.Sparse? && Valid(r)
  {
    if IsExpected(r.ds[0]) then [] else [r.ds[0]]
  }

  lemma {:induction false} SparseReaches(r: Range)
    requires r.Sparse? && Valid(r)
    ensures ReachesAll(LoopStart(r).0, LoopStart(r).1, r.ds[1..])
  {
    if IsExpected(r.ds[0]) {
      SortedReaches(r.ds[1..]);
    } else {
      SortedReaches(r.ds);
    }
  }

  function SparseNumbers(r: Range): seq<Entry>
    requires r.Sparse? && Valid(r)
  {
    SparseReaches(r);
    EntriesOf(BeforeLoop(r)) + TailNumbers(LoopStart(r).0, LoopStart(r).1, r.ds[1..])
  }

  /** Everything EnumNumbers emits for a visitor that never stops. */
  function NumbersOf(r: Range): seq<Entry>
    requires Valid(r)
  {
    match r
    case One(d) => [EntryOf(d)]
    case Gap(start, prevDelta, end) => HopNumbers(start, prevDelta, end)
    case Sequence(ds) => EntriesOf(ds)
    case Sparse(_) => SparseNumbers(r)
  }

  /** Everything EnumNonArticulatedData emits for a visitor that never stops. */
  function ProvidedData(r: Range): seq<Data>
    requires Valid(r)
  {
    match r
    case One(d) => [d]
    case Gap(_, _, end) => [end]
    case Sequence(ds) => ds
    case Sparse(ds) => if IsExpected(ds[0]) then ds[1..] else ds
  }

  function ProvidedNumbers(r: Range): seq<Entry>
    requires Valid(r)
  {
    EntriesOf(ProvidedData(r))
  }

  lemma {:induction false} ConcatChain(a: seq<Entry>, b: seq<Entry>, n: int, pd: Delta, mid: Entry, last: Entry)
    requires Chain(a, n, pd, mid) && mid.next > 0
    requires Chain(b, mid.n + mid.next, mid.next, last)
    ensures Chain(a + b, n, pd, last)
  {
    LinkedConcat(a, b);
  }

  lemma {:induction false} HopChain(next: nat, pd: Delta, d: Data)
    requires Reaches(next, pd, d)
    ensures Chain(HopNumbers(next, pd, d), next, pd, EntryOf(d))
  {
    if next < d.pn {
      SegmentsChain(next, pd, d.pn - d.prev, d.prev);
      var es := Segments(next, pd, d.pn - d.prev, d.prev);
      ConcatChain(es, [EntryOf(d)], next, pd, es[|es| - 1], EntryOf(d));
    }
  }

  lemma {:induction false} TailChain(hop: (nat, Delta, Data) --> seq<Entry>, next: nat, pd: Delta, ds: seq<Data>)
    requires CanHop(hop) && forall n: nat, p: Delta, d :: Reaches(n, p, d) ==> Chain(hop(n, p, d), n, p, EntryOf(d))
    requires ds != [] && ReachesAll(next, pd, ds)
    ensures Chain(Tail(hop, next, pd, ds), next, pd, EntryOf(ds[|ds| - 1]))
    decreases |ds|
  {
    var d, rest := ds[0], ds[1..];
    if |ds| == 1 {
      assert Tail(hop, next, pd, ds) == hop(next, pd, d);
    } else {
      TailChain(hop, d.pn + d.next, d.next, rest);
      ConcatChain(hop(next, pd, d), Tail(hop, d.pn + d.next, d.next, rest), next, pd, EntryOf(d),
        EntryOf(ds[|ds| - 1]));
    }
  }

  lemma {:induction false} TailNumbersChain(next: nat, pd: Delta, ds: seq<Data>)
    requires ds != [] && ReachesAll(next, pd, ds)
    ensures Chain(TailNumbers(next, pd, ds), next, pd, EntryOf(ds[|ds| - 1]))
  {
    forall n: nat, p: Delta, d | Reaches(n, p, d)
      ensures Chain(HopNumbers(n, p, d), n, p, EntryOf(d))
    {
      HopChain(n, p, d);
    }
    TailChain(HopNumbers, next, pd, ds);
  }

  lemma {:induction false} SequenceChain(ds: seq<Data>)
    requires ds != [] && AllLinked(ds)
    requires forall i :: 0 <= i < |ds| ==> IsTimePulse(ds[i].pn)
    ensures Chain(EntriesOf(ds), ds[0].pn, ds[0].prev, EntryOf(ds[|ds| - 1]))
  {
    if |ds| > 1 {
      assert IsValidNext(ds[0], ds[1]);
      SequenceChain(ds[1..]);
      assert EntriesOf(ds)[1..] == EntriesOf(ds[1..]);
    }
  }

  lemma {:induction false} SparseChain(r: Range)
    requires r.Sparse? && Valid(r)
    ensures Chain(SparseNumbers(r), LeftBoundNumber(r), LeftPrevDelta(r), EntryOf(RightBoundData(r)))
  {
    var first := r.ds[0];
    var (next, pd) := LoopStart(r);
    SparseReaches(r);
    TailNumbersChain(next, pd, r.ds[1..]);
    var tail := TailNumbers(next, pd, r.ds[1..]);
    if IsExpected(first) {
      assert SparseNumbers(r) == tail;
    } else {
      assert EntriesOf(BeforeLoop(r)) == [EntryOf(first)];
      ConcatChain([EntryOf(first)], tail, first.pn, first.prev, EntryOf(first), EntryOf(RightBoundData(r)));
    }
  }

  /** Every range that can be built enumerates as one linked chain from its left bound to its right bound. */
  lemma {:induction false} NumbersChain(r: Range)
    requires Valid(r)
    ensures Chain(NumbersOf(r), LeftBoundNumber(r), LeftPrevDelta(r), EntryOf(RightBoundData(r)))
  {
    match r
    case One(d) =>
    case Gap(start, prevDelta, end) => HopChain(start, prevDelta, end);
    case Sequence(ds) => SequenceChain(ds);
    case Sparse(_) => SparseChain(r);
  }

  /** A linked chain is strictly increasing. */
  lemma {:induction false} LinkedIncreases(es: seq<Entry>, i: nat, j: nat)
    requires Linked(es) && i < j < |es|
    ensures es[i].n + es[i].next <= es[j].n && es[i].n < es[j].n
    decreases j - i
  {
    LinkedAt(es, i);
    if i + 1 < j {
      LinkedIncreases(es, i + 1, j);
    }
  }

  lemma {:induction false} ChainIncreases(es: seq<Entry>)
    requires Linked(es)
    ensures forall i, j :: 0 <= i < j < |es| ==> es[i].n < es[j].n
  {
    forall i, j | 0 <= i < j < |es|
      ensures es[i].n < es[j].n
    {
      LinkedIncreases(es, i, j);
    }
  }

  // ------------------------------------------------------------ runs of ranges

  ghost predicate IsRun(rs: seq<Range>) {
    && (forall i {:trigger Valid(rs[i])} :: 0 <= i < |rs| ==> Valid(rs[i]))
    && (forall i, j {:trigger RangeIsValidNext(rs[i], rs[j])} :: 0 <= i < j < |rs| && j == i + 1 ==>
          Valid(rs[i]) && Valid(rs[j]) && RangeIsValidNext(rs[i], rs[j]))
  }

  lemma {:induction false} RunSnoc(rs: seq<Range>, r: Range)
    requires IsRun(rs) && Valid(r) && (rs != [] ==> Valid(rs[|rs| - 1]) && RangeIsValidNext(rs[|rs| - 1], r))
    ensures IsRun(rs + [r])
  {
  }

  lemma {:induction false} RunPrefix(rs: seq<Range>)
    requires rs != [] && IsRun(rs)
    ensures IsRun(rs[..|rs| - 1]) && Valid(rs[|rs| - 1])
    ensures |rs| > 1 ==> Valid(rs[|rs| - 2]) && RangeIsValidNext(rs[|rs| - 2], rs[|rs| - 1])
  {
  }

  function AllNumbers(rs: seq<Range>): seq<Entry>
    requires IsRun(rs)
  {
    if rs == [] then []
    else
      RunPrefix(rs);
      AllNumbers(rs[..|rs| - 1]) + NumbersOf(rs[|rs| - 1])
  }

  /** Ranges that follow one another enumerate together as one linked chain. */
  lemma {:induction false} RunChain(rs: seq<Range>)
    requires rs != [] && IsRun(rs) && Valid(rs[0]) && Valid(rs[|rs| - 1])
    ensures Chain(AllNumbers(rs), LeftBoundNumber(rs[0]), LeftPrevDelta(rs[0]), EntryOf(RightBoundData(rs[|rs| - 1])))
  {
    RunPrefix(rs);
    var last := rs[|rs| - 1];
    var init := rs[..|rs| - 1];
    NumbersChain(last);
    if init == [] {
      assert AllNumbers(rs) == NumbersOf(last);
    } else {
      RunChain(init);
      var mid := EntryOf(RightBoundData(rs[|rs| - 2]));
      ConcatChain(AllNumbers(init), NumbersOf(last), LeftBoundNumber(rs[0]), LeftPrevDelta(rs[0]), mid,
                  EntryOf(RightBoundData(last)));
    }
  }

  lemma {:induction false} RunIsOneChain(rs: seq<Range>)
    requires rs != [] && IsRun(rs) && Valid(rs[0]) && Valid(rs[|rs| - 1])
    ensures var es, right := AllNumbers(rs), RightBoundData(rs[|rs| - 1]);
            && Chain(es, LeftBoundNumber(rs[0]), LeftPrevDelta(rs[0]), EntryOf(right))
            && es[|es| - 1].n == right.pn && es[|es| - 1].next == right.next
            && forall i, j :: 0 <= i < j < |es| ==> es[i].n < es[j].n
  {
    RunChain(rs);
    ChainIncreases(AllNumbers(rs));
  }
}
