/** What the constructors of ranges build from their arguments, what links two ranges, and how gaps are split. */
module PulseRangeLaws {
  import opened PulseNumber
  import opened PulseData
  import opened PulseRange

  // ------------------------------------------------------------ numbers, epochs and data

  /** The next and the previous number undo each other. */
  lemma {:induction false} NextPrevInverse(n: Number, d: Delta, m: Number)
    ensures TryNext(n, d) == Some(m) <==> IsTimePulse(n) && IsTimePulse(m) && m == n + d
    ensures TryNext(n, d) == Some(m) <==> TryPrev(m, d) == Some(n)
  {
  }

  /** Pulses of the pulsar and articulated ones go together, any other kind only with itself. */
  lemma {:induction false} CompatibleExactly(v: Epoch, vv: Epoch)
    ensures IsCompatible(v, vv) <==>
            || (v == vv && IsSpecialEpoch(v))
            || ((IsTimeEpoch(v) || v == ARTICULATION_EPOCH) && (IsTimeEpoch(vv) || vv == ARTICULATION_EPOCH))
    ensures IsCompatible(v, vv) == IsCompatible(vv, v)
  {
  }

  /** Valid next data are linked numbers of compatible epochs that are not expected ones. */
  lemma {:induction false} ValidNextIsLink(d: Data, n: Data)
    ensures IsValidNext(d, n) <==>
            IsTimePulse(d.pn) && Link(EntryOf(d), EntryOf(n)) && n.next > 0 && IsCompatible(d.epoch, n.epoch)
  {
  }

  /** The data of ranges, pulses, pulsar pulses and expected pulses: a time pulse with room for the one before it, whose
      epoch is one of the two special ones or a time not after it; an expected pulse needs no room. */
  lemma {:induction false} DataExactly(d: Data)
    ensures IsRangeData(d) <==>
            65537 + d.prev <= d.pn < 0x4000_0000 && (d.epoch == 1 || d.epoch == 2 || 65537 <= d.epoch <= d.pn)
    ensures IsPulseData(d) <==> IsRangeData(d) && d.next != 0
    ensures IsPulsarData(d) <==> 65537 + d.prev <= d.pn < 0x4000_0000 && 65537 <= d.epoch <= d.pn && d.next != 0
    ensures IsExpectedData(d) <==> IsRangeData(d.(prev := 0)) && d.next == 0
  {
  }

  /** Pulses that need no gap data between them: linked, or with room for the next of the one and the previous of the
      other, which may be the same. */
  lemma {:induction false} ApartExactly(a: Data, b: Data)
    requires IsPulseData(a) && IsPulseData(b)
    ensures LinkedOrApart(a, b) <==>
            || (a.pn + a.next == b.pn && a.next == b.prev && IsCompatible(a.epoch, b.epoch))
            || (b.prev > 0 && a.pn + a.next <= b.pn - b.prev)
  {
  }

  // ------------------------------------------------------------ what is built

  /** ds without a leading expected pulse, unless that is all there is. */
  function Pulses(ds: seq<Data>): seq<Data> { if |ds| > 1 && IsExpected(ds[0]) then ds[1..] else ds }

  /** The range r starts where ds starts, ends with its last pulse, and provides its pulses. */
  ghost predicate Covers(r: Range, ds: seq<Data>) {
    && Valid(r) && ds != []
    && LeftBoundNumber(r) == ds[0].pn && LeftPrevDelta(r) == ds[0].prev && RightBoundData(r) == ds[|ds| - 1]
    && ProvidedData(r) == Pulses(ds)
  }

  /** NewPulseRange builds a range exactly from one range datum, or from pulses that are linked or clearly apart, with
      an expected pulse allowed first if the next one has a previous pulse that is not before it; alone with one
      pulse, the expected one must have a previous number itself. */
  lemma {:induction false} PulseRangeExactly(ds: seq<Data>)
    ensures PulseRangeOf(ds).Some? <==>
            && ds != [] && (|ds| == 1 ==> IsRangeData(ds[0])) && (|ds| > 1 ==> Sorted(Pulses(ds)))
            && (|ds| > 1 && IsExpected(ds[0]) ==>
                  IsExpectedData(ds[0]) && ds[1].prev > 0 && ds[0].pn + ds[1].prev <= ds[1].pn)
            && (|ds| == 2 && IsExpected(ds[0]) ==> MIN_TIME_PULSE + ds[0].prev <= ds[0].pn)
    ensures PulseRangeOf(ds).Some? ==>
              var r := PulseRangeOf(ds).value;
              && Covers(r, ds) && (IsSingular(r) <==> |ds| == 1)
              && (IsArticulated(r) <==> |ds| > 1 && (IsExpected(ds[0]) || !AllLinked(ds)))
  {
    if |ds| > 1 && IsExpected(ds[0]) {
      ExpectedFirst(ds);
    }
    if PulseRangeOf(ds).Some? {
      ConstructorsGiveValid(ds, 0, 0, ds[0]);
    }
  }

  lemma {:induction false} ExpectedFirst(ds: seq<Data>)
    requires |ds| > 1
    ensures Sorted(ds[1..]) ==> IsPulseData(ds[1])
    ensures |ds| == 2 && IsPulseData(ds[1]) ==> Sorted(ds[1..])
  {
    if Sorted(ds[1..]) {
      assert IsPulseData(ds[1..][0]);
    }
  }

  /** NewSequenceRange builds one exactly from one range datum or from linked pulses. */
  lemma {:induction false} SequenceRangeExactly(ds: seq<Data>)
    ensures SequenceRangeOf(ds).Some? <==>
            ds != [] && (|ds| == 1 ==> IsRangeData(ds[0])) && (|ds| > 1 ==> Sorted(ds) && AllLinked(ds))
    ensures SequenceRangeOf(ds).Some? ==>
              var r := SequenceRangeOf(ds).value;
              Valid(r) && LeftBoundNumber(r) == ds[0].pn && LeftPrevDelta(r) == ds[0].prev
              && RightBoundData(r) == ds[|ds| - 1] && ProvidedData(r) == ds && !IsArticulated(r)
  {
    if SequenceRangeOf(ds).Some? {
      ConstructorsGiveValid(ds, 0, 0, ds[0]);
    }
  }

  /** NewLeftGapRange builds one exactly from a pulse and itself, or from a number with a previous one and a pulse whose
      previous one is not before that number. */
  lemma {:induction false} LeftGapRangeExactly(left: Number, leftPrevDelta: Delta, right: Data)
    ensures NewLeftGapRange(left, leftPrevDelta, right).Some? <==>
            && IsPulseData(right)
            && (if left == right.pn then leftPrevDelta == right.prev
                else right.prev > 0 && left + right.prev <= right.pn && MIN_TIME_PULSE + leftPrevDelta <= left)
    ensures NewLeftGapRange(left, leftPrevDelta, right).Some? ==>
              var r := NewLeftGapRange(left, leftPrevDelta, right).value;
              && Valid(r) && LeftBoundNumber(r) == left && LeftPrevDelta(r) == leftPrevDelta
              && RightBoundData(r) == right && ProvidedData(r) == [right] && (IsArticulated(r) <==> left != right.pn)
  {
    ConstructorsGiveValid([], left, leftPrevDelta, right);
  }

  // ------------------------------------------------------------ ranges one after another

  /** A range is a valid next of another exactly when the last number of the one links to the first of the other. */
  lemma {:induction false} RangeValidNextIsLink(r: Range, a: Range)
    requires Valid(r) && Valid(a)
    ensures NumbersOf(r) != [] && NumbersOf(a) != []
    ensures RangeIsValidNext(r, a) <==>
            IsTimePulse(LeftBoundNumber(a)) && Link(NumbersOf(r)[|NumbersOf(r)| - 1], NumbersOf(a)[0])
  {
    NumbersChain(r);
    NumbersChain(a);
    EndsLink(r, a, NumbersOf(r)[|NumbersOf(r)| - 1], NumbersOf(a)[0]);
  }

  lemma {:induction false} EndsLink(r: Range, a: Range, last: Entry, first: Entry)
    requires Valid(r) && Valid(a) && last == EntryOf(RightBoundData(r))
    requires first.n == LeftBoundNumber(a) && first.prev == LeftPrevDelta(a)
    ensures RangeIsValidNext(r, a) <==> IsTimePulse(first.n) && Link(last, first)
  {
  }

  // ------------------------------------------------------------ splitting

  /** A segment is as long as it can be so that nothing, or at least ten, is left. */
  lemma {:induction false} SegmentDeltaIsLargest(gap: nat, d: nat)
    requires gap > 0 && 0 < d <= 0xFFFF && d <= gap && (d == gap || gap - d >= 10)
    ensures var s := SegmentDelta(gap); d <= s <= gap && (s == gap || gap - s >= 10)
  {
  }
}
