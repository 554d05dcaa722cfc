/** Which pulse numbers the present slot accepts (ledger-core/conveyor/pulse_slot.go). */
module PulseSlot {
  import opened PulseNumber
  import opened PulseData
  import opened PulseRange

  datatype SlotState = Future | Present | Past | Antique

  datatype Verdict = NoMatch | Match | Prohibited

  /** The visitor of _isAcceptedPresent at one provided pulse; NoMatch lets the search go on. */
  function Judge(pn: Number, e: Entry): Verdict {
    if e.n == pn then Match
    else if IsEqOrOut(pn, e.n, e.prev, e.next) then (if pn < e.n then Match else NoMatch)
    else Prohibited
  }

  function FirstVerdict(pn: Number, es: seq<Entry>): Verdict {
    if es == [] then NoMatch
    else if Judge(pn, es[0]) != NoMatch then Judge(pn, es[0])
    else FirstVerdict(pn, es[1..])
  }

  /** What _isAcceptedPresent answers: the state it reports and whether pn is accepted. */
  function IsAcceptedPresent(state: SlotState, range: Range, presentPN: Number, pn: Number): (SlotState, bool)
    requires state == Present ==> Valid(range)
  {
    if state != Present then (state, false)
    else if pn == presentPN then (Present, true)
    else if pn < LeftBoundNumber(range) then (Past, false)
    else if IsSingular(range) then (Present, false)
    else
      match FirstVerdict(pn, ProvidedNumbers(range))
      case NoMatch => (Present, IsArticulated(range))
      case Match => (Present, true)
      case Prohibited => (Present, false)
  }

  method AcceptsPresent(state: SlotState, range: Range, presentPN: Number, pn: Number) returns (ps: SlotState, ok: bool)
    requires state == Present ==> Valid(range)
    ensures (ps, ok) == IsAcceptedPresent(state, range, presentPN, pn)
  {
    if state != Present {
      return state, false;
    } else if pn == presentPN {
      return Present, true;
    } else if pn < LeftBoundNumber(range) {
      return Past, false;
    } else if IsSingular(range) {
      return Present, false;
    }
    var es := ProvidedNumbers(range);
    var found, isProhibited := false, false;
    var i := 0;
    while i < |es| && !found
      invariant 0 <= i <= |es| && (isProhibited ==> found)
      invariant FirstVerdict(pn, es)
             == if found then (if isProhibited then Prohibited else Match) else FirstVerdict(pn, es[i..])
    {
      var e := es[i];
      assert es[i..][0] == e && es[i..][1..] == es[i + 1..];
      if e.n == pn {
        found := true;
      } else if IsEqOrOut(pn, e.n, e.prev, e.next) {
        found := pn < e.n;
      } else {
        found, isProhibited := true, true;
      }
      i := i + 1;
    }
    ps, ok := Present, if found then !isProhibited else IsArticulated(range);
  }

  // ------------------------------------------------------------ what the scan decides

  /** Provided pulses come in order, and no delta window reaches over a neighbour. */
  ghost predicate Apart(es: seq<Entry>) {
    forall i, j :: 0 <= i < j < |es| ==>
      es[i].n < es[j].n && es[i].n + es[i].next <= es[j].n && es[i].n <= es[j].n - es[j].prev
  }

  lemma {:induction false} SortedApart(ds: seq<Data>, i: nat, j: nat)
    requires Sorted(ds) && i < j < |ds|
    ensures ds[i].pn < ds[j].pn && ds[i].pn + ds[i].next <= ds[j].pn && ds[i].pn <= ds[j].pn - ds[j].prev
    decreases j - i
  {
    assert LinkedOrApart(ds[j - 1], ds[j]);
    if i < j - 1 {
      SortedApart(ds, i, j - 1);
    }
  }

  lemma {:induction false} ProvidedApart(r: Range)
    requires Valid(r)
    ensures Apart(ProvidedNumbers(r)) && ProvidedNumbers(r) != []
    ensures forall e :: e in ProvidedNumbers(r) ==> IsTimePulse(e.n)
  {
    var ds := ProvidedData(r);
    if |ds| > 1 {
      forall i, j | 0 <= i < j < |ds|
        ensures ds[i].pn < ds[j].pn && ds[i].pn + ds[i].next <= ds[j].pn && ds[i].pn <= ds[j].pn - ds[j].prev
      {
        SortedApart(ds, i, j);
      }
    }
  }

  /** Exactly when the scan accepts pn, for all deltas: every lower pulse is at least its own *prev*
      delta away, and the nearest higher one is equal or at least its own *next* delta away; with no
      higher pulse, only an articulated range accepts. */
  ghost predicate ScanAccepts(pn: Number, es: seq<Entry>, articulated: bool) {
    && (forall i :: 0 <= i < |es| && es[i].n < pn ==> pn - es[i].n >= es[i].prev)
    && (forall i :: 0 <= i < |es| && es[i].n > pn && AllBelow(es, i, pn) ==> es[i].n - pn >= es[i].next)
    && ((forall i :: 0 <= i < |es| ==> es[i].n < pn) ==> articulated)
  }

  ghost predicate AllBelow(es: seq<Entry>, k: nat, pn: Number)
    requires k <= |es|
  {
    forall j :: 0 <= j < k ==> es[j].n < pn
  }

  ghost predicate VerdictAccepts(v: Verdict, articulated: bool) { v.Match? || (v.NoMatch? && articulated) }

  lemma {:induction false} VerdictIsScan(pn: Number, es: seq<Entry>, articulated: bool)
    requires IsTimePulse(pn) && Apart(es) && forall e :: e in es ==> IsTimePulse(e.n)
    ensures VerdictAccepts(FirstVerdict(pn, es), articulated) <==> ScanAccepts(pn, es, articulated)
  {
    if es != [] {
      var e := es[0];
      assert e in es;
      if e.n < pn && pn - e.n >= e.prev {
        VerdictIsScan(pn, es[1..], articulated);
        ScanSkipsLower(pn, es, articulated);
      } else if e.n >= pn {
        assert AllBelow(es, 0, pn) && forall i :: 0 < i < |es| ==> !AllBelow(es, i, pn);
      }
    }
  }

  lemma {:induction false} ScanSkipsLower(pn: Number, es: seq<Entry>, articulated: bool)
    requires es != [] && es[0].n < pn && pn - es[0].n >= es[0].prev
    ensures ScanAccepts(pn, es, articulated) <==> ScanAccepts(pn, es[1..], articulated)
  {
    var rest := es[1..];
    assert forall i :: 0 <= i < |rest| ==> rest[i] == es[i + 1];
    forall i | 0 < i < |es|
      ensures es[i] == rest[i - 1] && (AllBelow(es, i, pn) <==> AllBelow(rest, i - 1, pn))
    {
      assert forall j :: 0 < j < i ==> es[j] == rest[j - 1];
    }
  }

  /** The present slot of a multi-pulse range accepts pn exactly when ScanAccepts says so. */
  lemma {:induction false} AcceptedPresentExactly(range: Range, presentPN: Number, pn: Number)
    requires Valid(range) && !IsSingular(range) && IsTimePulse(pn)
    requires LeftBoundNumber(range) <= pn != presentPN
    ensures IsAcceptedPresent(Present, range, presentPN, pn)
            == (Present, ScanAccepts(pn, ProvidedNumbers(range), IsArticulated(range)))
  {
    ProvidedApart(range);
    VerdictIsScan(pn, ProvidedNumbers(range), IsArticulated(range));
  }

  /** pn lies strictly inside the delta window of a provided pulse. */
  ghost predicate InsideWindow(pn: Number, e: Entry) { e.n - e.prev < pn < e.n + e.next }

  ghost predicate InNoWindow(pn: Number, es: seq<Entry>) { forall i :: 0 <= i < |es| ==> !InsideWindow(pn, es[i]) }

  ghost predicate IsProvided(pn: Number, es: seq<Entry>) { exists i :: 0 <= i < |es| && es[i].n == pn }

  /** What the present slot is meant to accept: its provided pulses, and in an articulated range every
      number that lies in no provided pulse's window. */
  ghost predicate Intended(range: Range, pn: Number)
    requires Valid(range)
  {
    IsProvided(pn, ProvidedNumbers(range)) || (IsArticulated(range) && InNoWindow(pn, ProvidedNumbers(range)))
  }

  /** What it does accept while it is present. */
  predicate Accepts(range: Range, pn: Number)
    requires Valid(range)
  {
    IsAcceptedPresent(Present, range, RightBoundData(range).pn, pn).1
  }

  // ------------------------------------------------------------ when the scan does what is meant

  function Max(a: int, b: int): int { if a >= b then a else b }

  /** The least number that the first k pulses let pass. */
  function Floor(es: seq<Entry>, k: nat): int
    requires k <= |es|
  {
    if k == 0 then 0 else Max(Floor(es, k - 1), es[k - 1].n + Max(1, es[k - 1].prev))
  }

  lemma {:induction false} FloorIs(es: seq<Entry>, k: nat, pn: Number)
    requires k <= |es|
    ensures Floor(es, k) <= pn <==> forall i :: 0 <= i < k ==> es[i].n + Max(1, es[i].prev) <= pn
  {
    if k > 0 {
      FloorIs(es, k - 1, pn);
    }
  }

  /** Where the numbers meant to be accepted before pulse k start; they end at that pulse's prev delta. */
  function Lowest(es: seq<Entry>, left: Number, k: nat): int
    requires k < |es|
  {
    if k == 0 then left else es[k - 1].n + es[k - 1].next
  }

  predicate IsApart(es: seq<Entry>, left: Number, k: nat)
    requires k < |es|
  {
    Lowest(es, left, k) <= es[k].n - es[k].prev
  }

  /** pn lies between the pulse before k, or the left bound, and pulse k. */
  predicate InGap(es: seq<Entry>, left: Number, k: nat, pn: Number)
    requires k < |es|
  {
    (if k == 0 then left <= pn else es[k - 1].n < pn) && pn < es[k].n
  }

  /** The gap before pulse k is let through from its first number to its last, or, when pulse k follows
      directly, not at all. */
  predicate GapFits(es: seq<Entry>, left: Number, k: nat)
    requires k < |es|
  {
    if k == 0 then left == es[0].n || es[0].next == es[0].prev
    else if IsApart(es, left, k) then es[k].next == es[k].prev && Floor(es, k) == Lowest(es, left, k)
    else es[k].n - es[k].next < Floor(es, k)
  }

  /** A check on the deltas up to pulse k, which is also let pass itself; the last one always is. */
  predicate Fits(es: seq<Entry>, left: Number, k: nat)
    requires k < |es|
  {
    (k == |es| - 1 || Floor(es, k) <= es[k].n) && GapFits(es, left, k)
  }

  lemma {:induction false} GapAccepts(es: seq<Entry>, left: Number, k: nat, pn: Number, articulated: bool)
    requires Apart(es) && k < |es| && InGap(es, left, k, pn)
    ensures ScanAccepts(pn, es, articulated) <==> Floor(es, k) <= pn <= es[k].n - es[k].next
  {
    FloorIs(es, k, pn);
    assert AllBelow(es, k, pn);
    assert forall i :: k < i < |es| ==> !AllBelow(es, i, pn);
  }

  lemma {:induction false} GapIntended(es: seq<Entry>, left: Number, k: nat, pn: Number)
    requires Apart(es) && k < |es| && InGap(es, left, k, pn) && forall i :: 0 <= i < |es| ==> es[i].next > 0
    ensures !IsProvided(pn, es)
    ensures InNoWindow(pn, es) <==> Lowest(es, left, k) <= pn <= es[k].n - es[k].prev
  {
    assert forall i :: 0 <= i < k ==> es[i].n < pn;
    assert forall i :: 0 <= i < k ==> es[i].n + es[i].next <= Lowest(es, left, k);
    assert forall i :: k < i < |es| ==> pn < es[k].n <= es[i].n - es[i].prev;
  }

  lemma {:induction false} ProvidedAccepted(es: seq<Entry>, k: nat, articulated: bool)
    requires Apart(es) && k < |es|
    ensures ScanAccepts(es[k].n, es, articulated) <==> Floor(es, k) <= es[k].n
  {
    FloorIs(es, k, es[k].n);
  }

  predicate Within(x: int, a: int, b: int) { a <= x <= b }

  /** Two intervals inside a gap hold the same numbers exactly when their bounds agree or both are empty. */
  lemma {:induction false} SameInterval(lo: int, hi: int, a: int, b: int, c: int, d: int)
    requires 0 <= lo <= a && lo <= c && b < hi && d < hi < 0x1_0000_0000
    ensures (forall x: Number :: lo <= x < hi ==> (Within(x, a, b) <==> Within(x, c, d))) <==>
            if c <= d then a == c && b == d else b < a
  {
    if forall x: Number :: lo <= x < hi ==> (Within(x, a, b) <==> Within(x, c, d)) {
      assert a <= b ==> Within(a, a, b) && Within(b, a, b);
      assert c <= d ==> Within(c, c, d) && Within(d, c, d);
    }
  }

  /** What the provided pulses of a range of more than one pulse are like. */
  ghost predicate Spaced(es: seq<Entry>, left: Number, articulated: bool) {
    && es != [] && Apart(es) && left <= es[0].n
    && (forall i :: 0 <= i < |es| ==> es[i].next > 0 && IsTimePulse(es[i].n))
    && (forall i :: 0 < i < |es| ==> es[i].prev > 0)
    && (left < es[0].n ==> articulated && es[0].prev > 0 && IsApart(es, left, 0))
    && (!articulated ==> forall k :: 0 < k < |es| ==> !IsApart(es, left, k))
  }

  ghost predicate GapAgrees(es: seq<Entry>, articulated: bool, pn: Number) {
    ScanAccepts(pn, es, articulated) <==> articulated && InNoWindow(pn, es)
  }

  lemma {:induction false} GapAgreement(es: seq<Entry>, left: Number, articulated: bool, k: nat, pn: Number)
    requires Spaced(es, left, articulated) && k < |es| && InGap(es, left, k, pn)
    ensures GapAgrees(es, articulated, pn) <==>
            (Within(pn, Floor(es, k), es[k].n - es[k].next) <==> Within(pn, Lowest(es, left, k), es[k].n - es[k].prev))
  {
    assert k > 0 && !articulated ==> !IsApart(es, left, k);
    GapAccepts(es, left, k, pn, articulated);
    GapIntended(es, left, k, pn);
  }

  lemma {:induction false} FloorIsAbove(es: seq<Entry>, k: nat)
    requires k <= |es|
    ensures if k == 0 then Floor(es, k) == 0 else Floor(es, k) > es[k - 1].n
  {
  }

  lemma {:induction false} GapAgreesExactly(es: seq<Entry>, left: Number, articulated: bool, k: nat)
    requires Spaced(es, left, articulated) && k < |es|
    ensures (forall pn :: InGap(es, left, k, pn) ==> GapAgrees(es, articulated, pn)) <==> GapFits(es, left, k)
  {
    var lo, hi := if k == 0 then left else es[k - 1].n + 1, es[k].n;
    var a, b := Max(lo, Floor(es, k)), es[k].n - es[k].next;
    var c, d := Lowest(es, left, k), es[k].n - es[k].prev;
    FloorIsAbove(es, k);
    forall pn: Number | lo <= pn < hi
      ensures GapAgrees(es, articulated, pn) <==> (Within(pn, a, b) <==> Within(pn, c, d))
    {
      GapAgreement(es, left, articulated, k, pn);
    }
    if lo < hi {
      SameInterval(lo, hi, a, b, c, d);
    }
    GapAsInterval(es, left, articulated, k, lo, hi, a, b, c, d);
  }

  lemma {:induction false} GapAsInterval(es: seq<Entry>, left: Number, articulated: bool, k: nat,
                                         lo: int, hi: int, a: int, b: int, c: int, d: int)
    requires k < |es| && hi == es[k].n && lo == if k == 0 then left else es[k - 1].n + 1
    requires forall pn: Number :: lo <= pn < hi ==>
               (GapAgrees(es, articulated, pn) <==> (Within(pn, a, b) <==> Within(pn, c, d)))
    ensures (forall pn :: InGap(es, left, k, pn) ==> GapAgrees(es, articulated, pn)) <==>
            (forall x: Number :: lo <= x < hi ==> (Within(x, a, b) <==> Within(x, c, d)))
  {
    if forall pn :: InGap(es, left, k, pn) ==> GapAgrees(es, articulated, pn) {
      forall x: Number | lo <= x < hi
        ensures Within(x, a, b) <==> Within(x, c, d)
      {
        assert InGap(es, left, k, x);
      }
    }
  }

  lemma {:induction false} RangeIsSpaced(r: Range)
    requires Valid(r) && !IsSingular(r)
    ensures Spaced(ProvidedNumbers(r), LeftBoundNumber(r), IsArticulated(r))
  {
    var ds, es, left := ProvidedData(r), ProvidedNumbers(r), LeftBoundNumber(r);
    ProvidedApart(r);
    ProvidedNotExpected(r);
    forall i | 0 < i < |ds|
      ensures ds[i].prev > 0 && (!IsArticulated(r) ==> !IsApart(es, left, i))
    {
      assert LinkedOrApart(ds[i - 1], ds[i]);
      assert r.Sequence? ==> IsValidNext(ds[i - 1], ds[i]);
    }
  }

  ghost predicate Agrees(range: Range, pn: Number)
    requires Valid(range)
  {
    Accepts(range, pn) <==> Intended(range, pn)
  }

  /** The scan accepts exactly what is meant, for every number of the range, exactly when the deltas of all
      its provided pulses fit. */
  lemma {:induction false} AcceptsIntendedExactly(range: Range)
    requires Valid(range)
    ensures var es, left := ProvidedNumbers(range), LeftBoundNumber(range);
            (forall pn :: left <= pn <= RightBoundData(range).pn ==> Agrees(range, pn)) <==>
            (forall k :: 0 <= k < |es| ==> Fits(es, left, k))
  {
    var es, left, right := ProvidedNumbers(range), LeftBoundNumber(range), RightBoundData(range).pn;
    LastProvidedIsRight(range);
    if IsSingular(range) {
      assert es[0].n == left == right;
    } else {
      RangeIsSpaced(range);
      if forall k :: 0 <= k < |es| ==> Fits(es, left, k) {
        forall pn | left <= pn <= right
          ensures Agrees(range, pn)
        {
          FittingAgrees(range, es, left, pn);
        }
      }
      if forall pn :: left <= pn <= right ==> Agrees(range, pn) {
        forall k | 0 <= k < |es|
          ensures Fits(es, left, k)
        {
          AgreeingFits(range, es, left, k);
        }
      }
    }
  }

  /** In a gap, and at a provided pulse before the last, agreement is a matter of the scan alone. */
  lemma {:induction false} AgreesByScan(range: Range, es: seq<Entry>, left: Number, k: nat, pn: Number)
    requires Valid(range) && !IsSingular(range) && es == ProvidedNumbers(range) && left == LeftBoundNumber(range)
    requires Spaced(es, left, IsArticulated(range)) && k < |es| && left <= pn < RightBoundData(range).pn
    ensures InGap(es, left, k, pn) ==> (Agrees(range, pn) <==> GapAgrees(es, IsArticulated(range), pn))
    ensures pn == es[k].n ==> (Agrees(range, pn) <==> Floor(es, k) <= es[k].n)
  {
    LeftIsTimePulse(range);
    AcceptedPresentExactly(range, RightBoundData(range).pn, pn);
    if InGap(es, left, k, pn) {
      GapIntended(es, left, k, pn);
    } else if pn == es[k].n {
      ProvidedAccepted(es, k, IsArticulated(range));
    }
  }

  lemma {:induction false} LeftIsTimePulse(r: Range)
    requires Valid(r)
    ensures IsTimePulse(LeftBoundNumber(r)) && IsTimePulse(RightBoundData(r).pn)
  {
  }

  lemma {:induction false} FittingAgrees(range: Range, es: seq<Entry>, left: Number, pn: Number)
    requires Valid(range) && !IsSingular(range) && es == ProvidedNumbers(range) && left == LeftBoundNumber(range)
    requires Spaced(es, left, IsArticulated(range)) && forall k :: 0 <= k < |es| ==> Fits(es, left, k)
    requires left <= pn <= RightBoundData(range).pn
    ensures Agrees(range, pn)
  {
    LastProvidedIsRight(range);
    if pn < RightBoundData(range).pn {
      var k := NearestHigher(es, pn);
      FittingAgreesAt(range, es, left, k, pn);
    }
  }

  lemma {:induction false} FittingAgreesAt(range: Range, es: seq<Entry>, left: Number, k: nat, pn: Number)
    requires Valid(range) && !IsSingular(range) && es == ProvidedNumbers(range) && left == LeftBoundNumber(range)
    requires Spaced(es, left, IsArticulated(range)) && k < |es| && Fits(es, left, k)
    requires left <= pn < RightBoundData(range).pn && (pn == es[k].n || InGap(es, left, k, pn))
    ensures Agrees(range, pn)
  {
    LastProvidedIsRight(range);
    AgreesByScan(range, es, left, k, pn);
    GapAgreesExactly(es, left, IsArticulated(range), k);
  }

  lemma {:induction false} AgreeingFits(range: Range, es: seq<Entry>, left: Number, k: nat)
    requires Valid(range) && !IsSingular(range) && es == ProvidedNumbers(range) && left == LeftBoundNumber(range)
    requires Spaced(es, left, IsArticulated(range)) && k < |es|
    requires forall pn :: left <= pn <= RightBoundData(range).pn ==> Agrees(range, pn)
    ensures Fits(es, left, k)
  {
    LastProvidedIsRight(range);
    if k < |es| - 1 {
      assert Agrees(range, es[k].n);
      AgreesByScan(range, es, left, k, es[k].n);
    }
    forall pn | InGap(es, left, k, pn)
      ensures GapAgrees(es, IsArticulated(range), pn)
    {
      assert Agrees(range, pn);
      AgreesByScan(range, es, left, k, pn);
    }
    GapAgreesExactly(es, left, IsArticulated(range), k);
  }

  /** Past the right bound an articulated range accepts whatever its pulses let pass, and no other any. */
  lemma {:induction false} AcceptsBeyondExactly(range: Range, pn: Number)
    requires Valid(range) && IsTimePulse(pn) && RightBoundData(range).pn < pn
    ensures var es := ProvidedNumbers(range);
            Accepts(range, pn) <==> IsArticulated(range) && Floor(es, |es|) <= pn
  {
    LastProvidedIsRight(range);
    ProvidedApart(range);
    if !IsSingular(range) {
      LeftNotPastRight(range);
      AcceptedPresentExactly(range, RightBoundData(range).pn, pn);
      ScanBeyond(ProvidedNumbers(range), pn, IsArticulated(range));
    }
  }

  lemma {:induction false} ScanBeyond(es: seq<Entry>, pn: Number, articulated: bool)
    requires es != [] && Apart(es) && es[|es| - 1].n < pn
    ensures ScanAccepts(pn, es, articulated) <==> articulated && Floor(es, |es|) <= pn
  {
    FloorIs(es, |es|, pn);
    assert forall i :: 0 <= i < |es| ==> es[i].n < pn;
  }

  lemma {:induction false} LeftNotPastRight(range: Range)
    requires Valid(range) && !IsSingular(range)
    ensures LeftBoundNumber(range) <= RightBoundData(range).pn
  {
    RangeIsSpaced(range);
    LastProvidedIsRight(range);
  }

  /** Equal deltas fit, so a range whose provided pulses have them accepts what is meant. */
  lemma {:induction false} EqualDeltasAccept(range: Range, pn: Number)
    requires Valid(range) && !IsSingular(range)
    requires forall e :: e in ProvidedNumbers(range) ==> e.prev == e.next
    requires LeftBoundNumber(range) <= pn <= RightBoundData(range).pn
    ensures Accepts(range, pn) <==> Intended(range, pn)
  {
    var es, left := ProvidedNumbers(range), LeftBoundNumber(range);
    RangeIsSpaced(range);
    forall k | 0 <= k < |es|
      ensures Fits(es, left, k)
    {
      EqualDeltasFloor(es, left, IsArticulated(range), k);
    }
    AcceptsIntendedExactly(range);
    assert Agrees(range, pn);
  }

  lemma {:induction false} EqualDeltasFloor(es: seq<Entry>, left: Number, articulated: bool, k: nat)
    requires Spaced(es, left, articulated) && k < |es| && forall e :: e in es ==> e.prev == e.next
    ensures k > 0 ==> Floor(es, k) == es[k - 1].n + es[k - 1].next <= es[k].n
    ensures Fits(es, left, k)
  {
    assert es[k] in es;
    if k > 0 {
      EqualDeltasFloor(es, left, articulated, k - 1);
    }
  }

  lemma {:induction false} ProvidedNotExpected(r: Range)
    requires Valid(r) && !IsSingular(r)
    ensures forall i :: 0 <= i < |ProvidedNumbers(r)| ==> ProvidedNumbers(r)[i].next > 0
  {
  }

  lemma {:induction false} LastProvidedIsRight(r: Range)
    requires Valid(r)
    ensures ProvidedNumbers(r) != [] && ProvidedNumbers(r)[|ProvidedNumbers(r)| - 1] == EntryOf(RightBoundData(r))
  {
  }

  lemma {:induction false} NearestHigher(es: seq<Entry>, pn: Number) returns (k: nat)
    requires es != [] && es[|es| - 1].n >= pn
    ensures k < |es| && es[k].n >= pn && forall j :: 0 <= j < k ==> es[j].n < pn
  {
    k := 0;
    while es[k].n < pn
      invariant k < |es| && forall j :: 0 <= j < k ==> es[j].n < pn
      decreases |es| - k
    {
      k := k + 1;
    }
  }

  /** With unequal deltas it does not: a number between two linked pulses is accepted. */
  lemma {:induction false} UnequalDeltasAcceptMore()
    ensures var a, b := Data(100000, 100000, 10, 3, 0, 0), Data(100010, 100010, 2, 10, 0, 0);
            && Valid(Sequence([a, b])) && !IsArticulated(Sequence([a, b]))
            && a.pn < 100005 < a.pn + a.next == b.pn
            && IsAcceptedPresent(Present, Sequence([a, b]), b.pn, 100005) == (Present, true)
  {
    var a, b := Data(100000, 100000, 10, 3, 0, 0), Data(100010, 100010, 2, 10, 0, 0);
    var es := ProvidedNumbers(Sequence([a, b]));
    assert es == [EntryOf(a), EntryOf(b)];
    assert FirstVerdict(100005, es) == FirstVerdict(100005, es[1..]) == Match;
  }

  /** And a provided pulse is rejected. */
  lemma {:induction false} UnequalDeltasRejectProvided()
    ensures var a, b := Data(100000, 100000, 10, 50, 0, 0), Data(100010, 100010, 10, 10, 0, 0);
            var c := Data(100020, 100020, 10, 10, 0, 0);
            && Valid(Sequence([a, b, c])) && IsProvided(b.pn, ProvidedNumbers(Sequence([a, b, c])))
            && IsAcceptedPresent(Present, Sequence([a, b, c]), c.pn, b.pn) == (Present, false)
  {
    var a, b := Data(100000, 100000, 10, 50, 0, 0), Data(100010, 100010, 10, 10, 0, 0);
    var c := Data(100020, 100020, 10, 10, 0, 0);
    var es := ProvidedNumbers(Sequence([a, b, c]));
    assert es == [EntryOf(a), EntryOf(b), EntryOf(c)];
    assert es[1].n == b.pn && Judge(b.pn, es[0]) == Prohibited;
  }
}
