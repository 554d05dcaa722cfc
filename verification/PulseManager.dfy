/** The packed (present, future) word of the pulse data manager (ledger-core/conveyor/pulse_manager.go)
    and the two compare-and-swap loops over it, under every interleaving of their atomic steps. */
module PulseManager {
  import opened PulseNumber
  import opened PulseData

  // uint64: the present number in the lower half, the nearest future one in the upper half
  type Word = w: int | 0 <= w < 0x1_0000_0000_0000_0000

  const UNINITIALIZED_FUTURE: Number := LOCAL_RELATIVE

  function Pack(present: Number, future: Number): (w: Word)
    ensures PresentOf(w) == present && FutureOf(w) == future
  {
    present + future * 0x1_0000_0000
  }

  function PresentOf(w: Word): Number { w % 0x1_0000_0000 }

  function FutureOf(w: Word): Number { w / 0x1_0000_0000 }

  function GetPresentPulse(w: Word): (Number, Number) {
    if w == 0 then (UNKNOWN, UNINITIALIZED_FUTURE) else (PresentOf(w), FutureOf(w))
  }

  // ------------------------------------------------------------ span predicates

  predicate IsAllowedFutureSpan(present: Number, expected: Number, future: Number, futureCycles: Number) {
    expected <= future
    && (futureCycles == 0 || future <= Add32(expected, Mul32(Sub32(expected, present), futureCycles)))
  }

  predicate IsAllowedPastSpan(present: Number, past: Number, maxPastPulseAge: Number) {
    past < present <= Add32(past, maxPastPulseAge)
  }

  predicate IsRecentPastRange(present: Number, past: Number, minRange: Number, earliest: Number) {
    past < present <= Add32(past, minRange) && past >= earliest
  }

  // ------------------------------------------------------------ the loops, step by step

  /** A call of mapToPulseSlotMachine or setPresentPulse between two of its atomic accesses. */
  datatype Call =
    | Routing(pn: Number, retries: nat)                    // about to load the word
    | RouteLoaded(pn: Number, retries: nat, seen: Word)    // about to decide or to swap
    | Routed
    | Committing(right: Data)
    | CommitLoaded(right: Data, seen: Word)
    | Committed
    | CommitPanicked

  datatype Memory = Memory(word: Word, calls: seq<Call>, futureSwaps: nat, commits: nat)

  const INITIAL := Memory(0, [], 0, 0)

  /** Only pulses with a next number are committed. */
  predicate CanCommit(right: Data) { IsPulsarData(right) && NextNumber(right).Some? }

  predicate IsStart(c: Call) { (c.Routing? && c.retries == 0) || (c.Committing? && CanCommit(c.right)) }

  predicate Callable(c: Call) { c.Committing? || c.CommitLoaded? ==> CanCommit(c.right) }

  /** One atomic access of call c, with the memory's other calls left alone. */
  function Access(m: Memory, c: Call): (Memory, Call)
    requires Callable(c)
  {
    match c
    case Routing(pn, retries) => (m, RouteLoaded(pn, retries, m.word))
    case RouteLoaded(pn, retries, seen) =>
      if PresentOf(seen) != UNKNOWN || seen != 0 || !IsTimePulse(pn) then (m, Routed)
      else if m.word == 0 then (m.(word := Pack(0, pn), futureSwaps := m.futureSwaps + 1), Routed)
      else (m, Routing(pn, retries + 1))
    case Committing(right) => (m, CommitLoaded(right, m.word))
    case CommitLoaded(right, seen) =>
      if seen != 0 && right.pn < FutureOf(seen) then (m, CommitPanicked)
      else if m.word == seen then
        (m.(word := Pack(right.pn, NextNumber(right).value), commits := m.commits + 1), Committed)
      else (m, Committing(right))
    case _ => (m, c)
  }

  ghost predicate Step(m: Memory, m': Memory) {
    || (exists c :: IsStart(c) && m' == m.(calls := m.calls + [c]))
    || (exists i :: 0 <= i < |m.calls| && Callable(m.calls[i]) && m' == StepOf(m, i))
  }

  function StepOf(m: Memory, i: nat): Memory
    requires i < |m.calls| && Callable(m.calls[i])
  {
    var (m', c') := Access(m, m.calls[i]);
    m'.(calls := m.calls[i := c'])
  }

  ghost predicate IsTrace(ms: seq<Memory>) {
    ms != [] && ms[0] == INITIAL && forall i, j :: 0 <= i < j < |ms| && j == i + 1 ==> Step(ms[i], ms[j])
  }

  // ------------------------------------------------------------ what every interleaving keeps

  ghost predicate CallInv(m: Memory, c: Call) {
    && Callable(c)
    && (c.Routing? ==> c.retries <= 1 && (c.retries == 1 ==> m.word != 0))
    && (c.RouteLoaded? ==> c.retries <= 1 && (c.retries == 1 ==> c.seen != 0))
  }

  ghost predicate Inv(m: Memory) {
    && (m.commits == 0 <==> PresentOf(m.word) == UNKNOWN)
    && m.futureSwaps <= 1
    && (m.word == 0 <==> m.commits == 0 && m.futureSwaps == 0)
    && (m.word != 0 ==> IsTimePulse(FutureOf(m.word)) && PresentOf(m.word) < FutureOf(m.word))
    && (forall i :: 0 <= i < |m.calls| ==> CallInv(m, m.calls[i]))
  }

  /** The word never goes back: empty, then optionally (unknown, f), then strictly increasing presents. */
  ghost predicate Advances(w: Word, w': Word) {
    || w' == w
    || (w == 0 && PresentOf(w') == UNKNOWN && IsTimePulse(FutureOf(w')))
    || (PresentOf(w) < PresentOf(w') < FutureOf(w') && FutureOf(w) <= PresentOf(w'))
  }

  lemma {:induction false} AccessKeepsInv(m: Memory, c: Call)
    requires Inv(m) && CallInv(m, c)
    ensures var (m', c') := Access(m, c);
            && Inv(m'.(calls := [])) && Advances(m.word, m'.word) && CallInv(m', c')
            && (m.word != 0 ==> m'.word != 0)
            && (m'.futureSwaps > m.futureSwaps ==> m.commits == 0 && m.word == 0)
            && (m'.commits > m.commits ==> PresentOf(m'.word) > PresentOf(m.word))
  {
  }

  lemma {:induction false} StepKeepsInv(m: Memory, m': Memory)
    requires Inv(m) && Step(m, m')
    ensures Inv(m') && Advances(m.word, m'.word)
    ensures m'.futureSwaps > m.futureSwaps ==> m.commits == 0 && m.word == 0
    ensures m'.commits > m.commits ==> PresentOf(m'.word) > PresentOf(m.word)
  {
    if c :| IsStart(c) && m' == m.(calls := m.calls + [c]) {
      assert forall i :: 0 <= i < |m.calls| ==> m'.calls[i] == m.calls[i];
    } else {
      var i :| 0 <= i < |m.calls| && Callable(m.calls[i]) && m' == StepOf(m, i);
      AccessKeepsInv(m, m.calls[i]);
      forall j | 0 <= j < |m'.calls|
        ensures CallInv(m', m'.calls[j])
      {
        assert CallInv(m, m.calls[j]);
      }
    }
  }

  /** What the two swaps store: a commit its right bound and the number after it, a routing call its own number as the
      future of an unknown present. A swap takes effect exactly when the word is still the one that was loaded. */
  lemma {:induction false} SwapsStore(m: Memory, c: Call)
    requires Callable(c)
    ensures var (m', c') := Access(m, c);
            && (m'.commits > m.commits <==>
                  c.CommitLoaded? && m.word == c.seen && !(c.seen != 0 && c.right.pn < FutureOf(c.seen)))
            && (m'.commits > m.commits ==>
                  c'.Committed? && PresentOf(m'.word) == c.right.pn && FutureOf(m'.word) == c.right.pn + c.right.next)
            && (m'.futureSwaps > m.futureSwaps <==>
                  c.RouteLoaded? && c.seen == 0 && m.word == 0 && IsTimePulse(c.pn))
            && (m'.futureSwaps > m.futureSwaps ==>
                  c'.Routed? && PresentOf(m'.word) == 0 && FutureOf(m'.word) == c.pn)
            && (m'.word != m.word ==> m'.commits > m.commits || m'.futureSwaps > m.futureSwaps)
            && (c'.CommitPanicked? && !c.CommitPanicked? <==>
                  c.CommitLoaded? && c.seen != 0 && c.right.pn < FutureOf(c.seen))
  {
  }

  lemma {:induction false} TraceInv(ms: seq<Memory>, k: nat)
    requires IsTrace(ms) && k < |ms|
    ensures Inv(ms[k])
  {
    if k > 0 {
      TraceInv(ms, k - 1);
      assert Step(ms[k - 1], ms[k]);
      StepKeepsInv(ms[k - 1], ms[k]);
    }
  }

  /** In every interleaving, a later word is the same, or the earlier one was empty or had an earlier
      present; the uninitialised future is set at most once; and no routing call retries more than once. */
  lemma {:induction false} WordIsMonotone(ms: seq<Memory>, i: nat, j: nat)
    requires IsTrace(ms) && i <= j < |ms|
    ensures ms[j].word == ms[i].word || ms[i].word == 0 || PresentOf(ms[i].word) < PresentOf(ms[j].word)
    ensures ms[i].word != 0 ==> ms[j].word != 0 && ms[j].futureSwaps == ms[i].futureSwaps
    ensures ms[j].futureSwaps <= 1
    ensures forall c :: c in ms[j].calls && (c.Routing? || c.RouteLoaded?) ==> c.retries <= 1
    decreases j - i
  {
    TraceInv(ms, j);
    assert forall c :: c in ms[j].calls ==> CallInv(ms[j], c);
    if i < j {
      WordIsMonotone(ms, i, j - 1);
      TraceInv(ms, j - 1);
      assert Step(ms[j - 1], ms[j]);
      StepKeepsInv(ms[j - 1], ms[j]);
      FutureSwapsOnlyWhenEmpty(ms[j - 1], ms[j]);
    }
  }

  lemma {:induction false} FutureSwapsOnlyWhenEmpty(m: Memory, m': Memory)
    requires Inv(m) && Step(m, m')
    ensures m'.futureSwaps == m.futureSwaps || (m.word == 0 && m.futureSwaps == 0)
    ensures m.word != 0 ==> m'.word != 0
  {
  }
}
