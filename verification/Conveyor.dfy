/** The pulse-change protocol of the conveyor (ledger-core/conveyor/conveyor.go, pulse_manager.go,
    sm_future_event.go) as a transition system. A signal body, and routing together with publishing,
    is one step. committed and ever are history: the ranges committed so far, and the numbers ever cached. */
module Conveyor {
  import opened PulseNumber
  import opened PulseData
  import opened PulseRange
  import opened PulseSlot
  import opened SlotBoard
  import M = PulseManager
  import C = PulseDataCache

  datatype Config = Config(minCachePulseAge: Number, maxPastPulseAge: Number)

  // initCache returns without a panic
  predicate ValidConfig(c: Config) { 0 < c.minCachePulseAge <= c.maxPastPulseAge <= MAX_TIME_PULSE }

  const CACHE_ROTATIONS: nat := 2
  const FUTURE_CYCLES: Number := 1

  /** A delayed event: waiting in a future slot, woken up, sent to its termination step, replaced by the
      real handler, ended with an error, or ended by the "impossible state" branch. */
  datatype EventStatus = Waiting | Awake | Stopping | Started | Failed | Impossible

  datatype Event = Event(slot: nat, pn: Number, status: EventStatus)

  datatype State = State(
    config: Config, board: Board, word: M.Word, earliest: Number, preparing: bool, cache: C.Cache,
    events: seq<Event>, committed: seq<Range>, ever: set<Number>)

  function Initial(config: Config): State {
    State(config, EMPTY_BOARD, 0, 0, false, C.NewCache(config.minCachePulseAge, CACHE_ROTATIONS), [], [], {})
  }

  // ------------------------------------------------------------ routing

  datatype Route = To(board: Board, word: M.Word, slot: nat, target: Number, state: SlotState) | Refused | Panics

  /** _isAcceptedPresent of slot i; only a present slot has a range to look at. */
  ghost function AcceptedBy(b: Board, i: nat, present: Number, pn: Number): (SlotState, bool) {
    if i >= |b.slots| then (Antique, false)
    else if b.slots[i].state != Present then (b.slots[i].state, false)
    else if b.slots[i].range.None? || !Valid(b.slots[i].range.value) then (Present, false)
    else IsAcceptedPresent(Present, b.slots[i].range.value, present, pn)
  }

  function ToFuture(b: Board, word: M.Word, present: Number, future: Number, pn: Number): Route {
    var b' := OpenFuture(b, present, future);
    To(b', word, b'.published[future], pn, Future)
  }

  /** mapToPulseSlotMachine with the publishing it does. */
  ghost function MapToSlot(s: State, pn: Number): Route {
    var (present, future) := M.GetPresentPulse(s.word);
    if present == UNKNOWN then
      if future != M.UNINITIALIZED_FUTURE then
        if IsTimePulse(pn) then ToFuture(s.board, s.word, present, future, pn)
        else if pn == UNKNOWN then ToFuture(s.board, s.word, present, future, future)
        else Refused
      else if !IsTimePulse(pn) then Refused
      else ToFuture(s.board, M.Pack(0, pn), present, pn, pn)
    else if pn == UNKNOWN || pn == present then
      if present in s.board.published then To(s.board, s.word, s.board.published[present], present, Present) else Panics
    else if !IsTimePulse(pn) then Refused
    else if pn < present then
      if pn in s.board.published then To(s.board, s.word, s.board.published[pn], pn, Past)
      else if present !in s.board.published then Panics
      else
        var (ps, ok) := AcceptedBy(s.board, s.board.published[present], present, pn);
        if ps != Past && !ok then Refused
        else if ps != Past && ps != Present then Panics
        else if !M.IsAllowedPastSpan(present, pn, s.config.maxPastPulseAge) then Refused
        else
          var b' := OpenAntique(s.board);
          To(b', s.word, b'.published[0], pn, Antique)
    else if pn < future then Refused
    else if !M.IsAllowedFutureSpan(present, future, pn, FUTURE_CYCLES) then Refused
    else ToFuture(s.board, s.word, present, future, pn)
  }

  /** What an input comes to: added, not routed, or without the data of its pulse. */
  datatype Admission = Admitted | NotRouted | UnknownData

  /** AddInputExt after the routing. An antique input whose data are not cached goes to a loader, unless its
      pulse is so recent that the data should have been cached. */
  function AdmitTo(s: State, target: Number, state: SlotState, pn: Number): Admission {
    if state == Future || target in s.cache.entries then Admitted
    else if state == Antique && !IsRecent(s.word, pn, s.config, s.earliest) then Admitted
    else UnknownData
  }

  ghost function Admit(s: State, pn: Number): Admission {
    match MapToSlot(s, pn)
    case To(_, _, _, target, state) => AdmitTo(s, target, state, pn)
    case _ => NotRouted
  }

  predicate IsRecent(word: M.Word, pn: Number, config: Config, earliest: Number) {
    M.IsRecentPastRange(M.GetPresentPulse(word).0, pn, config.minCachePulseAge, earliest)
  }

  // ------------------------------------------------------------ delayed events

  /** isAcceptedFutureOrPresent: is the slot still future, and is pn accepted? */
  ghost function FutureOrPresent(b: Board, word: M.Word, i: nat, pn: Number): (bool, bool) {
    var (present, future) := M.GetPresentPulse(word);
    var (ps, ok) := AcceptedBy(b, i, present, pn);
    if ps != Future then (false, ok) else (true, pn >= future)
  }

  predicate IsPending(e: Event) { e.status == Waiting || e.status == Awake }

  /** stepMigration. */
  ghost function MigrateEvent(b: Board, word: M.Word, e: Event): Event {
    if !IsPending(e) then e
    else
      var (isFuture, isAccepted) := FutureOrPresent(b, word, e.slot, e.pn);
      e.(status := if !isAccepted then Stopping else if isFuture then Impossible else Awake)
  }

  /** stepWaitMigration, or stepTerminate after a jump to it. */
  ghost function PollEvent(b: Board, word: M.Word, e: Event): Event {
    if e.status == Stopping then e.(status := Failed)
    else if !IsPending(e) then e
    else
      var (isFuture, isAccepted) := FutureOrPresent(b, word, e.slot, e.pn);
      e.(status := if !isAccepted then Failed else if isFuture then Waiting else Started)
  }

  ghost function MigrateEvents(b: Board, word: M.Word, es: seq<Event>): (r: seq<Event>)
    ensures |r| == |es| && forall i :: 0 <= i < |es| ==> r[i] == MigrateEvent(b, word, es[i])
  {
    if es == [] then [] else [MigrateEvent(b, word, es[0])] + MigrateEvents(b, word, es[1..])
  }

  // ------------------------------------------------------------ commit

  /** Done, refused by a panic that changed nothing, broken off by a panic of setPresentPulse with what that
      leaves behind, or broken off among the slots. */
  datatype CommitResult = Done(state: State) | Rejected | Broken(left: State) | BrokenBySlots

  ghost predicate CommitChecks(s: State, pr: Range)
    requires Valid(pr)
  {
    var (present, future) := M.GetPresentPulse(s.word);
    match s.board.present
    case None =>
      present !in s.board.published && (future == M.UNINITIALIZED_FUTURE || future in s.board.published)
    case Some(m) =>
      && present in s.board.published && s.board.published[present] == m
      && LeftBoundNumber(pr) == future
      && TryNext(present, LeftPrevDelta(pr)) == Some(LeftBoundNumber(pr))
  }

  /** A right bound that setPresentPulse panics on, when the slots have already been changed. */
  predicate ComesTooLate(word: M.Word, right: Data) {
    NextNumber(right).None? || (word != 0 && right.pn < M.FutureOf(word))
  }

  /** What a commit has changed when setPresentPulse starts. */
  ghost function HalfCommitted(s: State, b: Board, pr: Range, online: nat): State
    requires Valid(pr)
  {
    s.(board := b, preparing := false, cache := C.PutOf(s.cache, C.BeatData(pr, online)), ever := s.ever + C.Keys(pr))
  }

  /** What the rest of it does: the word is set, the cache evicts, and the delayed events migrate. */
  ghost function CompleteCommit(s: State, pr: Range, right: Data): State
    requires NextNumber(right).Some?
  {
    var word := M.Pack(right.pn, NextNumber(right).value);
    s.(word := word, earliest := if s.word == 0 && s.earliest == 0 then right.pn else s.earliest,
       cache := C.EvictAndRotateOf(s.cache, right.pn), events := MigrateEvents(s.board, word, s.events),
       committed := s.committed + [pr])
  }

  ghost function Commit(s: State, pr: Range, online: nat): CommitResult
    requires Valid(pr)
  {
    var right := RightBoundData(pr);
    if !IsPulsarData(right) || !CommitChecks(s, pr) || !C.CanPut(s.cache, pr) then Rejected
    else
      match CommitBoard(s.board, M.GetPresentPulse(s.word).1, pr, right.pn)
      case None => BrokenBySlots
      case Some(b) =>
        var half := HalfCommitted(s, b, pr, online);
        var mismatch := right.pn in half.cache.entries && half.cache.entries[right.pn].beat.range != pr;
        if mismatch || ComesTooLate(s.word, right) then Broken(half) else Done(CompleteCommit(half, pr, right))
  }

  // ------------------------------------------------------------ steps

  datatype Step =
    | AddInput(pn: Number)
    | PollAt(i: nat)
    | CommitRange(pr: Range, online: nat)
    | Prepare
    | Cancel
    | TerminateSlot(i: nat)
    | ReadData(pn: Number)
    | LateTouch(pn: Number)  // the second half of a read that found pn earlier
    | LoadData(bd: C.BeatData)

  function Delivered(s: State, slot: nat, target: Number, state: SlotState): State {
    if state == Future then s.(events := s.events + [Event(slot, target, Waiting)])
    else s.(cache := C.Touch(s.cache, target))
  }

  ghost function Deliver(s: State, r: Route): State {
    match r
    case To(b, w, slot, target, state) => Delivered(s.(board := b, word := w), slot, target, state)
    case _ => s
  }

  ghost function Next(s: State, step: Step): State
    requires Allowed(s, step)
  {
    match step
    case AddInput(pn) => Deliver(s, MapToSlot(s, pn))
    case PollAt(i) => if i < |s.events| then s.(events := s.events[i := PollEvent(s.board, s.word, s.events[i])]) else s
    case CommitRange(pr, online) => if Commit(s, pr, online).Done? then Commit(s, pr, online).state else s
    case Prepare => s.(preparing := true)
    case Cancel => if s.board.present.Some? then s.(preparing := false) else s
    case TerminateSlot(i) => s.(board := Terminate(s.board, i))
    case ReadData(pn) => s.(cache := C.Touch(s.cache, pn))
    case LateTouch(pn) => s.(cache := C.Mark(s.cache, pn))
    case LoadData(bd) =>
      if IsPulsarData(RightBoundData(bd.range)) && C.CanPut(s.cache, bd.range)
      then s.(cache := C.PutOf(s.cache, bd), ever := s.ever + C.Keys(bd.range)) else s
  }

  /** What a run may contain: any commit that is not broken off (CommitOutcome says which are), and loads
      of pulses not later than the present one. */
  ghost predicate Allowed(s: State, step: Step) {
    match step
    case CommitRange(pr, online) => Valid(pr) && (Commit(s, pr, online).Done? || Commit(s, pr, online).Rejected?)
    case LoadData(bd) => Valid(bd.range) && s.committed != [] && RightBoundData(bd.range).pn <= M.PresentOf(s.word)
    case _ => true
  }

  ghost predicate StepTo(s: State, s': State) { exists step :: Allowed(s, step) && s' == Next(s, step) }

  ghost predicate IsRunOf(ss: seq<State>, config: Config) {
    && ss != [] && ss[0] == Initial(config)
    && forall i, j {:trigger StepTo(ss[i], ss[j])} :: 0 <= i < j < |ss| && j == i + 1 ==> StepTo(ss[i], ss[j])
  }
}
