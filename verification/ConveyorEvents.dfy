/** Delayed events from their input to the commit that decides them. */
module ConveyorEvents {
  import opened PulseNumber
  import opened PulseData
  import opened PulseRange
  import opened PulseSlot
  import opened SlotBoard
  import opened Conveyor
  import opened ConveyorSafety
  import opened ConveyorRuns

  /** A delayed event that waits for a number that is still expected. */
  ghost predicate Waits(s: State, k: nat, pn: Number) {
    && k < |s.events| && s.events[k].pn == pn && s.events[k].status == Waiting
    && s.events[k].slot < |s.board.slots| && s.board.slots[s.events[k].slot].state == Future
    && s.committed != [] && M.FutureOf(s.word) <= pn
  }

  /** An input accepted as future waits. */
  lemma {:induction false} InputWaits(s: State, pn: Number)
    requires Inv(s) && s.committed != [] && IsTimePulse(pn)
    requires M.FutureOf(s.word) <= pn <= M.FutureOf(s.word) + (M.FutureOf(s.word) - M.PresentOf(s.word))
    ensures var s' := Next(s, AddInput(pn)); |s'.events| == |s.events| + 1 && Waits(s', |s.events|, pn)
  {
    RoutingSafe(s, pn);
  }

  /** A poll of an event in a future slot lets it wait exactly when its number is not below the expected one,
      which after a commit is the case; before the first commit it is compared with the chosen future. */
  lemma {:induction false} PollOfFuture(s: State, k: nat)
    requires Inv(s) && k < |s.events| && IsPending(s.events[k]) && s.board.slots[s.events[k].slot].state == Future
    ensures PollEvent(s.board, s.word, s.events[k]).status
            == if s.events[k].pn < M.FutureOf(s.word) then Failed else Waiting
  {
    FutureIsChosen(s);
  }

  /** A migration that found the slot still future would end in the "impossible state" branch, or stop the event for a
      number below the expected one; EventsNeverStuck says that none does. */
  lemma {:induction false} MigrationOfFuture(s: State, k: nat)
    requires Inv(s) && k < |s.events| && IsPending(s.events[k]) && s.board.slots[s.events[k].slot].state == Future
    ensures MigrateEvent(s.board, s.word, s.events[k]).status
            == if s.events[k].pn < M.FutureOf(s.word) then Stopping else Impossible
  {
    FutureIsChosen(s);
  }

  lemma {:induction false} FutureIsChosen(s: State)
    requires Inv(s) && s.events != []
    ensures M.GetPresentPulse(s.word).1 == M.FutureOf(s.word)
  {
    WordTellsFuture(s);
  }

  lemma {:induction false} WordTellsFuture(s: State)
    requires Inv(s)
    ensures s.word == 0 ==> s.events == []
  {
  }

  /** So before the first commit an event fails at a poll exactly when its number is below the chosen future. */
  lemma {:induction false} PollBeforeFirst(s: State, k: nat)
    requires Inv(s) && s.committed == [] && k < |s.events| && IsPending(s.events[k])
    ensures Next(s, PollAt(k)).events[k].status == if s.events[k].pn < M.FutureOf(s.word) then Failed else Waiting
  {
    SlotsOfStart(s, k);
    PollOfFuture(s, k);
  }

  lemma {:induction false} SlotsOfStart(s: State, k: nat)
    requires Inv(s) && s.committed == [] && k < |s.events|
    ensures s.board.slots[s.events[k].slot].state == Future
  {
  }

  lemma {:induction false} WaitsOn(s: State, step: Step, k: nat, pn: Number)
    requires Inv(s) && Allowed(s, step) && Waits(s, k, pn) && |Next(s, step).committed| <= |s.committed|
    ensures Waits(Next(s, step), k, pn)
  {
    CommittedOnlyGrows(s, step);
    match step
    case AddInput(other) => InputLeavesWaiting(s, other, k, pn);
    case PollAt(i) => if i == k { PollOfFuture(s, k); }
    case CommitRange(pr, online) => if Commit(s, pr, online).Done? { CommitHasEffect(s, pr, online); }
    case _ =>
  }

  lemma {:induction false} InputLeavesWaiting(s: State, other: Number, k: nat, pn: Number)
    requires Inv(s) && Waits(s, k, pn)
    ensures Waits(Next(s, AddInput(other)), k, pn)
  {
    RoutingSafe(s, other);
    RoutingAddsSlots(s, other);
  }

  lemma {:induction false} RoutingAddsSlots(s: State, pn: Number)
    ensures MapToSlot(s, pn).To? ==> s.board.slots <= MapToSlot(s, pn).board.slots
  {
  }

  lemma {:induction false} WaitsAfter(s: State, s': State, k: nat, pn: Number)
    requires Inv(s) && StepTo(s, s') && Waits(s, k, pn) && |s'.committed| <= |s.committed|
    ensures Waits(s', k, pn)
  {
    var step :| Allowed(s, step) && s' == Next(s, step);
    WaitsOn(s, step, k, pn);
  }

  /** In every run, an event that waits goes on waiting until the next commit, however often it is polled. */
  lemma {:induction false} WaitsUntilCommit(ss: seq<State>, config: Config, i: nat, j: nat, k: nat, pn: Number)
    requires ValidConfig(config) && IsRunOf(ss, config) && i <= j < |ss|
    requires Waits(ss[i], k, pn) && |ss[j].committed| == |ss[i].committed|
    ensures Waits(ss[j], k, pn)
    decreases j - i
  {
    if i < j {
      CommittedAlong(ss, config, i, j - 1);
      RunStep(ss, config, j);
      WaitsUntilCommit(ss, config, i, j - 1, k, pn);
      RunKeepsInv(ss, config, j - 1);
      assert StepTo(ss[j - 1], ss[j]);
      WaitsAfter(ss[j - 1], ss[j], k, pn);
    }
  }

  lemma {:induction false} CommitWakes(s: State, s': State, k: nat, pn: Number)
    requires Inv(s) && StepTo(s, s') && Waits(s, k, pn) && |s'.committed| > |s.committed|
    ensures k < |s'.events| && s'.events[k].pn == pn && Valid(LastRange(s'))
    ensures s'.events[k].status == if Accepts(LastRange(s'), pn) then Awake else Stopping
  {
    var step :| Allowed(s, step) && s' == Next(s, step);
    CommittedGrowsByCommit(s, step);
    CommitWakesAt(s, step.pr, step.online, k, pn);
  }

  lemma {:induction false} CommitWakesAt(s: State, pr: Range, online: nat, k: nat, pn: Number)
    requires Inv(s) && Valid(pr) && Commit(s, pr, online).Done? && Waits(s, k, pn)
    ensures var s' := Commit(s, pr, online).state;
            && s'.committed != [] && LastRange(s') == pr
            && k < |s'.events| && s'.events[k].pn == pn
            && s'.events[k].status == if Accepts(pr, pn) then Awake else Stopping
  {
    CommitHasEffect(s, pr, online);
    CommitSettlesEvent(s, pr, online, k);
  }

  /** From its input on: an event for a number accepted as future at step i is decided by the next commit, at step
      j, and by nothing before it: woken exactly if the new present slot accepts its number. */
  lemma {:induction false} InputIsDecided(ss: seq<State>, config: Config, i: nat, j: nat, pn: Number)
    requires ValidConfig(config) && IsRunOf(ss, config) && i < j < |ss| - 1 && ss[i].committed != []
    requires ss[i + 1] == Next(ss[i], AddInput(pn)) && IsTimePulse(pn)
    requires M.FutureOf(ss[i].word) <= pn
    requires pn <= M.FutureOf(ss[i].word) + (M.FutureOf(ss[i].word) - M.PresentOf(ss[i].word))
    requires |ss[i].committed| == |ss[j].committed| < |ss[j + 1].committed|
    ensures var k, s' := |ss[i].events|, ss[j + 1];
            && k < |ss[j].events| && ss[j].events[k].status == Waiting
            && k < |s'.events| && s'.events[k].pn == pn && s'.committed != [] && Valid(LastRange(s'))
            && s'.events[k].status == if Accepts(LastRange(s'), pn) then Awake else Stopping
  {
    var k := |ss[i].events|;
    RunKeepsInv(ss, config, i);
    InputWaits(ss[i], pn);
    InputCommitsNothing(ss[i], pn);
    WaitsUntilCommit(ss, config, i + 1, j, k, pn);
    RunKeepsInv(ss, config, j);
    assert StepTo(ss[j], ss[j + 1]);
    CommitWakes(ss[j], ss[j + 1], k, pn);
  }

  lemma {:induction false} InputCommitsNothing(s: State, pn: Number)
    ensures Next(s, AddInput(pn)).committed == s.committed
  {
  }
}
