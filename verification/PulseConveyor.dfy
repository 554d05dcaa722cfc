/** The conveyor as the object it is (ledger-core/conveyor/conveyor.go): its methods change the published
    slots, the packed word and the cache, and are proved to take the steps of the transition system. */
module PulseConveyor {
  import opened PulseNumber
  import opened PulseData
  import opened PulseRange
  import opened PulseSlot
  import opened SlotBoard
  import opened Conveyor
  import opened ConveyorSafety
  import opened ConveyorRuns

  class PulseConveyor {
    const config: Config
    const cache: C.PulseDataCache
    var slots: seq<Slot>
    var published: map<Number, nat>
    var presentMachine: Option<nat>
    var unpublishPulse: Number
    var word: M.Word
    var earliest: Number
    var preparing: bool
    var events: seq<Event>
    ghost var committed: seq<Range>
    ghost var ever: set<Number>

    ghost function View(): State
      reads this, cache
    {
      State(config, Board(slots, published, presentMachine, unpublishPulse), word, earliest, preparing, cache.View(),
            events, committed, ever)
    }

    ghost predicate Coherent()
      reads this, cache
    {
      cache.Coherent() && Inv(View())
    }

    // any other configuration panics
    constructor (config: Config)
      requires ValidConfig(config)
      ensures Coherent() && View() == Initial(config) && fresh(cache)
    {
      this.config := config;
      cache := new C.PulseDataCache(config.minCachePulseAge, CACHE_ROTATIONS);
      slots, published, presentMachine, unpublishPulse := [], map[], None, UNKNOWN;
      word, earliest, preparing, events := 0, 0, false, [];
      committed, ever := [], {};
      new;
      InitialInv(config);
    }

    method GetFutureSlot(presentPN: Number, futurePN: Number) returns (slot: nat)
      modifies this`slots, this`published
      ensures Board(slots, published, presentMachine, unpublishPulse)
              == OpenFuture(old(Board(slots, published, presentMachine, unpublishPulse)), presentPN, futurePN)
      ensures futurePN in published && slot == published[futurePN]
    {
      if futurePN !in published {
        published := published[futurePN := |slots|];
        slots := slots + [FutureSlot(presentPN, futurePN)];
      }
      slot := published[futurePN];
    }

    method GetAntiqueSlot() returns (slot: nat)
      modifies this`slots, this`published
      ensures Board(slots, published, presentMachine, unpublishPulse)
              == OpenAntique(old(Board(slots, published, presentMachine, unpublishPulse)))
      ensures 0 in published && slot == published[0]
    {
      if 0 !in published {
        published := published[0 := |slots|];
        slots := slots + [ANTIQUE_SLOT];
      }
      slot := published[0];
    }

    method MapToPast(presentPN: Number, pn: Number) returns (found: Option<(nat, Number, SlotState)>)
      requires cache.Coherent() && Inv(View()) && committed != [] && presentPN == M.PresentOf(word)
      requires IsTimePulse(pn) && pn < presentPN
      modifies this`slots, this`published
      ensures Routed(MapToSlot(old(View()), pn), old(View()), found)
    {
      PresentSlotHasRange(View());
      if pn in published {
        return Some((published[pn], pn, Past));
      }
      var i := published[presentPN];
      var ps, ok := AcceptsPresent(slots[i].state, slots[i].range.value, presentPN, pn);
      if (ps != Past && !ok) || !M.IsAllowedPastSpan(presentPN, pn, config.maxPastPulseAge) {
        return None;
      }
      var slot := GetAntiqueSlot();
      found := Some((slot, pn, Antique));
    }

    /** Before the first commit: all inputs go to one future slot. */
    method MapToFirst(pn: Number) returns (found: Option<(nat, Number, SlotState)>)
      requires M.GetPresentPulse(word).0 == UNKNOWN
      modifies this`slots, this`published, this`word
      ensures !MapToSlot(old(View()), pn).Panics? && Routed(MapToSlot(old(View()), pn), old(View()), found)
    {
      var (presentPN, futurePN) := M.GetPresentPulse(word);
      var target := pn;
      if futurePN != M.UNINITIALIZED_FUTURE && pn == UNKNOWN {
        target := futurePN;
      } else if !IsTimePulse(pn) {
        return None;
      } else if futurePN == M.UNINITIALIZED_FUTURE {
        word := M.Pack(0, pn);
        futurePN := pn;
      }
      var slot := GetFutureSlot(presentPN, futurePN);
      found := Some((slot, target, Future));
    }

    /** The slot found and the new board and word are those of the route r from s. */
    ghost predicate Routed(r: Route, s: State, found: Option<(nat, Number, SlotState)>)
      reads this, cache
    {
      match r
      case To(b, w, slot, target, state) => found == Some((slot, target, state)) && View() == s.(board := b, word := w)
      case _ => found.None? && View() == s
    }

    /** After a commit, for a number that is not below the present one. */
    method MapAhead(presentPN: Number, futurePN: Number, pn: Number) returns (found: Option<(nat, Number, SlotState)>)
      requires M.GetPresentPulse(word) == (presentPN, futurePN) && presentPN != UNKNOWN && presentPN in published
      requires pn == UNKNOWN || pn >= presentPN
      modifies this`slots, this`published
      ensures Routed(MapToSlot(old(View()), pn), old(View()), found)
    {
      if pn == UNKNOWN || pn == presentPN {
        return Some((published[presentPN], presentPN, Present));
      } else if !IsTimePulse(pn) || pn < futurePN || !M.IsAllowedFutureSpan(presentPN, futurePN, pn, FUTURE_CYCLES) {
        return None;
      }
      var slot := GetFutureSlot(presentPN, futurePN);
      found := Some((slot, pn, Future));
    }

    /** Where an input for pn goes: the slot, the number it is taken for and the state it is treated as. */
    method MapToPulseSlotMachine(pn: Number) returns (found: Option<(nat, Number, SlotState)>)
      requires Coherent()
      modifies this`slots, this`published, this`word
      ensures cache.Coherent() && !MapToSlot(old(View()), pn).Panics?
      ensures Routed(MapToSlot(old(View()), pn), old(View()), found)
    {
      var (presentPN, futurePN) := M.GetPresentPulse(word);
      WordTellsCommits(View());
      if presentPN == UNKNOWN {
        found := MapToFirst(pn);
        return;
      }
      RoutingSafe(View(), pn);
      if UNKNOWN < pn < presentPN {
        found := MapBack(presentPN, pn);
      } else {
        PresentSlotHasRange(View());
        found := MapAhead(presentPN, futurePN, pn);
      }
    }

    method MapBack(presentPN: Number, pn: Number) returns (found: Option<(nat, Number, SlotState)>)
      requires cache.Coherent() && Inv(View()) && committed != [] && presentPN == M.PresentOf(word)
      requires UNKNOWN < pn < presentPN
      modifies this`slots, this`published
      ensures Routed(MapToSlot(old(View()), pn), old(View()), found)
    {
      if IsTimePulse(pn) {
        found := MapToPast(presentPN, pn);
      } else {
        PresentSlotHasRange(View());
        found := None;
      }
    }

    method AddInputTo(pn: Number) returns (a: Admission)
      requires Coherent()
      modifies this, cache
      ensures Coherent() && View() == Next(old(View()), AddInput(pn))
      ensures a == Admit(old(View()), pn)
    {
      ghost var s := View();
      ghost var r := MapToSlot(s, pn);
      InputStep(s, pn, r);
      var found := MapToPulseSlotMachine(pn);
      if found.Some? {
        var (slot, target, state) := found.value;
        a := DeliverTo(slot, target, state, pn);
      } else {
        a := NotRouted;
      }
      assert View() == Deliver(s, r);
    }

    /** A future event waits in its slot; any other must have the data of its pulse, or load them. */
    method DeliverTo(slot: nat, target: Number, state: SlotState, pn: Number) returns (a: Admission)
      requires cache.Coherent()
      modifies this`events, cache
      ensures cache.Coherent()
      ensures View() == Delivered(old(View()), slot, target, state)
      ensures a == AdmitTo(old(View()), target, state, pn)
    {
      if state == Future {
        events := events + [Event(slot, target, Waiting)];
        return Admitted;
      }
      var ce := cache.GetAndTouch(target);
      var loaded := state == Antique && !IsRecent(word, pn, config, earliest);
      a := if ce.Some? || loaded then Admitted else UnknownData;
    }

    method PreparePulseChange() returns (ok: bool)
      requires Coherent()
      modifies this`preparing
      ensures Coherent() && View() == Next(old(View()), Prepare)
      ensures ok <==> presentMachine.Some?
    {
      StepKeepsInv(View(), Prepare);
      preparing := true;
      ok := presentMachine.Some?;
    }

    method CancelPulseChange() returns (ok: bool)
      requires Coherent()
      modifies this`preparing
      ensures Coherent() && View() == Next(old(View()), Cancel)
      ensures ok <==> presentMachine.Some?
    {
      StepKeepsInv(View(), Cancel);
      ok := presentMachine.Some?;
      if ok {
        preparing := false;
      }
    }

    /** A past slot has stopped; its finalizer unpublishes its alias. */
    method OnTerminate(i: nat)
      requires Coherent() && i < |slots| && slots[i].state == Past && slots[i].running
      modifies this`slots, this`published
      ensures Coherent() && View() == Next(old(View()), TerminateSlot(i))
    {
      StepKeepsInv(View(), TerminateSlot(i));
      if slots[i].finalizer.Some? {
        published := published - {slots[i].finalizer.value};
      }
      slots := slots[i := slots[i].(running := false)];
    }

    ghost function BoardView(): Board
      reads this
    {
      Board(slots, published, presentMachine, unpublishPulse)
    }

    /** The slot side of a commit: the present slot becomes past, the expected one present. */
    method MigratePulseSlots(prevFuturePN: Number, pr: Range, pn: Number)
      requires CommitBoard(BoardView(), prevFuturePN, pr, pn).Some?
      modifies this`slots, this`published, this`presentMachine, this`unpublishPulse
      ensures Some(BoardView()) == CommitBoard(old(BoardView()), prevFuturePN, pr, pn)
    {
      if presentMachine.Some? {
        slots := slots[presentMachine.value := MakePast(slots[presentMachine.value]).value];
      }
      if IsTimePulse(unpublishPulse) {
        published := published - {unpublishPulse};
        unpublishPulse := UNKNOWN;
      }
      if prevFuturePN in published {
        var i := published[prevFuturePN];
        slots := slots[i := MakePresent(slots[i], pr).value];
        presentMachine := Some(i);
      } else {
        published := published[prevFuturePN := |slots|];
        presentMachine := Some(|slots|);
        slots := slots + [Slot(PresentHolder, Present, Some(pr), None, true)];
      }
      if prevFuturePN != pn {
        var m := presentMachine.value;
        unpublishPulse := prevFuturePN;
        slots := slots[m := slots[m].(finalizer := Some(pn))];
        published := published[pn := m];
      }
    }

    method IsAcceptedFutureOrPresent(i: nat, pn: Number) returns (isFuture: bool, isAccepted: bool)
      requires RangesKnown(BoardView()) && i < |slots|
      ensures (isFuture, isAccepted) == FutureOrPresent(BoardView(), word, i, pn)
    {
      var (presentPN, futurePN) := M.GetPresentPulse(word);
      if slots[i].state == Future {
        return true, pn >= futurePN;
      } else if slots[i].state != Present {
        return false, false;
      }
      var ps, ok := AcceptsPresent(Present, slots[i].range.value, presentPN, pn);
      assert ps != Future;
      return false, ok;
    }

    /** stepMigration of every delayed event. */
    method MigrateDelayed()
      requires RangesKnown(BoardView()) && forall i :: 0 <= i < |events| ==> events[i].slot < |slots|
      modifies this`events
      ensures events == MigrateEvents(BoardView(), word, old(events))
    {
      var es: seq<Event> := [];
      for k := 0 to |events|
        invariant |es| == k && events == old(events)
        invariant forall i :: 0 <= i < k ==> es[i] == MigrateEvent(BoardView(), word, events[i])
      {
        var e := events[k];
        if IsPending(e) {
          var isFuture, isAccepted := IsAcceptedFutureOrPresent(e.slot, e.pn);
          e := e.(status := if !isAccepted then Stopping else if isFuture then Impossible else Awake);
        }
        es := es + [e];
      }
      events := es;
    }

    /** One step of a delayed event: it waits on, is replaced by its handler, or fails. */
    method RunDelayed(i: nat)
      requires Coherent() && i < |events|
      modifies this`events
      ensures Coherent() && View() == Next(old(View()), PollAt(i))
    {
      StepKeepsInv(View(), PollAt(i));
      InvKnowsRanges(View());
      var e := events[i];
      if e.status == Stopping {
        e := e.(status := Failed);
      } else if IsPending(e) {
        var isFuture, isAccepted := IsAcceptedFutureOrPresent(e.slot, e.pn);
        e := e.(status := if !isAccepted then Failed else if isFuture then Waiting else Started);
      }
      events := events[i := e];
    }

    /** A range that does not continue the present one, or is not pulsar data, is rejected by a panic that
        changes nothing; one that comes too late is broken off by a panic that leaves the slots changed. */
    method CommitPulseChange(pr: Range, online: nat) returns (o: CommitStatus)
      requires Coherent() && Valid(pr)
      modifies this, cache
      ensures cache.Coherent() && (!o.BrokenOff? ==> Coherent())
      ensures match Commit(old(View()), pr, online)
              case Done(s') => o.Accepted? && View() == s'
              case Rejected => o.Declined? && View() == old(View())
              case Broken(left) => o.BrokenOff? && View() == left
              case BrokenBySlots => false
    {
      ghost var b := CommitPrepared(View(), pr, RightBoundData(pr), online);
      var ok := IsCommitAllowed(pr);
      if !ok {
        return Declined;
      }
      ok := MakeCommit(pr, RightBoundData(pr), online, b);
      o := if ok then Accepted else BrokenOff;
    }

    method MakeCommit(pr: Range, pd: Data, online: nat, ghost b: Board) returns (ok: bool)
      requires cache.Coherent() && Valid(pr) && pd == RightBoundData(pr) && CommitToMake(View(), b, pr, pd)
      modifies this, cache
      ensures cache.Coherent() && ok == !ComesTooLate(old(word), pd)
      ensures var half := HalfCommitted(old(View()), b, pr, online);
              View() == if ok then CompleteCommit(half, pr, pd) else half
    {
      ok := ApplyCommit(pr, pd, online, b);
      ever := ever + C.Keys(pr);
      if ok {
        committed := committed + [pr];
      }
    }

    /** The checks at the start of the commit signal. */
    method IsCommitAllowed(pr: Range) returns (ok: bool)
      requires Valid(pr)
      ensures ok <==> IsPulsarData(RightBoundData(pr)) && CommitChecks(View(), pr)
    {
      var (prevPresentPN, prevFuturePN) := M.GetPresentPulse(word);
      if !IsPulsarData(RightBoundData(pr)) {
        return false;
      }
      match presentMachine
      case None =>
        ok := prevPresentPN !in published && (prevFuturePN == M.UNINITIALIZED_FUTURE || prevFuturePN in published);
      case Some(m) =>
        ok := && prevPresentPN in published && published[prevPresentPN] == m
              && LeftBoundNumber(pr) == prevFuturePN
              && TryNext(prevPresentPN, LeftPrevDelta(pr)) == Some(LeftBoundNumber(pr));
    }

    /** The rest of the commit signal; what is cached never disagrees with the range. */
    method ApplyCommit(pr: Range, pd: Data, online: nat, ghost board: Board) returns (ok: bool)
      requires cache.Coherent() && Valid(pr) && C.CanPut(cache.View(), pr) && pd == RightBoundData(pr)
      requires CommitBoard(BoardView(), M.GetPresentPulse(word).1, pr, pd.pn) == Some(board)
      requires !ComesTooLate(word, pd) ==> CanMigrate(board, events)
      modifies this`slots, this`published, this`presentMachine, this`unpublishPulse
      modifies this`word, this`earliest, this`preparing, this`events, cache
      ensures cache.Coherent() && BoardView() == board && !preparing && ok == !ComesTooLate(old(word), pd)
      ensures var put := C.PutOf(old(cache.View()), C.BeatData(pr, online));
              cache.View() == if ok then C.EvictAndRotateOf(put, pd.pn) else put
      ensures if ok then
                && word == M.Pack(pd.pn, NextNumber(pd).value)
                && earliest == (if old(word) == 0 && old(earliest) == 0 then pd.pn else old(earliest))
                && events == MigrateEvents(board, word, old(events))
              else word == old(word) && earliest == old(earliest) && events == old(events)
    {
      PutHoldsRight(cache.View(), C.BeatData(pr, online));
      var stored := cache.Put(C.BeatData(pr, online));
      var mismatch := pd.pn in cache.cache && cache.cache[pd.pn].beat.range != pr;
      ok := ApplyToSlots(pr, pd, mismatch, board);
      if ok {
        cache.EvictAndRotate(pd.pn);
      }
    }

    method ApplyToSlots(pr: Range, pd: Data, mismatch: bool, ghost board: Board) returns (ok: bool)
      requires CommitBoard(BoardView(), M.GetPresentPulse(word).1, pr, pd.pn) == Some(board)
      requires !ComesTooLate(word, pd) ==> CanMigrate(board, events)
      modifies this`slots, this`published, this`presentMachine, this`unpublishPulse
      modifies this`word, this`earliest, this`preparing, this`events
      ensures BoardView() == board && !preparing && ok == (!mismatch && !ComesTooLate(old(word), pd))
      ensures if ok then
                && word == M.Pack(pd.pn, NextNumber(pd).value)
                && earliest == (if old(word) == 0 && old(earliest) == 0 then pd.pn else old(earliest))
                && events == MigrateEvents(board, word, old(events))
              else word == old(word) && earliest == old(earliest) && events == old(events)
    {
      MigratePulseSlots(M.GetPresentPulse(word).1, pr, pd.pn);
      preparing := false;
      if NextNumber(pd).None? || mismatch {
        return false;
      }
      ok := SetPresentPulse(pd.pn, M.Pack(pd.pn, NextNumber(pd).value));
      if ok {
        MigrateDelayed();
      }
    }

    /** The word is swapped unless it expects a later pulse. */
    method SetPresentPulse(presentPN: Number, next: M.Word) returns (ok: bool)
      modifies this`word, this`earliest
      ensures ok == !(old(word) != 0 && presentPN < M.FutureOf(old(word)))
      ensures word == if ok then next else old(word)
      ensures earliest == if ok && old(word) == 0 && old(earliest) == 0 then presentPN else old(earliest)
    {
      ok := !(word != 0 && presentPN < M.FutureOf(word));
      if ok {
        if word == 0 && earliest == 0 {
          earliest := presentPN;
        }
        word := next;
      }
    }
  }

  datatype CommitStatus = Accepted | Declined | BrokenOff

  ghost predicate CanMigrate(b: Board, es: seq<Event>) {
    RangesKnown(b) && forall i :: 0 <= i < |es| ==> es[i].slot < |b.slots|
  }

  /** A commit of pr has passed its checks in s and will leave the slots as in b. */
  ghost predicate CommitToMake(s: State, b: Board, pr: Range, right: Data)
    requires Valid(pr)
  {
    && C.CanPut(s.cache, pr) && CommitBoard(s.board, M.GetPresentPulse(s.word).1, pr, right.pn) == Some(b)
    && (!ComesTooLate(s.word, right) ==> CanMigrate(b, s.events))
  }

  /** r is what becomes of that commit. */
  ghost predicate PreparedResult(s: State, r: CommitResult, b: Board, pr: Range, right: Data, online: nat)
    requires Valid(pr)
  {
    var half := HalfCommitted(s, b, pr, online);
    if ComesTooLate(s.word, right) then r == Broken(half)
    else r == Done(CompleteCommit(half, pr, right)) && Inv(r.state)
  }

  /** All that the method needs to know about the commit it is to make. */
  lemma {:induction false} CommitPrepared(s: State, pr: Range, right: Data, online: nat) returns (b: Board)
    requires Inv(s) && Valid(pr) && right == RightBoundData(pr)
    ensures if IsPulsarData(right) && CommitChecks(s, pr) then
              && CommitToMake(s, b, pr, right)
              && PreparedResult(s, Commit(s, pr, online), b, pr, right, online)
            else Commit(s, pr, online).Rejected?
  {
    b := s.board;
    if IsPulsarData(right) && CommitChecks(s, pr) {
      PassedProceeds(s, pr, online);
      b := CommitBoard(s.board, M.GetPresentPulse(s.word).1, pr, right.pn).value;
      if Commit(s, pr, online).Done? {
        CommitKeepsInv(s, pr, online);
        DoneCanMigrate(s, pr, online);
      }
    }
  }

  lemma {:induction false} PassedProceeds(s: State, pr: Range, online: nat)
    requires Inv(s) && Valid(pr) && IsPulsarData(RightBoundData(pr)) && CommitChecks(s, pr)
    ensures if ComesTooLate(s.word, RightBoundData(pr)) then Commit(s, pr, online).Broken?
            else Commit(s, pr, online).Done?
  {
    CommitOutcome(s, pr, online);
    if s.committed != [] {
      LaterCommitChecks(s, pr);
    }
  }

  lemma {:induction false} DoneCanMigrate(s: State, pr: Range, online: nat)
    requires Inv(s) && Valid(pr) && Commit(s, pr, online).Done?
    ensures CanMigrate(Commit(s, pr, online).state.board, s.events)
  {
    CommitKeepsInv(s, pr, online);
    InvKnowsRanges(Commit(s, pr, online).state);
  }

  /** What an input comes to, as seen after its routing. */
  lemma {:induction false} InputStep(s: State, pn: Number, r: Route)
    requires Inv(s) && r == MapToSlot(s, pn)
    ensures Inv(Deliver(s, r)) && Deliver(s, r) == Next(s, AddInput(pn))
    ensures r.To? ==> Admit(s, pn) == AdmitTo(s.(board := r.board, word := r.word), r.target, r.state, pn)
  {
    AddInputKeepsInv(s, pn);
    if s.committed == [] {
      FirstInput(s, pn);
    } else {
      RoutingSafe(s, pn);
    }
  }

  lemma {:induction false} WordTellsCommits(s: State)
    requires Inv(s)
    ensures M.GetPresentPulse(s.word).0 == UNKNOWN <==> s.committed == []
    ensures s.committed != [] ==> M.GetPresentPulse(s.word) == (M.PresentOf(s.word), M.FutureOf(s.word))
  {
  }

  lemma {:induction false} PresentSlotHasRange(s: State)
    requires Inv(s) && s.committed != []
    ensures var p := M.PresentOf(s.word);
            && M.GetPresentPulse(s.word) == (p, M.FutureOf(s.word))
            && p in s.board.published && s.board.published[p] < |s.board.slots|
            && s.board.slots[s.board.published[p]].state == Present
            && s.board.slots[s.board.published[p]].range == Some(LastRange(s)) && Valid(LastRange(s))
  {
    OnePresentSlot(s);
  }

  ghost predicate RangesKnown(b: Board) {
    forall i :: 0 <= i < |b.slots| && b.slots[i].state == Present ==>
      b.slots[i].range.Some? && Valid(b.slots[i].range.value)
  }

  lemma {:induction false} InvKnowsRanges(s: State)
    requires Inv(s)
    ensures RangesKnown(s.board)
  {
    if s.committed != [] {
      OnePresentSlot(s);
    }
  }
}
