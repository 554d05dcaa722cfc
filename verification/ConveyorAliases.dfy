/** Which aliases a slot has, and that a slot that has stopped is not reached through them. */
module ConveyorAliases {
  import opened PulseNumber
  import opened PulseData
  import opened PulseRange
  import opened PulseSlot
  import opened SlotBoard
  import opened Conveyor
  import opened ConveyorSafety
  import opened ConveyorEvents
  import opened ConveyorRouting
  import opened ConveyorRuns

  /** A time pulse is published for the slot whose finalizer unpublishes it, for one without a finalizer, or until
      the next commit. */
  ghost predicate OwnAliases(b: Board) {
    forall k {:trigger b.published[k]} :: k in b.published && IsTimePulse(k) ==>
      b.published[k] < |b.slots|
      && (k == b.unpublish || b.slots[b.published[k]].finalizer.None? || b.slots[b.published[k]].finalizer == Some(k))
  }

  /** A slot that has stopped is past, and what its finalizer unpublishes is not published. */
  ghost predicate StoppedGone(b: Board) {
    forall i :: 0 <= i < |b.slots| && !b.slots[i].running ==>
      b.slots[i].state == Past && (b.slots[i].finalizer.Some? ==> b.slots[i].finalizer.value !in b.published)
  }

  ghost predicate Tidy(b: Board) { OwnAliases(b) && StoppedGone(b) }

  lemma {:induction false} OpenStaysTidy(b: Board, present: Number, future: Number, r: Range)
    requires BoardInv(b, present, future, r) && Tidy(b)
    ensures Tidy(OpenFuture(b, present, future)) && Tidy(OpenAntique(b))
  {
    forall i | 0 <= i < |b.slots| && !b.slots[i].running
      ensures b.slots[i].finalizer != Some(future) && b.slots[i].finalizer != Some(UNKNOWN)
    {
      assert SlotInv(b, b.present.value, present, future, r, i);
    }
  }

  /** A termination stops a past slot and unpublishes what its finalizer names, and nothing else. */
  lemma {:induction false} TerminateExactly(b: Board, i: nat)
    requires i < |b.slots| && b.slots[i].state == Past && b.slots[i].running
    ensures var b' := Terminate(b, i);
            && |b'.slots| == |b.slots| && !b'.slots[i].running && b'.slots[i].state == Past
            && (forall j :: 0 <= j < |b.slots| && j != i ==> b'.slots[j] == b.slots[j])
            && (forall k :: k in b'.published <==> k in b.published && b.slots[i].finalizer != Some(k))
            && (forall k :: k in b'.published ==> b'.published[k] == b.published[k])
            && b'.present == b.present && b'.unpublish == b.unpublish
  {
  }

  lemma {:induction false} TerminateStaysTidy(b: Board, i: nat)
    requires Tidy(b)
    ensures Tidy(Terminate(b, i))
  {
    if i < |b.slots| && b.slots[i].state == Past && b.slots[i].running {
      TerminateExactly(b, i);
    }
  }

  lemma {:induction false} CommitStaysTidy(b: Board, present: Number, future: Number, r: Range, pr: Range, pn: Number,
                                           b': Board)
    requires BoardInv(b, present, future, r) && Tidy(b) && future <= pn && IsTimePulse(pn)
    requires CommitBoard(b, future, pr, pn) == Some(b')
    ensures Tidy(b')
  {
    var m := b.present.value;
    assert SlotInv(b, m, present, future, r, m);
    if pn in b.published {
      assert KeyInv(b, m, present, future, pn);
    }
    var m' := |b.slots|;
    if future in b.published {
      m' := b.published[future];
      assert KeyInv(b, m, present, future, future);
      assert SlotInv(b, m, present, future, r, m');
    }
    CommitGivesShape(b, m', future, pr, pn);
    CommitLeavesRunning(b, future, pr, pn, b');
    ShapeOwnsAliases(b, present, future, r, pr, pn, b', m');
    ShapeLeavesStopped(b, present, future, r, pr, pn, b', m');
  }

  lemma {:induction false} CommitLeavesRunning(b: Board, future: Number, pr: Range, pn: Number, b': Board)
    requires CommitBoard(b, future, pr, pn) == Some(b')
    ensures |b.slots| <= |b'.slots|
    ensures forall i :: 0 <= i < |b'.slots| ==> b'.slots[i].running == (i < |b.slots| ==> b.slots[i].running)
  {
  }

  lemma {:induction false} ShapeOwnsAliases(b: Board, present: Number, future: Number, r: Range, pr: Range, pn: Number,
                                            b': Board, m': nat)
    requires BoardInv(b, present, future, r) && OwnAliases(b) && future <= pn && IsTimePulse(pn)
    requires CommitShape(b, b', m', future, pr, pn)
    ensures OwnAliases(b')
  {
    forall k | k in b'.published && IsTimePulse(k)
      ensures b'.published[k] < |b'.slots|
      ensures k == b'.unpublish || b'.slots[b'.published[k]].finalizer.None?
              || b'.slots[b'.published[k]].finalizer == Some(k)
    {
      if future in b.published {
        assert KeyInv(b, b.present.value, present, future, future);
        assert b.published[future] == m' && IsTimePulse(future) && future != b.unpublish;
      }
      if k != future && k != pn {
        OtherAliasKept(b, present, future, r, pr, pn, b', m', k);
      }
    }
  }

  lemma {:induction false} OtherAliasKept(b: Board, present: Number, future: Number, r: Range, pr: Range, pn: Number,
                                          b': Board, m': nat, k: Number)
    requires BoardInv(b, present, future, r) && OwnAliases(b) && CommitShape(b, b', m', future, pr, pn)
    requires k in b'.published && IsTimePulse(k) && k != future && k != pn
    ensures b'.published[k] < |b'.slots|
    ensures b'.slots[b'.published[k]].finalizer.None? || b'.slots[b'.published[k]].finalizer == Some(k)
  {
    assert KeyInv(b, b.present.value, present, future, k);
    assert SlotInv(b, b.present.value, present, future, r, b.present.value);
    var i := b.published[k];
    assert b'.published[k] == i;
    if future in b.published {
      assert KeyInv(b, b.present.value, present, future, future);
    }
    assert b'.slots[i] == if b.present == Some(i) then b.slots[i].(state := Past) else b.slots[i];
  }

  lemma {:induction false} ShapeLeavesStopped(b: Board, present: Number, future: Number, r: Range, pr: Range,
                                              pn: Number, b': Board, m': nat)
    requires BoardInv(b, present, future, r) && StoppedGone(b) && future <= pn && IsTimePulse(pn)
    requires CommitShape(b, b', m', future, pr, pn) && |b.slots| <= |b'.slots|
    requires m' < |b.slots| ==> b.slots[m'].state == Future
    requires forall i :: 0 <= i < |b'.slots| ==> b'.slots[i].running == (i < |b.slots| ==> b.slots[i].running)
    ensures StoppedGone(b')
  {
    forall i | 0 <= i < |b'.slots| && !b'.slots[i].running
      ensures b'.slots[i].state == Past
      ensures b'.slots[i].finalizer.Some? ==> b'.slots[i].finalizer.value !in b'.published
    {
      assert i < |b.slots| && i != m';
      assert b'.slots[i] == if b.present == Some(i) then b.slots[i].(state := Past) else b.slots[i];
      assert SlotInv(b, b.present.value, present, future, r, i);
    }
  }

  // ------------------------------------------------------------ over runs

  lemma {:induction false} StepStaysTidy(s: State, s': State)
    requires Inv(s) && StepTo(s, s') && Tidy(s.board)
    ensures Tidy(s'.board)
  {
    var step :| Allowed(s, step) && s' == Next(s, step);
    match step
    case AddInput(pn) => InputStaysTidy(s, pn);
    case CommitRange(pr, online) => if Commit(s, pr, online).Done? { CommitStepStaysTidy(s, pr, online); }
    case TerminateSlot(i) => TerminateStaysTidy(s.board, i);
    case _ =>
  }

  lemma {:induction false} InputStaysTidy(s: State, pn: Number)
    requires Inv(s) && Tidy(s.board)
    ensures Tidy(Next(s, AddInput(pn)).board)
  {
    if s.committed == [] {
      RoutedFirstExactly(s, pn);
    } else {
      WordIsPacked(s);
      OpenStaysTidy(s.board, M.PresentOf(s.word), M.FutureOf(s.word), LastRange(s));
    }
  }

  lemma {:induction false} CommitStepStaysTidy(s: State, pr: Range, online: nat)
    requires Inv(s) && Tidy(s.board) && Valid(pr) && Commit(s, pr, online).Done?
    ensures Tidy(Commit(s, pr, online).state.board)
  {
    var right, b' := RightBoundData(pr), Commit(s, pr, online).state.board;
    CommitHasEffect(s, pr, online);
    if s.committed == [] {
      FirstIsTidy(s.board, M.GetPresentPulse(s.word).1, pr, right.pn, b');
    } else {
      LeftBoundFollows(s, pr, LeftBoundNumber(pr));
      BoundsOrdered(pr);
      CommitStaysTidy(s.board, M.PresentOf(s.word), M.FutureOf(s.word), LastRange(s), pr, right.pn, b');
    }
  }

  lemma {:induction false} FirstIsTidy(b: Board, future: Number, pr: Range, pn: Number, b': Board)
    requires (b == EMPTY_BOARD && future == M.UNINITIALIZED_FUTURE) || (OnlyFuture(b, future) && b.slots[0].running)
    requires IsTimePulse(pn) && CommitBoard(b, future, pr, pn) == Some(b')
    ensures Tidy(b')
  {
  }

  lemma {:induction false} RunStaysTidy(ss: seq<State>, config: Config, k: nat)
    requires ValidConfig(config) && IsRunOf(ss, config) && k < |ss|
    ensures Tidy(ss[k].board)
  {
    if k > 0 {
      RunStaysTidy(ss, config, k - 1);
      RunKeepsInv(ss, config, k - 1);
      assert StepTo(ss[k - 1], ss[k]);
      StepStaysTidy(ss[k - 1], ss[k]);
    }
  }

  /** In every run, no input for a time pulse reaches a slot that has stopped, if the slot has a finalizer. */
  lemma {:induction false} StoppedIsUnreached(ss: seq<State>, config: Config, k: nat, pn: Number)
    requires ValidConfig(config) && IsRunOf(ss, config) && k < |ss| && ss[k].committed != [] && IsTimePulse(pn)
    requires MapToSlot(ss[k], pn).To? && MapToSlot(ss[k], pn).slot < |ss[k].board.slots|
    ensures var sl := ss[k].board.slots[MapToSlot(ss[k], pn).slot]; sl.running || sl.finalizer.None?
  {
    RunKeepsInv(ss, config, k);
    RunStaysTidy(ss, config, k);
    ReachedRuns(ss[k], pn);
  }

  lemma {:induction false} ReachedRuns(s: State, pn: Number)
    requires Inv(s) && Tidy(s.board) && s.committed != [] && IsTimePulse(pn)
    requires MapToSlot(s, pn).To? && MapToSlot(s, pn).slot < |s.board.slots|
    ensures var sl := s.board.slots[MapToSlot(s, pn).slot]; sl.running || sl.finalizer.None?
  {
    var i := MapToSlot(s, pn).slot;
    OnePresentSlot(s);
    RoutingSafe(s, pn);
    if !s.board.slots[i].running {
      ReachedByAlias(s, pn);
      assert s.board.published[pn] == i;
      if pn == s.board.unpublish {
        KeptAliasRoutes(s, pn);
      }
    }
  }

  /** A past slot is reached only through the number itself. */
  lemma {:induction false} ReachedByAlias(s: State, pn: Number)
    requires Inv(s) && s.committed != [] && IsTimePulse(pn)
    requires MapToSlot(s, pn).To? && MapToSlot(s, pn).slot < |s.board.slots|
    requires s.board.slots[MapToSlot(s, pn).slot].state == Past
    ensures pn in s.board.published && s.board.published[pn] == MapToSlot(s, pn).slot
  {
    var present, future := M.PresentOf(s.word), M.FutureOf(s.word);
    if pn < present {
      RoutedBackExactly(s, pn);
      AntiqueIsAntique(s, future);
    } else {
      RoutingSafe(s, pn);
      RoutingAddsSlots(s, pn);
      OnePresentSlot(s);
      RoutedElseExactly(s, pn);
    }
  }

  lemma {:induction false} AntiqueIsAntique(s: State, future: Number)
    requires Inv(s) && s.committed != [] && future == M.FutureOf(s.word)
    ensures var b := OpenAntique(s.board); b.published[0] < |b.slots| && b.slots[b.published[0]].state == Antique
    ensures s.board.slots <= OpenAntique(s.board).slots
  {
    var b := OpenAntique(s.board);
    WordTellsRight(s);
    WordIsPacked(s);
    OpenKeepsInv(s.board, M.PresentOf(s.word), future, LastRange(s));
    assert KeyInv(b, b.present.value, M.PresentOf(s.word), future, UNKNOWN);
  }
}
