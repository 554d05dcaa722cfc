/** Safety of the conveyor over whole runs. */
module ConveyorRuns {
  import opened PulseNumber
  import opened PulseData
  import opened PulseRange
  import opened PulseSlot
  import opened SlotBoard
  import opened Conveyor
  import opened ConveyorSafety

  // ------------------------------------------------------------ every step keeps the invariant

  lemma {:induction false} InitialInv(config: Config)
    requires ValidConfig(config)
    ensures Inv(Initial(config))
  {
  }

  lemma {:induction false} LoadKeepsCacheInv(c: C.Cache, bd: C.BeatData, present: Number, r: Range, prev: Previous,
                                             ever: set<Number>)
    requires C.Consistent(c) && CacheInv(c, present, r, prev, ever)
    requires Valid(bd.range) && C.CanPut(c, bd.range) && RightBoundData(bd.range).pn <= present
    ensures C.Consistent(C.PutOf(c, bd)) && CacheInv(C.PutOf(c, bd), present, r, prev, ever + C.Keys(bd.range))
  {
    C.PutConsistent(c, bd);
    C.PutKeepsOthersApart(c, bd);
    KeysBounds(bd.range);
  }

  lemma {:induction false} MarkKeepsCacheInv(c: C.Cache, pn: Number, present: Number, r: Range, prev: Previous,
                                             ever: set<Number>)
    requires CacheInv(c, present, r, prev, ever)
    ensures CacheInv(C.Mark(c, pn), present, r, prev, ever)
  {
  }

  /** Another cache that keeps its part of the invariant keeps all of it. */
  lemma {:induction false} CacheKeepsInv(s: State, c: C.Cache, ever: set<Number>)
    requires Inv(s) && C.Consistent(c) && c.minRange == s.cache.minRange && c.rotations == s.cache.rotations
    requires s.committed == [] ==> c.entries == map[] && ever == {}
    requires s.committed != [] ==>
               IsRun(s.committed) && Valid(LastRange(s))
               && CacheInv(c, RightBoundData(LastRange(s)).pn, LastRange(s), PreviousOf(s.committed), ever)
    ensures Inv(s.(cache := c, ever := ever))
  {
  }

  lemma {:induction false} MarkKeepsInv(s: State, pn: Number)
    requires Inv(s)
    ensures Inv(s.(cache := C.Mark(s.cache, pn)))
  {
    C.MarkConsistent(s.cache, pn);
    if s.committed != [] {
      MarkKeepsCacheInv(s.cache, pn, RightBoundData(LastRange(s)).pn, LastRange(s), PreviousOf(s.committed), s.ever);
    }
    CacheKeepsInv(s, C.Mark(s.cache, pn), s.ever);
  }

  lemma {:induction false} TouchKeepsInv(s: State, pn: Number)
    requires Inv(s)
    ensures Inv(s.(cache := C.Touch(s.cache, pn))) && Inv(s.(cache := C.Mark(s.cache, pn)))
  {
    MarkKeepsInv(s, pn);
    assert pn !in s.cache.entries ==> s.(cache := C.Touch(s.cache, pn)) == s;
  }

  lemma {:induction false} LoadKeepsInv(s: State, bd: C.BeatData)
    requires Inv(s) && s.committed != []
    requires Valid(bd.range) && C.CanPut(s.cache, bd.range) && RightBoundData(bd.range).pn <= M.PresentOf(s.word)
    ensures Inv(s.(cache := C.PutOf(s.cache, bd), ever := s.ever + C.Keys(bd.range)))
  {
    WordTellsRight(s);
    LoadKeepsCacheInv(s.cache, bd, RightBoundData(LastRange(s)).pn, LastRange(s), PreviousOf(s.committed), s.ever);
    CacheKeepsInv(s, C.PutOf(s.cache, bd), s.ever + C.Keys(bd.range));
  }

  lemma {:induction false} BoardKeepsInv(s: State, b: Board)
    requires Inv(s) && s.committed != [] && |b.slots| >= |s.board.slots|
    requires BoardInv(b, M.PresentOf(s.word), M.FutureOf(s.word), LastRange(s))
    ensures Inv(s.(board := b))
  {
  }

  lemma {:induction false} EventKeepsInv(s: State, e: Event)
    requires Inv(s) && e.slot < |s.board.slots| && e.status != Impossible
    requires s.committed != [] || s.word != 0
    ensures Inv(s.(events := s.events + [e]))
  {
  }

  ghost predicate RoutedWell(s: State, pn: Number, r: Route, present: Number, future: Number)
    requires s.committed != []
  {
    && !r.Panics?
    && (pn == UNKNOWN || pn == present ==>
          r.To? && r.state == Present && r.target == present
          && r.board == s.board && s.board.present == Some(r.slot)
          && r.slot < |s.board.slots| && s.board.slots[r.slot].state == Present)
    && (present < pn < future ==> r.Refused?)
    && (r.To? && r.state == Future <==> IsTimePulse(pn) && future <= pn <= future + (future - present))
    && (r.To? && r.state == Future ==>
          r.target == pn && r.slot < |r.board.slots| && r.board.slots[r.slot].state == Future
          && future in r.board.published && r.board.published[future] == r.slot)
    && (UNKNOWN < pn < present && r.To? ==>
          (r.state == Past || r.state == Antique) && r.slot < |r.board.slots| && r.board.slots[r.slot].state != Future)
    && (r.To? ==> r.word == s.word && |r.board.slots| >= |s.board.slots|)
    && (r.To? ==> BoardInv(r.board, present, future, LastRange(s)))
  }

  /** Routing after a commit never hits its illegal-state panics; the unknown and the present number go to
      the one present slot; a number between present and expected future is refused; a number is accepted
      as future exactly within one expected step; and no earlier number reaches a future slot. */
  lemma {:induction false} RoutingSafe(s: State, pn: Number)
    requires Inv(s) && s.committed != []
    ensures RoutedWell(s, pn, MapToSlot(s, pn), M.PresentOf(s.word), M.FutureOf(s.word))
  {
    var right := RightBoundData(LastRange(s));
    var present, future := right.pn, NextNumber(right).value;
    assert M.GetPresentPulse(s.word) == (present, future);
    if pn >= future {
      RoutingAhead(s, pn, present, future);
    } else if pn == UNKNOWN || pn >= present {
      assert SlotInv(s.board, s.board.present.value, present, future, LastRange(s), s.board.present.value);
    } else {
      RoutingBack(s, pn, present, future);
    }
  }

  /** Within the time pulses the span of one cycle does not wrap around. */
  lemma {:induction false} OneCycleAhead(present: Number, future: Number, pn: Number)
    requires IsTimePulse(present) && present < future <= MAX_TIME_PULSE
    ensures M.IsAllowedFutureSpan(present, future, pn, FUTURE_CYCLES) <==> future <= pn <= future + (future - present)
  {
    assert Mul32(Sub32(future, present), FUTURE_CYCLES) == future - present;
  }

  /** A number from the expected one on goes to the future slot, or is refused. */
  lemma {:induction false} AheadGives(s: State, pn: Number, present: Number, future: Number)
    requires s.word == M.Pack(present, future) && IsTimePulse(present) && present < future <= MAX_TIME_PULSE
             && future <= pn
    ensures MapToSlot(s, pn) == if IsTimePulse(pn) && pn <= future + (future - present)
                                then ToFuture(s.board, s.word, present, future, pn) else Refused
  {
    OneCycleAhead(present, future, pn);
  }

  lemma {:induction false} RoutingAhead(s: State, pn: Number, present: Number, future: Number)
    requires s.committed != [] && BoardInv(s.board, present, future, LastRange(s))
    requires s.word == M.Pack(present, future) && IsTimePulse(present) && IsTimePulse(future) && future <= pn
    ensures RoutedWell(s, pn, MapToSlot(s, pn), present, future)
  {
    AheadGives(s, pn, present, future);
    OpenKeepsInv(s.board, present, future, LastRange(s));
    assert KeyInv(OpenFuture(s.board, present, future), s.board.present.value, present, future, future);
  }

  lemma {:induction false} RoutingBack(s: State, pn: Number, present: Number, future: Number)
    requires s.committed != [] && BoardInv(s.board, present, future, LastRange(s))
    requires s.word == M.Pack(present, future) && IsTimePulse(present) && IsTimePulse(future) && UNKNOWN < pn < present
    ensures RoutedWell(s, pn, MapToSlot(s, pn), present, future)
  {
    var b, m := s.board, s.board.present.value;
    OpenKeepsInv(b, present, future, LastRange(s));
    assert SlotInv(b, m, present, future, LastRange(s), m);
    assert pn in b.published ==> KeyInv(b, m, present, future, pn);
    assert KeyInv(OpenAntique(b), m, present, future, UNKNOWN);
  }

  lemma {:induction false} AddInputKeepsInv(s: State, pn: Number)
    requires Inv(s)
    ensures Inv(Next(s, AddInput(pn)))
  {
    var r := MapToSlot(s, pn);
    if r.To? {
      if s.committed == [] {
        FirstInput(s, pn);
      } else {
        RoutingSafe(s, pn);
        BoardKeepsInv(s, r.board);
        if r.state == Future {
          EventKeepsInv(s.(board := r.board), Event(r.slot, r.target, Waiting));
        } else {
          TouchKeepsInv(s.(board := r.board), r.target);
        }
      }
    }
  }

  /** Before the first commit every input goes to the one future slot. */
  lemma {:induction false} FirstInput(s: State, pn: Number)
    requires Inv(s) && s.committed == []
    ensures !MapToSlot(s, pn).Panics?
    ensures MapToSlot(s, pn).To? ==>
              var r := MapToSlot(s, pn);
              && r.state == Future && r.slot == 0 && |r.board.slots| == 1 && r.word != 0
              && M.PresentOf(r.word) == UNKNOWN && OnlyFuture(r.board, M.FutureOf(r.word))
              && (s.word != 0 ==> r.word == s.word && r.board == s.board)
              && IsExpectedPulse(ExpectedData(UNKNOWN, M.FutureOf(r.word)))
    ensures Inv(Next(s, AddInput(pn)))
  {
    var r := MapToSlot(s, pn);
    if r.To? && Fresh(s) {
      assert r.board.published == map[pn := 0];
    }
  }

  lemma {:induction false} PollKeepsInv(s: State, i: nat)
    requires Inv(s)
    ensures Inv(Next(s, PollAt(i)))
  {
  }

  lemma {:induction false} StepKeepsInv(s: State, step: Step)
    requires Inv(s) && Allowed(s, step)
    ensures Inv(Next(s, step))
  {
    match step
    case AddInput(pn) => AddInputKeepsInv(s, pn);
    case PollAt(i) => PollKeepsInv(s, i);
    case CommitRange(pr, online) => if Commit(s, pr, online).Done? { CommitKeepsInv(s, pr, online); }
    case Prepare =>
    case Cancel =>
    case TerminateSlot(i) =>
      if s.committed != [] {
        TerminateKeepsBoard(s.board, M.PresentOf(s.word), M.FutureOf(s.word), LastRange(s), i);
        BoardKeepsInv(s, Terminate(s.board, i));
      }
    case ReadData(pn) => TouchKeepsInv(s, pn);
    case LateTouch(pn) => TouchKeepsInv(s, pn);
    case LoadData(bd) =>
      if IsPulsarData(RightBoundData(bd.range)) && C.CanPut(s.cache, bd.range) {
        LoadKeepsInv(s, bd);
      }
  }

  /** The invariant holds in every state of every run. */
  lemma {:induction false} RunKeepsInv(ss: seq<State>, config: Config, k: nat)
    requires ValidConfig(config) && IsRunOf(ss, config) && k < |ss|
    ensures Inv(ss[k])
  {
    if k == 0 {
      InitialInv(config);
    } else {
      RunKeepsInv(ss, config, k - 1);
      assert StepTo(ss[k - 1], ss[k]);
      StepToKeeps(ss[k - 1], ss[k]);
    }
  }

  lemma {:induction false} StepToKeeps(s: State, s': State)
    requires Inv(s) && StepTo(s, s')
    ensures Inv(s') && s.committed <= s'.committed && SlotsMove(s.board, s'.board)
    ensures |s'.committed| > |s.committed| ==> forall i :: 0 <= i < |s'.events| ==> s'.events[i].status != Waiting
  {
    var step :| Allowed(s, step) && s' == Next(s, step);
    StepKeepsInv(s, step);
    SlotsMoveForward(s, step);
    CommittedOnlyGrows(s, step);
    if |s'.committed| > |s.committed| {
      NoneWaitsAfterCommit(s, step);
    }
  }

  lemma {:induction false} CommittedOnlyGrows(s: State, step: Step)
    requires Allowed(s, step)
    ensures s.committed <= Next(s, step).committed
  {
  }

  // ------------------------------------------------------------ what the invariant means

  /** Everything committed so far enumerates as one linked, strictly increasing chain of pulses that ends
      at the present one. */
  lemma {:induction false} CommittedIsOneChain(s: State)
    requires Inv(s) && s.committed != []
    ensures IsRun(s.committed) && Valid(s.committed[0]) && Valid(LastRange(s))
    ensures var es := AllNumbers(s.committed);
            && Chain(es, LeftBoundNumber(s.committed[0]), LeftPrevDelta(s.committed[0]),
                  EntryOf(RightBoundData(LastRange(s))))
            && es[|es| - 1].n == M.PresentOf(s.word) && es[|es| - 1].n + es[|es| - 1].next == M.FutureOf(s.word)
            && forall i, j :: 0 <= i < j < |es| ==> es[i].n < es[j].n
  {
    assert Valid(s.committed[0]);
    WordTellsRight(s);
    RunIsOneChain(s.committed);
  }

  lemma {:induction false} WordTellsRight(s: State)
    requires Inv(s) && s.committed != []
    ensures Valid(LastRange(s)) && IsRun(s.committed)
    ensures var right := RightBoundData(LastRange(s));
            M.PresentOf(s.word) == right.pn && M.FutureOf(s.word) == right.pn + right.next
  {
  }

  /** After a commit exactly one slot is present, it is presentMachine, it is published under the present
      number and carries the committed range; and no time pulse past the expected future is published. */
  lemma {:induction false} OnePresentSlot(s: State)
    requires Inv(s) && s.committed != []
    ensures var present, future := M.PresentOf(s.word), M.FutureOf(s.word);
            && s.board.present.Some? && s.board.present.value < |s.board.slots|
            && (forall i :: 0 <= i < |s.board.slots| ==>
                  (s.board.slots[i].state == Present <==> i == s.board.present.value))
            && s.board.slots[s.board.present.value].range == Some(LastRange(s))
            && present in s.board.published && s.board.published[present] == s.board.present.value
            && (forall k :: k in s.board.published && IsTimePulse(k) ==> k <= future)
            && (forall k :: k in s.board.published && present < k ==> k == future)
  {
    var right, b := RightBoundData(LastRange(s)), s.board;
    var present, future, m := right.pn, NextNumber(right).value, b.present.value;
    assert SlotInv(b, m, present, future, LastRange(s), m);
    forall i | 0 <= i < |b.slots|
      ensures b.slots[i].state == Present <==> i == m
    {
      assert SlotInv(b, m, present, future, LastRange(s), i);
    }
    forall k | k in b.published
      ensures k <= future && (present < k ==> k == future)
    {
      assert KeyInv(b, m, present, future, k);
    }
  }

  /** Slots only move from future to present to past, whatever the step. */
  lemma {:induction false} SlotsMoveForward(s: State, step: Step)
    requires Inv(s) && Allowed(s, step)
    ensures SlotsMove(s.board, Next(s, step).board)
  {
    match step
    case CommitRange(pr, online) => if Commit(s, pr, online).Done? { CommitKeepsInv(s, pr, online); }
    case AddInput(pn) => RoutingMovesNoSlot(s, pn);
    case _ =>
  }

  lemma {:induction false} RoutingMovesNoSlot(s: State, pn: Number)
    ensures MapToSlot(s, pn).To? ==> SlotsMove(s.board, MapToSlot(s, pn).board)
  {
  }

  // ------------------------------------------------------------ the cache along a run

  /** PulseSlot.PrevOperationPulseNumber of a slot that has a range. */
  function PrevOperationPulseNumber(r: Range): Number
    requires Valid(r)
  {
    if LeftPrevDelta(r) == 0 || IsArticulated(r) then UNKNOWN
    else match TryPrev(LeftBoundNumber(r), LeftPrevDelta(r))
         case Some(pn) => pn
         case None => UNKNOWN
  }

  /** PulseDataManager.GetPrevBeatData: the previous number and, if cached, its range. */
  ghost function GetPrevBeatData(s: State): (Number, Option<Range>) {
    var (present, _) := M.GetPresentPulse(s.word);
    if !IsTimePulse(present) || present !in s.cache.entries
      || !Valid(s.cache.entries[present].beat.range) then (0, None)
    else
      var r := s.cache.entries[present].beat.range;
      if IsArticulated(r) || LeftPrevDelta(r) == 0 then (0, None)
      else match TryPrev(LeftBoundNumber(r), LeftPrevDelta(r))
           case None => (0, None)
           case Some(pn) => (pn, if pn in s.cache.entries then Some(s.cache.entries[pn].beat.range) else None)
  }

  /** A slot knows its previous pulse exactly when its range has no gap and is not the first. */
  lemma {:induction false} PrevOperationExactly(r: Range)
    requires Valid(r)
    ensures PrevOperationPulseNumber(r) == if IsArticulated(r) || LeftPrevDelta(r) == 0 then 0
                                           else LeftBoundNumber(r) - LeftPrevDelta(r)
  {
    if r.Sequence? {
      assert IsPulseData(r.ds[0]);
    }
  }

  /** And so does the manager, with the data if they are cached. */
  lemma {:induction false} GetPrevBeatExactly(s: State)
    requires Inv(s) && s.committed != []
    ensures Valid(LastRange(s))
    ensures var pn, held := PrevOperationPulseNumber(LastRange(s)), s.cache.entries;
            GetPrevBeatData(s)
            == (pn, if pn != 0 && pn in held then Some(held[pn].beat.range) else None)
  {
    WordTellsRight(s);
    PrevOperationExactly(LastRange(s));
    PresentIsHeld(s);
  }

  lemma {:induction false} PresentIsHeld(s: State)
    requires Inv(s) && s.committed != []
    ensures M.GetPresentPulse(s.word).0 == M.PresentOf(s.word) && IsTimePulse(M.PresentOf(s.word))
    ensures M.PresentOf(s.word) in s.cache.entries
    ensures s.cache.entries[M.PresentOf(s.word)].beat.range == LastRange(s)
  {
  }

  /** After two or more commits, the last of them without a gap, both ways of asking for the previous pulse
      give the previously committed present number, and its data are cached however little is retained. */
  lemma {:induction false} PreviousPulseIsKnown(s: State)
    requires Inv(s) && |s.committed| >= 2 && !IsArticulated(LastRange(s))
    ensures Valid(LastRange(s)) && Valid(s.committed[|s.committed| - 2])
    ensures var q := s.committed[|s.committed| - 2];
            && PrevOperationPulseNumber(LastRange(s)) == RightBoundData(q).pn
            && GetPrevBeatData(s) == (RightBoundData(q).pn, Some(q))
  {
    RunPrefix(s.committed);
  }

  /** A number ever cached that is within the retention interval is still cached, and so is the present one. */
  lemma {:induction false} RecentPastIsCached(s: State, pn: Number)
    requires Inv(s) && s.committed != [] && pn in s.ever
    requires M.IsRecentPastRange(M.PresentOf(s.word), pn, s.config.minCachePulseAge, s.earliest)
             || pn == M.PresentOf(s.word)
    ensures pn in s.cache.entries
  {
  }

  // ------------------------------------------------------------ inputs without data

  /** After a commit, an input for the present pulse always finds its data; one routed to a past slot finds
      them exactly when they are cached, and so does a recent one routed to the antique slot. */
  lemma {:induction false} AdmittedExactly(s: State, pn: Number)
    requires Inv(s) && s.committed != [] && MapToSlot(s, pn).To?
    ensures var state, held := MapToSlot(s, pn).state, pn in s.cache.entries;
            Admit(s, pn) == match state
                            case Future => Admitted
                            case Present => Admitted
                            case Past => if held then Admitted else UnknownData
                            case Antique =>
                              if held || !IsRecent(s.word, pn, s.config, s.earliest) then Admitted else UnknownData
    ensures pn in s.ever && IsRecent(s.word, pn, s.config, s.earliest) ==> Admit(s, pn) == Admitted
  {
    RoutingSafe(s, pn);
    if pn in s.ever && IsRecent(s.word, pn, s.config, s.earliest) {
      RecentPastIsCached(s, pn);
    }
  }

  /** After any commit, an input for the number that had been expected before it, if the new present pulse is a
      later one, is refused for want of data exactly when the range does not provide that number. */
  lemma {:induction false} FormerFutureInput(s: State, pr: Range, online: nat, f: Number)
    requires Inv(s) && Valid(pr) && Commit(s, pr, online).Done?
    requires f == M.GetPresentPulse(s.word).1 && IsTimePulse(f) && f < RightBoundData(pr).pn
    ensures Admit(Commit(s, pr, online).state, f) == if f in C.Keys(pr) then Admitted else UnknownData
  {
    CommitHasEffect(s, pr, online);
    FormerFutureAdmission(s, Commit(s, pr, online).state, pr, RightBoundData(pr), online, f);
  }

  lemma {:induction false} FormerFutureAdmission(s: State, s': State, pr: Range, right: Data, online: nat, f: Number)
    requires Inv(s) && Valid(pr) && f == M.GetPresentPulse(s.word).1 && IsTimePulse(f) && f < right.pn
    requires right == RightBoundData(pr) && CommitEffect(s, s', pr, right, online)
    ensures Admit(s', f) == if f in C.Keys(pr) then Admitted else UnknownData
  {
    NothingCachedAhead(s, f);
    CommitKeepsAlias(s.board, f, pr, right.pn, s'.board);
    FormerFutureIsCached(s.cache, pr, right, online, f);
    AliasAdmission(s', f, right.pn, NextNumber(right).value);
  }

  lemma {:induction false} NothingCachedAhead(s: State, f: Number)
    requires Inv(s) && f == M.GetPresentPulse(s.word).1
    ensures f !in s.cache.entries
  {
  }

  /** For a later commit that number is the left bound of the range. */
  lemma {:induction false} LeftBoundInput(s: State, pr: Range, online: nat)
    requires Inv(s) && s.committed != [] && Valid(pr) && Commit(s, pr, online).Done?
    requires LeftBoundNumber(pr) < RightBoundData(pr).pn
    ensures var s', left := Commit(s, pr, online).state, LeftBoundNumber(pr);
            Admit(s', left) == if left in C.Keys(pr) then Admitted else UnknownData
  {
    CommitOutcome(s, pr, online);
    LeftIsTimePulse(pr);
    LeftBoundFollows(s, pr, LeftBoundNumber(pr));
    FormerFutureInput(s, pr, online, LeftBoundNumber(pr));
  }

  lemma {:induction false} LeftBoundFollows(s: State, pr: Range, left: Number)
    requires Inv(s) && s.committed != [] && Valid(pr) && left == LeftBoundNumber(pr)
    requires Valid(LastRange(s)) && RangeIsValidNext(LastRange(s), pr)
    ensures M.GetPresentPulse(s.word) == (M.PresentOf(s.word), left)
  {
  }

  /** A first commit past the chosen future: that number need not even be in the range. */
  lemma {:induction false} ChosenFutureRefused(config: Config, online: nat)
    requires ValidConfig(config)
    ensures var s, pr := Next(Initial(config), AddInput(150000)), One(Data(200000, 200000, 10, 10, 0, 0));
            Valid(pr) && Commit(s, pr, online).Done? && Admit(Commit(s, pr, online).state, 150000) == UnknownData
  {
    var s, pr := Next(Initial(config), AddInput(150000)), One(Data(200000, 200000, 10, 10, 0, 0));
    InitialInv(config);
    FirstInput(Initial(config), 150000);
    CommitOutcome(s, pr, online);
    FormerFutureInput(s, pr, online, 150000);
  }

  /** A published number below the present one is routed as past. */
  lemma {:induction false} AliasAdmission(s: State, pn: Number, present: Number, future: Number)
    requires s.word == M.Pack(present, future) && IsTimePulse(present) && IsTimePulse(pn) && pn < present
    requires pn in s.board.published
    ensures MapToSlot(s, pn) == To(s.board, s.word, s.board.published[pn], pn, Past)
    ensures Admit(s, pn) == if pn in s.cache.entries then Admitted else UnknownData
  {
  }

  lemma {:induction false} FormerFutureIsCached(c: C.Cache, pr: Range, right: Data, online: nat, f: Number)
    requires C.Consistent(c) && Valid(pr) && C.CanPut(c, pr) && right == RightBoundData(pr) && IsTimePulse(right.pn)
    requires 0 < c.minRange <= MAX_TIME_PULSE && f !in c.entries
    ensures var c' := C.EvictAndRotateOf(C.PutOf(c, C.BeatData(pr, online)), right.pn);
            f in c'.entries <==> f in C.Keys(pr)
  {
    C.PutConsistent(c, C.BeatData(pr, online));
    PutTouches(c, C.BeatData(pr, online));
    KeptByEviction(C.PutOf(c, C.BeatData(pr, online)), right.pn);
  }

  // ------------------------------------------------------------ delayed events

  /** A commit decides every pending event of the slot that becomes present: woken and then started if that
      slot accepts its number, else sent to termination and then failed. */
  lemma {:induction false} CommitSettlesEvent(s: State, pr: Range, online: nat, i: nat)
    requires Inv(s) && Valid(pr) && Commit(s, pr, online).Done?
    requires i < |s.events| && IsPending(s.events[i]) && s.board.slots[s.events[i].slot].state == Future
    ensures var s' := Commit(s, pr, online).state;
            var e', polled := s'.events[i], PollEvent(s'.board, s'.word, s'.events[i]);
            && s'.board.present == Some(e'.slot) && e'.pn == s.events[i].pn
            && (if Accepts(pr, e'.pn) then e'.status == Awake && polled.status == Started
                else e'.status == Stopping && polled.status == Failed)
  {
    var s', right := Commit(s, pr, online).state, RightBoundData(pr);
    CommitKeepsInv(s, pr, online);
    OnePresentSlot(s');
    CommitHasEffect(s, pr, online);
    assert LastRange(s') == pr;
    assert Moves(s.board.slots[s.events[i].slot].state, s'.board.slots[s.events[i].slot].state);
    PresentAccepts(s'.board, s'.word, pr, right, s.events[i].slot, s.events[i].pn);
  }

  lemma {:induction false} PresentAccepts(b: Board, word: M.Word, pr: Range, right: Data, i: nat, pn: Number)
    requires Valid(pr) && right == RightBoundData(pr) && IsTimePulse(right.pn) && M.PresentOf(word) == right.pn
    requires i < |b.slots| && b.slots[i].state == Present && b.slots[i].range == Some(pr)
    ensures FutureOrPresent(b, word, i, pn) == (false, Accepts(pr, pn))
  {
  }

  /** An event for a later pulse than the one that becomes present is started all the same exactly when the
      range is articulated and its pulses let that number pass. */
  lemma {:induction false} LaterEventStartsExactly(s: State, pr: Range, online: nat, i: nat)
    requires Inv(s) && Valid(pr) && Commit(s, pr, online).Done?
    requires i < |s.events| && IsPending(s.events[i]) && s.board.slots[s.events[i].slot].state == Future
    requires IsTimePulse(s.events[i].pn) && RightBoundData(pr).pn < s.events[i].pn
    ensures var s', es := Commit(s, pr, online).state, ProvidedNumbers(pr);
            PollEvent(s'.board, s'.word, s'.events[i]).status ==
            if IsArticulated(pr) && Floor(es, |es|) <= s.events[i].pn then Started else Failed
  {
    CommitSettlesEvent(s, pr, online, i);
    AcceptsBeyondExactly(pr, s.events[i].pn);
  }

  /** With a single pulse committed, an event starts exactly if it is for that very pulse. */
  lemma {:induction false} SingularCommitSettlesEvent(s: State, pr: Range, online: nat, i: nat)
    requires Inv(s) && Valid(pr) && IsSingular(pr) && Commit(s, pr, online).Done?
    requires i < |s.events| && IsPending(s.events[i]) && s.board.slots[s.events[i].slot].state == Future
    ensures var s', right := Commit(s, pr, online).state, RightBoundData(pr);
            var e', polled := s'.events[i], PollEvent(s'.board, s'.word, s'.events[i]);
            && s'.board.present == Some(e'.slot) && e'.pn == s.events[i].pn
            && (e'.pn == right.pn ==> e'.status == Awake && polled.status == Started)
            && (e'.pn != right.pn ==> e'.status == Stopping && polled.status == Failed)
  {
    CommitSettlesEvent(s, pr, online, i);
    assert Accepts(pr, s.events[i].pn) <==> s.events[i].pn == RightBoundData(pr).pn;
  }

  /** An event whose slot is no longer future does not get past a commit. */
  lemma {:induction false} CommitEndsEvent(s: State, s': State, pr: Range, right: Data, online: nat, i: nat)
    requires Inv(s) && Valid(pr) && right == RightBoundData(pr) && CommitEffect(s, s', pr, right, online)
    requires i < |s.events| && s.board.slots[s.events[i].slot].state != Future
    ensures i < |s'.events| && !IsPending(s'.events[i])
  {
    var slot := s.events[i].slot;
    EffectKeepsInv(s, s', pr, right, online);
    assert Moves(s.board.slots[slot].state, s'.board.slots[slot].state);
    if s.board.slots[slot].state == Present {
      EffectRetiresPresent(s, s', pr, right, online, slot);
    }
    NotPresentEnds(s'.board, s'.word, s.events[i]);
  }

  lemma {:induction false} EffectRetiresPresent(s: State, s': State, pr: Range, right: Data, online: nat, slot: nat)
    requires Inv(s) && Valid(pr) && right == RightBoundData(pr) && CommitEffect(s, s', pr, right, online)
    requires slot < |s.board.slots| && s.board.slots[slot].state == Present
    ensures slot < |s'.board.slots| && s'.board.slots[slot].state == Past
  {
    OnePresentSlot(s);
    BoundsOrdered(pr);
    CommitRetiresPresent(s.board, M.PresentOf(s.word), M.FutureOf(s.word), LastRange(s), pr, right.pn, s'.board);
  }

  lemma {:induction false} NotPresentEnds(b: Board, word: M.Word, e: Event)
    requires e.slot < |b.slots| && (b.slots[e.slot].state == Past || b.slots[e.slot].state == Antique)
    ensures !IsPending(MigrateEvent(b, word, e))
  {
  }

  /** An event starts or fails once and for all. */
  lemma {:induction false} SettledIsFinal(s: State, step: Step, i: nat)
    requires Allowed(s, step) && i < |s.events|
    ensures i < |Next(s, step).events|
    ensures s.events[i].status == Started || s.events[i].status == Failed ==> Next(s, step).events[i] == s.events[i]
  {
  }

  /** So from any state of a run on. */
  lemma {:induction false} SettledForGood(ss: seq<State>, config: Config, i: nat, j: nat, k: nat)
    requires IsRunOf(ss, config) && i <= j < |ss| && k < |ss[i].events|
    requires ss[i].events[k].status == Started || ss[i].events[k].status == Failed
    ensures k < |ss[j].events| && ss[j].events[k] == ss[i].events[k]
    decreases j - i
  {
    if i < j {
      SettledForGood(ss, config, i, j - 1, k);
      assert StepTo(ss[j - 1], ss[j]);
      SettledAfter(ss[j - 1], ss[j], k);
    }
  }

  lemma {:induction false} SettledAfter(s: State, s': State, i: nat)
    requires StepTo(s, s') && i < |s.events| && (s.events[i].status == Started || s.events[i].status == Failed)
    ensures i < |s'.events| && s'.events[i] == s.events[i]
  {
    var step :| Allowed(s, step) && s' == Next(s, step);
    SettledIsFinal(s, step, i);
  }

  lemma {:induction false} CommittedGrowsByCommit(s: State, step: Step)
    requires Allowed(s, step) && |Next(s, step).committed| > |s.committed|
    ensures step.CommitRange? && Commit(s, step.pr, step.online) == Done(Next(s, step))
  {
  }

  /** In no reachable state has an event taken the "impossible state" branch, and after any commit none waits. */
  lemma {:induction false} EventsNeverStuck(ss: seq<State>, config: Config, k: nat, i: nat)
    requires ValidConfig(config) && IsRunOf(ss, config) && k < |ss| && i < |ss[k].events|
    ensures ss[k].events[i].status != Impossible
    ensures k > 0 && |ss[k].committed| > |ss[k - 1].committed| ==> ss[k].events[i].status != Waiting
  {
    RunState(ss, config, k);
    if k > 0 {
      RunStep(ss, config, k);
    }
  }

  lemma {:induction false} RunState(ss: seq<State>, config: Config, k: nat)
    requires ValidConfig(config) && IsRunOf(ss, config) && k < |ss|
    ensures IsRun(ss[k].committed)
    ensures forall i :: 0 <= i < |ss[k].events| ==> ss[k].events[i].status != Impossible
  {
    RunKeepsInv(ss, config, k);
  }

  lemma {:induction false} RunStep(ss: seq<State>, config: Config, k: nat)
    requires ValidConfig(config) && IsRunOf(ss, config) && 0 < k < |ss|
    ensures ss[k - 1].committed <= ss[k].committed && SlotsMove(ss[k - 1].board, ss[k].board)
    ensures |ss[k].committed| > |ss[k - 1].committed| ==>
              forall i :: 0 <= i < |ss[k].events| ==> ss[k].events[i].status != Waiting
  {
    RunKeepsInv(ss, config, k - 1);
    assert StepTo(ss[k - 1], ss[k]);
    StepToKeeps(ss[k - 1], ss[k]);
  }

  lemma {:induction false} NoneWaitsAfterCommit(s: State, step: Step)
    requires Inv(s) && Allowed(s, step) && |Next(s, step).committed| > |s.committed|
    ensures forall i :: 0 <= i < |Next(s, step).events| ==> Next(s, step).events[i].status != Waiting
  {
    CommittedGrowsByCommit(s, step);
    CommitKeepsInv(s, step.pr, step.online);
  }

  // ------------------------------------------------------------ whole runs

  function Rank(st: SlotState): nat {
    match st
    case Future => 0
    case Present => 1
    case Past => 2
    case Antique => 3
  }

  /** Along a run the committed ranges only grow at the end, and each of them is one valid-next run; a slot
      keeps its place, never goes back, and never becomes or stops being antique. */
  lemma {:induction false} RunIsMonotone(ss: seq<State>, config: Config, i: nat, j: nat, n: nat)
    requires ValidConfig(config) && IsRunOf(ss, config) && i <= j < |ss|
    ensures ss[i].committed <= ss[j].committed && IsRun(ss[j].committed)
    ensures n < |ss[i].board.slots| ==>
              var a := ss[i].board.slots[n].state;
              n < |ss[j].board.slots| && Rank(a) <= Rank(ss[j].board.slots[n].state)
              && (a == Antique <==> ss[j].board.slots[n].state == Antique)
    decreases j - i
  {
    RunState(ss, config, j);
    if i < j {
      RunIsMonotone(ss, config, i, j - 1, n);
      RunStep(ss, config, j);
      assert n < |ss[j - 1].board.slots| ==> Moves(ss[j - 1].board.slots[n].state, ss[j].board.slots[n].state);
    }
  }

  // ------------------------------------------------------------ no event waits for a second commit

  /** How far an event with the given slot has got after n more commits. */
  ghost predicate EventAfter(s: State, i: nat, slot: nat, n: nat) {
    && i < |s.events| && s.events[i].slot == slot < |s.board.slots|
    && (n >= 1 ==> s.board.slots[slot].state != Future)
    && (n >= 2 ==> !IsPending(s.events[i]))
  }

  lemma {:induction false} EventStep(s: State, step: Step, i: nat, slot: nat, n: nat)
    requires Inv(s) && Allowed(s, step) && EventAfter(s, i, slot, n)
    ensures EventAfter(Next(s, step), i, slot, n + |Next(s, step).committed| - |s.committed|)
  {
    var s' := Next(s, step);
    if |s'.committed| > |s.committed| {
      CommittedGrowsByCommit(s, step);
      CommitHasEffect(s, step.pr, step.online);
      EventAtCommit(s, s', step.pr, RightBoundData(step.pr), step.online, i, slot, n);
    } else {
      SlotsMoveForward(s, step);
      EventBetweenCommits(s, step, i, slot, n);
    }
  }

  lemma {:induction false} EventAtCommit(s: State, s': State, pr: Range, right: Data, online: nat, i: nat, slot: nat,
                                         n: nat)
    requires Inv(s) && Valid(pr) && right == RightBoundData(pr) && CommitEffect(s, s', pr, right, online)
    requires EventAfter(s, i, slot, n)
    ensures EventAfter(s', i, slot, n + 1)
  {
    EffectKeepsInv(s, s', pr, right, online);
    if n >= 1 {
      CommitEndsEvent(s, s', pr, right, online, i);
    }
    EventMigrated(s.board, s.events, s'.board, s'.word, s'.events, i, slot, n);
  }

  lemma {:induction false} EventMigrated(b: Board, es: seq<Event>, b': Board, word: M.Word, es': seq<Event>, i: nat,
                                         slot: nat, n: nat)
    requires i < |es| && es[i].slot == slot < |b.slots| <= |b'.slots| && NoFuture(b')
             && es' == MigrateEvents(b', word, es)
    ensures i < |es'| && es'[i].slot == slot && b'.slots[slot].state != Future
  {
  }

  lemma {:induction false} EventBetweenCommits(s: State, step: Step, i: nat, slot: nat, n: nat)
    requires Allowed(s, step) && EventAfter(s, i, slot, n) && |Next(s, step).committed| <= |s.committed|
    requires SlotsMove(s.board, Next(s, step).board)
    ensures EventAfter(Next(s, step), i, slot, n)
  {
    assert Moves(s.board.slots[slot].state, Next(s, step).board.slots[slot].state);
    CommittedOnlyGrows(s, step);
  }

  /** No event stays pending across two commits, in any run. */
  lemma {:induction false} EventsEndByTheSecondCommit(ss: seq<State>, config: Config, i: nat, j: nat, k: nat)
    requires ValidConfig(config) && IsRunOf(ss, config) && i <= j < |ss| && k < |ss[i].events|
    ensures |ss[i].committed| <= |ss[j].committed| && k < |ss[j].events|
    ensures |ss[j].committed| >= |ss[i].committed| + 2 ==> !IsPending(ss[j].events[k])
  {
    RunKeepsInv(ss, config, i);
    EventAlongRun(ss, config, i, j, k);
  }

  lemma {:induction false} EventAlongRun(ss: seq<State>, config: Config, i: nat, j: nat, k: nat)
    requires ValidConfig(config) && IsRunOf(ss, config) && i <= j < |ss| && k < |ss[i].events|
    requires ss[i].events[k].slot < |ss[i].board.slots|
    ensures |ss[i].committed| <= |ss[j].committed|
    ensures EventAfter(ss[j], k, ss[i].events[k].slot, |ss[j].committed| - |ss[i].committed|)
    decreases j - i
  {
    if i < j {
      EventAlongRun(ss, config, i, j - 1, k);
      RunKeepsInv(ss, config, j - 1);
      RunStep(ss, config, j);
      assert StepTo(ss[j - 1], ss[j]);
      EventStepTo(ss[j - 1], ss[j], k, ss[i].events[k].slot, |ss[j - 1].committed| - |ss[i].committed|);
    }
  }

  lemma {:induction false} EventStepTo(s: State, s': State, i: nat, slot: nat, n: nat)
    requires Inv(s) && StepTo(s, s') && |s.committed| <= |s'.committed| && EventAfter(s, i, slot, n)
    ensures EventAfter(s', i, slot, n + |s'.committed| - |s.committed|)
  {
    var step :| Allowed(s, step) && s' == Next(s, step);
    EventStep(s, step, i, slot, n);
  }

  // ------------------------------------------------------------ a run that starts an event for a later pulse

  lemma {:induction false} StepBy(s: State, step: Step)
    requires Allowed(s, step)
    ensures StepTo(s, Next(s, step))
  {
  }

  /** A commit that is accepted, as a step. */
  lemma {:induction false} CommitStep(s: State, pr: Range, right: Data, online: nat) returns (s': State)
    requires Inv(s) && Valid(pr) && right == RightBoundData(pr) && IsPulsarData(right) && !ComesTooLate(s.word, right)
    requires s.committed != [] ==> Valid(LastRange(s)) && RangeIsValidNext(LastRange(s), pr)
    ensures StepTo(s, s') && Inv(s') && Commit(s, pr, online) == Done(s') && CommitEffect(s, s', pr, right, online)
  {
    CommitOutcome(s, pr, online);
    CommitKeepsInv(s, pr, online);
    CommitHasEffect(s, pr, online);
    StepBy(s, CommitRange(pr, online));
    s' := Commit(s, pr, online).state;
  }

  /** An input for a number within one expected step, as a step. */
  lemma {:induction false} DelayStep(s: State, pn: Number) returns (s': State, slot: nat)
    requires Inv(s) && s.committed != [] && IsTimePulse(pn)
    requires M.FutureOf(s.word) <= pn <= M.FutureOf(s.word) + (M.FutureOf(s.word) - M.PresentOf(s.word))
    ensures StepTo(s, s') && Inv(s') && s'.committed == s.committed && s'.word == s.word
    ensures s'.events == s.events + [Event(slot, pn, Waiting)]
    ensures slot < |s'.board.slots| && s'.board.slots[slot].state == Future
  {
    RoutingSafe(s, pn);
    AddInputKeepsInv(s, pn);
    StepBy(s, AddInput(pn));
    s', slot := Next(s, AddInput(pn)), MapToSlot(s, pn).slot;
  }

  /** An event is delayed for 100020 after 100000 has been committed, and started when 100015 becomes present. */
  lemma {:induction false} LaterEventStarts(config: Config, online: nat) returns (ss: seq<State>)
    requires ValidConfig(config)
    ensures IsRunOf(ss, config) && |ss| == 5 && |ss[2].events| == |ss[4].events| == 1
    ensures ss[2].events[0].pn == ss[4].events[0].pn == 100020 && ss[2].events[0].status == Waiting
    ensures M.PresentOf(ss[4].word) == 100015 && ss[4].events[0].status == Started
  {
    var first, pr := One(Data(100000, 100000, 10, 10, 0, 0)), Gap(100010, 10, Data(100015, 100015, 5, 5, 0, 0));
    var s1 := FirstStep(config, first, first.data, online);
    var s2, slot := DelayStep(s1, 100020);
    var s3 := ShorterStep(s2, first, pr, pr.end, online);
    var s4 := PollStep(s3, 0);
    ss := RunOfFive(config, s1, s2, s3, s4);
  }

  lemma {:induction false} FirstStep(config: Config, first: Range, right: Data, online: nat) returns (s: State)
    requires ValidConfig(config) && Valid(first) && right == RightBoundData(first)
    requires IsPulsarData(right) && NextNumber(right).Some?
    ensures StepTo(Initial(config), s) && Inv(s) && s.committed == [first] && s.events == []
    ensures M.PresentOf(s.word) == right.pn && M.FutureOf(s.word) == right.pn + right.next
  {
    InitialInv(config);
    s := CommitStep(Initial(config), first, right, online);
    WordAfter(Initial(config), s, first, right, online);
  }

  lemma {:induction false} PollStep(s: State, i: nat) returns (s': State)
    requires i < |s.events|
    ensures StepTo(s, s') && s'.word == s.word
    ensures s'.events == s.events[i := PollEvent(s.board, s.word, s.events[i])]
  {
    StepBy(s, PollAt(i));
    s' := Next(s, PollAt(i));
  }

  lemma {:induction false} RunOfFive(config: Config, s1: State, s2: State, s3: State, s4: State)
    returns (ss: seq<State>)
    requires StepTo(Initial(config), s1) && StepTo(s1, s2) && StepTo(s2, s3) && StepTo(s3, s4)
    ensures ss == [Initial(config), s1, s2, s3, s4] && IsRunOf(ss, config)
  {
    ss := [Initial(config), s1, s2, s3, s4];
    forall i, j | 0 <= i < j < |ss| && j == i + 1
      ensures StepTo(ss[i], ss[j])
    {
    }
  }

  lemma {:induction false} WordAfter(s: State, s': State, pr: Range, right: Data, online: nat)
    requires Valid(pr) && right == RightBoundData(pr) && CommitEffect(s, s', pr, right, online)
    ensures M.PresentOf(s'.word) == right.pn && M.FutureOf(s'.word) == right.pn + right.next
    ensures s'.committed == s.committed + [pr] && |s'.events| == |s.events|
  {
  }

  lemma {:induction false} ShorterStep(s: State, last: Range, pr: Range, right: Data, online: nat) returns (s': State)
    requires Inv(s) && s.committed == [last] && last == One(Data(100000, 100000, 10, 10, 0, 0)) && |s.events| == 1
    requires s.events[0].pn == 100020 && s.events[0].status == Waiting
    requires s.events[0].slot < |s.board.slots| && s.board.slots[s.events[0].slot].state == Future
    requires pr == Gap(100010, 10, right) && right == Data(100015, 100015, 5, 5, 0, 0)
    ensures StepTo(s, s') && M.PresentOf(s'.word) == 100015 && |s'.events| == 1 && s'.events[0].pn == 100020
    ensures PollEvent(s'.board, s'.word, s'.events[0]).status == Started
  {
    WordTellsRight(s);
    s' := CommitStep(s, pr, right, online);
    WordAfter(s, s', pr, right, online);
    CommitSettlesEvent(s, pr, online, 0);
    ShorterStepPasses(right);
    LaterEventStartsExactly(s, pr, online, 0);
  }

  lemma {:induction false} ShorterStepPasses(right: Data)
    requires right == Data(100015, 100015, 5, 5, 0, 0)
    ensures var pr := Gap(100010, 10, right); Valid(pr) && IsArticulated(pr)
    ensures var es := ProvidedNumbers(Gap(100010, 10, right)); Floor(es, |es|) == 100020
  {
    var es := ProvidedNumbers(Gap(100010, 10, right));
    assert es == [Entry(100015, 5, 5)] && Floor(es, 0) == 0;
  }

  // ------------------------------------------------------------ the key of the first commit

  lemma {:induction false} FirstCommitKey(s: State, step: Step)
    requires Inv(s) && Allowed(s, step) && s.committed == [] && Next(s, step).committed != []
    ensures FirstKey(Next(s, step).board) <==> s.word == 0
  {
    CommittedGrowsByCommit(s, step);
    var right := RightBoundData(step.pr);
    CommitHasEffect(s, step.pr, step.online);
    FirstCommitGivesBoard(s.board, M.GetPresentPulse(s.word).1, step.pr, right.pn, NextNumber(right).value);
  }

  lemma {:induction false} LaterCommitKey(s: State, pr: Range, online: nat)
    requires Inv(s) && s.committed != [] && Valid(pr) && Commit(s, pr, online).Done?
    ensures FirstKey(Commit(s, pr, online).state.board) == FirstKey(s.board)
  {
    var last, right := RightBoundData(LastRange(s)), RightBoundData(pr);
    CommitHasEffect(s, pr, online);
    BoundsOrdered(pr);
    CommitKeepsBoard(s.board, last.pn, NextNumber(last).value, LastRange(s), pr, right.pn, NextNumber(right).value);
  }

  lemma {:induction false} StepKeepsFirstKey(s: State, step: Step)
    requires Inv(s) && Allowed(s, step) && s.committed != []
    ensures FirstKey(Next(s, step).board) == FirstKey(s.board) && Next(s, step).committed != []
  {
    CommittedOnlyGrows(s, step);
    var present, future, r := M.PresentOf(s.word), M.FutureOf(s.word), LastRange(s);
    match step
    case AddInput(pn) => OpenKeepsBoard(s.board, present, future, r);
    case CommitRange(pr, online) => if Commit(s, pr, online).Done? { LaterCommitKey(s, pr, online); }
    case TerminateSlot(i) => TerminateKeepsBoard(s.board, present, future, r, i);
    case _ =>
  }

  /** In every run, the key 65536 is published from the first commit on, and for good, exactly when no future
      had been chosen before it. */
  lemma {:induction false} FirstKeyIsForGood(ss: seq<State>, config: Config, i: nat, j: nat)
    requires ValidConfig(config) && IsRunOf(ss, config) && i < j < |ss|
    requires ss[i].committed == [] && ss[i + 1].committed != []
    ensures ss[j].committed != [] && (FirstKey(ss[j].board) <==> ss[i].word == 0)
    decreases j
  {
    if j > i + 1 {
      FirstKeyIsForGood(ss, config, i, j - 1);
    }
    FirstKeyAlong(ss, config, j);
  }

  lemma {:induction false} FirstKeyAlong(ss: seq<State>, config: Config, k: nat)
    requires ValidConfig(config) && IsRunOf(ss, config) && 0 < k < |ss|
    ensures ss[k - 1].committed != [] ==> ss[k].committed != [] && FirstKey(ss[k].board) == FirstKey(ss[k - 1].board)
    ensures ss[k - 1].committed == [] && ss[k].committed != [] ==> (FirstKey(ss[k].board) <==> ss[k - 1].word == 0)
  {
    RunKeepsInv(ss, config, k - 1);
    assert StepTo(ss[k - 1], ss[k]);
    FirstKeyAfter(ss[k - 1], ss[k]);
  }

  lemma {:induction false} FirstKeyAfter(s: State, s': State)
    requires Inv(s) && StepTo(s, s')
    ensures s.committed != [] ==> s'.committed != [] && FirstKey(s'.board) == FirstKey(s.board)
    ensures s.committed == [] && s'.committed != [] ==> (FirstKey(s'.board) <==> s.word == 0)
  {
    var step :| Allowed(s, step) && s' == Next(s, step);
    if s.committed != [] {
      StepKeepsFirstKey(s, step);
    } else if s'.committed != [] {
      FirstCommitKey(s, step);
    }
  }

  // ------------------------------------------------------------ the alias kept until the next commit

  /** While an alias is kept it leads to the present slot, is taken for a past number, and an input for it is
      admitted exactly when its data are cached. */
  lemma {:induction false} KeptAliasRoutes(s: State, f: Number)
    requires Inv(s) && s.committed != [] && f == s.board.unpublish && IsTimePulse(f)
    ensures s.board.present.Some?
    ensures MapToSlot(s, f) == To(s.board, s.word, s.board.present.value, f, Past)
    ensures Admit(s, f) == if f in s.cache.entries then Admitted else UnknownData
  {
    var right := RightBoundData(LastRange(s));
    AliasAdmission(s, f, right.pn, NextNumber(right).value);
  }

  /** What a step does to the alias to be unpublished: a commit names the number expected before it, and drops
      the one named before; no other step changes it. */
  lemma {:induction false} AliasAfter(s: State, s': State)
    requires Inv(s) && StepTo(s, s')
    ensures |s'.committed| <= |s.committed| ==> s'.board.unpublish == s.board.unpublish && s'.committed == s.committed
    ensures |s'.committed| > |s.committed| ==>
              && (M.GetPresentPulse(s.word).1 != M.PresentOf(s'.word) ==>
                    s'.board.unpublish == M.GetPresentPulse(s.word).1)
              && (s.committed != [] && IsTimePulse(s.board.unpublish) ==> s.board.unpublish !in s'.board.published)
  {
    var step :| Allowed(s, step) && s' == Next(s, step);
    if |s'.committed| > |s.committed| {
      CommittedGrowsByCommit(s, step);
      CommitHasEffect(s, step.pr, step.online);
      AliasAtCommit(s, s', step.pr, RightBoundData(step.pr), step.online);
    } else {
      AliasBetweenCommits(s, step);
    }
  }

  lemma {:induction false} AliasAtCommit(s: State, s': State, pr: Range, right: Data, online: nat)
    requires Inv(s) && Valid(pr) && right == RightBoundData(pr) && CommitEffect(s, s', pr, right, online)
    ensures M.GetPresentPulse(s.word).1 != M.PresentOf(s'.word) ==> s'.board.unpublish == M.GetPresentPulse(s.word).1
    ensures s.committed != [] && IsTimePulse(s.board.unpublish) ==> s.board.unpublish !in s'.board.published
  {
    var f := M.GetPresentPulse(s.word).1;
    CommitKeepsAlias(s.board, f, pr, right.pn, s'.board);
    if s.committed != [] && IsTimePulse(s.board.unpublish) {
      LeftBoundFollows(s, pr, LeftBoundNumber(pr));
      BoundsOrdered(pr);
      CommitDropsAlias(s.board, f, pr, right.pn, s'.board);
    }
  }

  lemma {:induction false} AliasBetweenCommits(s: State, step: Step)
    requires Allowed(s, step) && |Next(s, step).committed| <= |s.committed|
    ensures Next(s, step).board.unpublish == s.board.unpublish && Next(s, step).committed == s.committed
  {
    CommittedOnlyGrows(s, step);
  }

  /** From a commit to a pulse later than the expected one until the next commit, in every run, the number f that
      was expected routes to the present slot as a past one and is admitted exactly when it is cached. */
  lemma {:induction false} FormerFutureRoutes(ss: seq<State>, config: Config, i: nat, j: nat, f: Number)
    requires ValidConfig(config) && IsRunOf(ss, config) && i < j < |ss|
    requires |ss[i].committed| < |ss[i + 1].committed| == |ss[j].committed|
    requires f == M.GetPresentPulse(ss[i].word).1 && IsTimePulse(f) && f < M.PresentOf(ss[i + 1].word)
    ensures ss[j].board.unpublish == f && ss[j].board.present.Some?
    ensures MapToSlot(ss[j], f) == To(ss[j].board, ss[j].word, ss[j].board.present.value, f, Past)
    ensures Admit(ss[j], f) == if f in ss[j].cache.entries then Admitted else UnknownData
  {
    FormerFutureKept(ss, config, i, j, f);
    RunKeepsInv(ss, config, j);
    KeptAliasRoutes(ss[j], f);
  }

  lemma {:induction false} FormerFutureKept(ss: seq<State>, config: Config, i: nat, j: nat, f: Number)
    requires ValidConfig(config) && IsRunOf(ss, config) && i < j < |ss|
    requires |ss[i].committed| < |ss[i + 1].committed| == |ss[j].committed|
    requires f == M.GetPresentPulse(ss[i].word).1 && f < M.PresentOf(ss[i + 1].word)
    ensures ss[j].board.unpublish == f
    decreases j
  {
    AliasAlong(ss, config, j);
    if j > i + 1 {
      CommittedAlong(ss, config, i + 1, j - 1);
      RunStep(ss, config, j);
      FormerFutureKept(ss, config, i, j - 1, f);
    }
  }

  lemma {:induction false} CommittedAlong(ss: seq<State>, config: Config, i: nat, j: nat)
    requires ValidConfig(config) && IsRunOf(ss, config) && i <= j < |ss|
    ensures |ss[i].committed| <= |ss[j].committed|
  {
    RunIsMonotone(ss, config, i, j, 0);
  }

  lemma {:induction false} AliasAlong(ss: seq<State>, config: Config, k: nat)
    requires ValidConfig(config) && IsRunOf(ss, config) && 0 < k < |ss|
    ensures |ss[k].committed| <= |ss[k - 1].committed| ==> ss[k].board.unpublish == ss[k - 1].board.unpublish
    ensures |ss[k].committed| > |ss[k - 1].committed| ==>
              && (M.GetPresentPulse(ss[k - 1].word).1 != M.PresentOf(ss[k].word) ==>
                    ss[k].board.unpublish == M.GetPresentPulse(ss[k - 1].word).1)
              && (ss[k - 1].committed != [] && IsTimePulse(ss[k - 1].board.unpublish) ==>
                    ss[k - 1].board.unpublish !in ss[k].board.published)
  {
    RunKeepsInv(ss, config, k - 1);
    assert StepTo(ss[k - 1], ss[k]);
    AliasAfter(ss[k - 1], ss[k]);
  }

  /** The next commit unpublishes it. */
  lemma {:induction false} FormerFutureEnds(ss: seq<State>, config: Config, i: nat, j: nat, f: Number)
    requires ValidConfig(config) && IsRunOf(ss, config) && i < j < |ss| - 1
    requires |ss[i].committed| < |ss[i + 1].committed| == |ss[j].committed| < |ss[j + 1].committed|
    requires f == M.GetPresentPulse(ss[i].word).1 && IsTimePulse(f) && f < M.PresentOf(ss[i + 1].word)
    ensures f !in ss[j + 1].board.published
  {
    FormerFutureKept(ss, config, i, j, f);
    AliasAlong(ss, config, j + 1);
  }

  // ------------------------------------------------------------ the earliest bound of the cache

  /** In every run after the first commit, the earliest bound is the right bound of that commit exactly when no
      future had been chosen before it, and is never set otherwise. */
  lemma {:induction false} EarliestAlongRun(ss: seq<State>, config: Config, i: nat, j: nat)
    requires ValidConfig(config) && IsRunOf(ss, config) && i < j < |ss|
    requires ss[i].committed == [] && ss[i + 1].committed != []
    ensures ss[j].committed != []
    ensures ss[j].earliest == if ss[i].word == 0 then M.PresentOf(ss[i + 1].word) else 0
    ensures IsTimePulse(M.PresentOf(ss[i + 1].word))
    decreases j
  {
    EarliestAlong(ss, config, j);
    if j > i + 1 {
      EarliestAlongRun(ss, config, i, j - 1);
    }
  }

  lemma {:induction false} EarliestAlong(ss: seq<State>, config: Config, k: nat)
    requires ValidConfig(config) && IsRunOf(ss, config) && 0 < k < |ss|
    ensures ss[k - 1].committed != [] ==> ss[k].committed != [] && ss[k].earliest == ss[k - 1].earliest
    ensures ss[k - 1].committed == [] && ss[k].committed != [] ==>
              && IsTimePulse(M.PresentOf(ss[k].word))
              && ss[k].earliest == if ss[k - 1].word == 0 then M.PresentOf(ss[k].word) else 0
  {
    RunKeepsInv(ss, config, k - 1);
    assert StepTo(ss[k - 1], ss[k]);
    EarliestAfter(ss[k - 1], ss[k]);
  }

  lemma {:induction false} EarliestAfter(s: State, s': State)
    requires Inv(s) && StepTo(s, s')
    ensures s.committed != [] ==> s'.committed != [] && s'.earliest == s.earliest
    ensures s.committed == [] && s'.committed != [] ==>
              && IsTimePulse(M.PresentOf(s'.word))
              && s'.earliest == if s.word == 0 then M.PresentOf(s'.word) else 0
  {
    var step :| Allowed(s, step) && s' == Next(s, step);
    CommittedOnlyGrows(s, step);
    if |s'.committed| > |s.committed| {
      CommittedGrowsByCommit(s, step);
      CommitHasEffect(s, step.pr, step.online);
      EarliestAtCommit(s, s', step.pr, RightBoundData(step.pr), step.online);
    } else {
      EarliestBetweenCommits(s, step);
    }
  }

  lemma {:induction false} EarliestAtCommit(s: State, s': State, pr: Range, right: Data, online: nat)
    requires Inv(s) && Valid(pr) && right == RightBoundData(pr) && CommitEffect(s, s', pr, right, online)
    ensures IsTimePulse(M.PresentOf(s'.word))
    ensures s'.earliest == if s.committed == [] && s.word == 0 then M.PresentOf(s'.word) else s.earliest
    ensures s.committed == [] ==> s.earliest == 0
  {
    WordTellsStart(s);
  }

  lemma {:induction false} WordTellsStart(s: State)
    requires Inv(s)
    ensures if s.committed == [] then s.earliest == 0 else s.word != 0
  {
  }

  lemma {:induction false} EarliestBetweenCommits(s: State, step: Step)
    requires Allowed(s, step) && |Next(s, step).committed| <= |s.committed|
    ensures Next(s, step).earliest == s.earliest && |Next(s, step).committed| == |s.committed|
  {
    CommittedOnlyGrows(s, step);
  }

  /** So an input for a number before the first commit that is within the retention interval, routed to the
      antique slot and not cached, is loaded if no future had been chosen, and refused if one had. */
  lemma {:induction false} InputBeforeStart(ss: seq<State>, config: Config, i: nat, j: nat, pn: Number)
    requires ValidConfig(config) && IsRunOf(ss, config) && i < j < |ss|
    requires ss[i].committed == [] && ss[i + 1].committed != []
    requires MapToSlot(ss[j], pn).To? && MapToSlot(ss[j], pn).state == Antique && pn !in ss[j].cache.entries
    requires pn < M.PresentOf(ss[i + 1].word) && M.PresentOf(ss[j].word) <= pn + config.minCachePulseAge
    ensures Admit(ss[j], pn) == if ss[i].word == 0 then Admitted else UnknownData
  {
    EarliestAlongRun(ss, config, i, j);
    RunKeepsInv(ss, config, j);
    RunKeepsConfig(ss, config, j);
    AntiqueBeforeStart(ss[j], pn);
  }

  lemma {:induction false} AntiqueBeforeStart(s: State, pn: Number)
    requires Inv(s) && s.committed != [] && MapToSlot(s, pn).To? && MapToSlot(s, pn).state == Antique
    requires pn !in s.cache.entries && M.PresentOf(s.word) <= pn + s.config.minCachePulseAge
    ensures Admit(s, pn) == if pn < s.earliest then Admitted else UnknownData
  {
    AdmittedExactly(s, pn);
    RoutingSafe(s, pn);
    WordTellsRight(s);
  }

  /** Such an input, when a future had been chosen. */
  lemma {:induction false} RefusedBeforeStart(config: Config, online: nat)
    requires ValidConfig(config) && config.minCachePulseAge >= 1000
    ensures var s, pr := Next(Initial(config), AddInput(200000)), One(Data(200000, 200000, 10, 10, 0, 0));
            Valid(pr) && Commit(s, pr, online).Done? && Admit(Commit(s, pr, online).state, 199000) == UnknownData
  {
    var s, pr := Next(Initial(config), AddInput(200000)), One(Data(200000, 200000, 10, 10, 0, 0));
    InitialInv(config);
    FirstInput(Initial(config), 200000);
    CommitOutcome(s, pr, online);
    CommitHasEffect(s, pr, online);
    CommitKeepsInv(s, pr, online);
    ChosenIsRefused(s, Commit(s, pr, online).state, pr, RightBoundData(pr), online);
  }

  lemma {:induction false} ChosenIsRefused(s: State, s': State, pr: Range, right: Data, online: nat)
    requires Inv(s) && OnlyFuture(s.board, 200000) && s.word == M.Pack(0, 200000) && s.committed == []
    requires pr == One(right) && right == Data(200000, 200000, 10, 10, 0, 0) && s.config.minCachePulseAge >= 1000
    requires Valid(pr) && CommitEffect(s, s', pr, right, online) && Inv(s')
    ensures Admit(s', 199000) == UnknownData
  {
    ChosenStaysAlone(s.board, pr, s'.board);
    EarliestAtCommit(s, s', pr, right, online);
    NotCachedAtStart(s, s', pr, right, online);
    ConfigAgrees(s');
    WordTellsRight(s');
    OnlyPresentRoutes(s', pr, right, 199000);
    AntiqueBeforeStart(s', 199000);
  }

  lemma {:induction false} ChosenStaysAlone(b: Board, pr: Range, b': Board)
    requires OnlyFuture(b, 200000) && CommitBoard(b, 200000, pr, 200000) == Some(b')
    ensures 199000 !in b'.published
  {
  }

  lemma {:induction false} NotCachedAtStart(s: State, s': State, pr: Range, right: Data, online: nat)
    requires CacheKept(s) && Unstarted(s) && Valid(pr) && pr == One(right) && right.pn != 199000
    requires CommitEffect(s, s', pr, right, online)
    ensures 199000 !in s'.cache.entries
  {
    FormerFutureIsCached(s.cache, pr, right, online, 199000);
  }

  lemma {:induction false} ConfigAgrees(s: State)
    requires Inv(s)
    ensures s.config.minCachePulseAge <= s.config.maxPastPulseAge
  {
  }

  /** A number before a single present pulse, and not published, goes to the antique slot. */
  lemma {:induction false} OnlyPresentRoutes(s: State, pr: Range, right: Data, pn: Number)
    requires Inv(s) && s.committed != [] && LastRange(s) == pr == One(right) && IsTimePulse(pn) && pn < right.pn
    requires pn !in s.board.published && right.pn <= pn + s.config.maxPastPulseAge
    ensures MapToSlot(s, pn).To? && MapToSlot(s, pn).state == Antique
  {
    WordTellsRight(s);
    OnePresentSlot(s);
  }

  // ------------------------------------------------------------ commits that are broken off

  /** A reachable state and a first right bound below the future chosen in it. */
  lemma {:induction false} BrokenBelowFuture(config: Config, online: nat)
    requires ValidConfig(config)
    ensures var s, pr := Next(Initial(config), AddInput(200000)), One(Data(100000, 100000, 10, 10, 0, 0));
            Valid(pr) && Commit(s, pr, online).Broken?
  {
    InitialInv(config);
    FirstInput(Initial(config), 200000);
    CommitOutcome(Next(Initial(config), AddInput(200000)), One(Data(100000, 100000, 10, 10, 0, 0)), online);
  }

  /** A right bound with no next number, on a new conveyor. */
  lemma {:induction false} BrokenWithoutNext(config: Config, online: nat)
    requires ValidConfig(config)
    ensures var pr := One(Data(MAX_TIME_PULSE, MAX_TIME_PULSE, 10, 10, 0, 0));
            Valid(pr) && Commit(Initial(config), pr, online).Broken?
  {
    InitialInv(config);
    CommitOutcome(Initial(config), One(Data(MAX_TIME_PULSE, MAX_TIME_PULSE, 10, 10, 0, 0)), online);
  }

  /** The promises of the protocol, for every state after a commit in every run and every pulse number pn. */
  lemma {:induction false} EveryReachableState(ss: seq<State>, config: Config, k: nat, pn: Number)
    requires ValidConfig(config) && IsRunOf(ss, config) && k < |ss| && ss[k].committed != []
    ensures var s := ss[k];
            var present := M.PresentOf(s.word);
            && IsRun(s.committed) && Linked(AllNumbers(s.committed))
            && s.board.present.Some?
            && present in s.board.published && s.board.published[present] == s.board.present.value
            && (forall i :: 0 <= i < |s.board.slots| ==>
                  (s.board.slots[i].state == Present <==> i == s.board.present.value))
            && RoutedWell(s, pn, MapToSlot(s, pn), present, M.FutureOf(s.word))
            && (pn in s.ever && M.IsRecentPastRange(present, pn, config.minCachePulseAge, s.earliest) ==>
                  pn in s.cache.entries)
  {
    RunKeepsInv(ss, config, k);
    RunKeepsConfig(ss, config, k);
    CommittedIsOneChain(ss[k]);
    OnePresentSlot(ss[k]);
    RoutingSafe(ss[k], pn);
    if pn in ss[k].ever && M.IsRecentPastRange(M.PresentOf(ss[k].word), pn, config.minCachePulseAge, ss[k].earliest) {
      RecentPastIsCached(ss[k], pn);
    }
  }

  lemma {:induction false} RunKeepsConfig(ss: seq<State>, config: Config, k: nat)
    requires IsRunOf(ss, config) && k < |ss|
    ensures ss[k].config == config
  {
    if k > 0 {
      RunKeepsConfig(ss, config, k - 1);
      assert StepTo(ss[k - 1], ss[k]);
    }
  }
}
