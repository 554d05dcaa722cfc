/** Exactly where the conveyor routes every number, and what becomes of the input. */
module ConveyorRouting {
  import opened PulseNumber
  import opened PulseData
  import opened PulseRange
  import opened PulseSlot
  import opened SlotBoard
  import opened Conveyor
  import opened ConveyorSafety
  import opened ConveyorRuns

  // ------------------------------------------------------------ routes

  /** After a commit, every earlier time pulse: past exactly when it is published; else antique exactly when it
      is not too old and lies before the present range or is accepted by it; else refused. */
  lemma {:induction false} RoutedBackExactly(s: State, pn: Number)
    requires Inv(s) && s.committed != [] && IsTimePulse(pn) && pn < M.PresentOf(s.word)
    ensures var r, range := MapToSlot(s, pn), LastRange(s);
            if pn in s.board.published then r == To(s.board, s.word, s.board.published[pn], pn, Past)
            else if M.PresentOf(s.word) <= pn + s.config.maxPastPulseAge
                    && (pn < LeftBoundNumber(range) || Accepts(range, pn)) then
              r == To(OpenAntique(s.board), s.word, OpenAntique(s.board).published[0], pn, Antique)
            else r == Refused
  {
    WordTellsRight(s);
    OnePresentSlot(s);
    ConfigIsValid(s);
    PastSpan(M.PresentOf(s.word), pn, s.config.maxPastPulseAge);
    if LeftBoundNumber(LastRange(s)) <= pn {
      AcceptedIsPresent(LastRange(s), M.PresentOf(s.word), pn);
    }
  }

  lemma {:induction false} ConfigIsValid(s: State)
    requires Inv(s)
    ensures ValidConfig(s.config)
  {
  }

  /** Within the time pulses the span does not wrap around. */
  lemma {:induction false} PastSpan(present: Number, pn: Number, age: Number)
    requires IsTimePulse(present) && IsTimePulse(pn) && age <= MAX_TIME_PULSE
    ensures M.IsAllowedPastSpan(present, pn, age) <==> pn < present <= pn + age
  {
  }

  lemma {:induction false} AcceptedIsPresent(range: Range, present: Number, pn: Number)
    requires Valid(range) && present == RightBoundData(range).pn && LeftBoundNumber(range) <= pn
    ensures IsAcceptedPresent(Present, range, present, pn) == (Present, Accepts(range, pn))
  {
  }

  /** After a commit, every other number: the present slot, the future slot, or nothing. */
  lemma {:induction false} RoutedElseExactly(s: State, pn: Number)
    requires Inv(s) && s.committed != [] && !(IsTimePulse(pn) && pn < M.PresentOf(s.word))
    ensures var r, present, future := MapToSlot(s, pn), M.PresentOf(s.word), M.FutureOf(s.word);
            if pn == UNKNOWN || pn == present then
              s.board.present.Some? && r == To(s.board, s.word, s.board.present.value, present, Present)
            else if IsTimePulse(pn) && future <= pn <= future + (future - present) then
              var b := OpenFuture(s.board, present, future);
              r == To(b, s.word, b.published[future], pn, Future)
            else r == Refused
  {
    WordTellsRight(s);
    OnePresentSlot(s);
    var present, future := M.PresentOf(s.word), M.FutureOf(s.word);
    WordIsPacked(s);
    if pn >= future {
      AheadGives(s, pn, present, future);
    }
  }

  lemma {:induction false} WordIsPacked(s: State)
    requires Inv(s) && s.committed != []
    ensures s.word == M.Pack(M.PresentOf(s.word), M.FutureOf(s.word))
    ensures IsTimePulse(M.PresentOf(s.word)) && M.PresentOf(s.word) < M.FutureOf(s.word) <= MAX_TIME_PULSE
  {
  }

  /** Before the first commit: a time pulse for itself, choosing the future if there is none; the unknown number
      for the future chosen; nothing else. */
  lemma {:induction false} RoutedFirstExactly(s: State, pn: Number)
    requires Inv(s) && s.committed == []
    ensures var r := MapToSlot(s, pn);
            if IsTimePulse(pn) then
              r.To? && r.slot == 0 && r.target == pn && r.state == Future
              && r.word == (if s.word == 0 then M.Pack(0, pn) else s.word)
            else if pn == UNKNOWN && s.word != 0 then
              r.To? && r.slot == 0 && r.target == M.FutureOf(s.word) && r.state == Future && r.word == s.word
            else r == Refused
  {
    FirstInput(s, pn);
  }

  // ------------------------------------------------------------ what an input finds and leaves

  /** A recent number: within the retention interval, and not before the earliest bound. */
  lemma {:induction false} RecentExactly(s: State, pn: Number)
    requires Inv(s) && s.committed != [] && IsTimePulse(pn) && pn < M.PresentOf(s.word)
    ensures IsRecent(s.word, pn, s.config, s.earliest) <==>
            M.PresentOf(s.word) <= pn + s.config.minCachePulseAge && s.earliest <= pn
  {
    WordIsPacked(s);
    ConfigIsValid(s);
  }

  /** An antique input is refused exactly when its data are not cached though it is recent. */
  lemma {:induction false} AntiqueAdmittedExactly(s: State, pn: Number)
    requires Inv(s) && s.committed != [] && MapToSlot(s, pn).To? && MapToSlot(s, pn).state == Antique
    ensures Admit(s, pn) == if pn !in s.cache.entries && s.earliest <= pn
                               && M.PresentOf(s.word) <= pn + s.config.minCachePulseAge
                            then UnknownData else Admitted
  {
    AdmittedExactly(s, pn);
    RoutedIsBack(s, pn);
    RecentExactly(s, pn);
  }

  lemma {:induction false} RoutedIsBack(s: State, pn: Number)
    requires Inv(s) && s.committed != [] && MapToSlot(s, pn).To? && MapToSlot(s, pn).state == Antique
    ensures IsTimePulse(pn) && pn < M.PresentOf(s.word)
  {
    if !(IsTimePulse(pn) && pn < M.PresentOf(s.word)) {
      RoutedElseExactly(s, pn);
    }
  }

  /** An input that finds the data of its pulse keeps them through the next commit. */
  lemma {:induction false} InputKeepsData(s: State, pn: Number, pr: Range, online: nat)
    requires Inv(s) && s.committed != [] && MapToSlot(s, pn).To? && MapToSlot(s, pn).state != Future
    requires MapToSlot(s, pn).target in s.cache.entries
    requires Valid(pr) && Commit(Next(s, AddInput(pn)), pr, online).Done?
    ensures var target, s1 := MapToSlot(s, pn).target, Next(s, AddInput(pn));
            var s2 := Commit(s1, pr, online).state;
            && C.TouchedNow(s1.cache, target) && target in s2.cache.entries
            && s2.cache.entries[target].beat.range == s.cache.entries[target].beat.range
  {
    var target, s1 := MapToSlot(s, pn).target, Next(s, AddInput(pn));
    AddInputKeepsInv(s, pn);
    CommitHasEffect(s1, pr, online);
    TouchedPassesCommit(s1, Commit(s1, pr, online).state, pr, RightBoundData(pr), online, target);
  }

  /** And so does a read. */
  lemma {:induction false} ReadKeepsData(s: State, pn: Number, pr: Range, online: nat)
    requires Inv(s) && pn in s.cache.entries && Valid(pr) && Commit(Next(s, ReadData(pn)), pr, online).Done?
    ensures var s1 := Next(s, ReadData(pn));
            var s2 := Commit(s1, pr, online).state;
            && C.TouchedNow(s1.cache, pn) && pn in s2.cache.entries
            && s2.cache.entries[pn].beat.range == s.cache.entries[pn].beat.range
  {
    var s1 := Next(s, ReadData(pn));
    StepKeepsInv(s, ReadData(pn));
    CommitHasEffect(s1, pr, online);
    TouchedPassesCommit(s1, Commit(s1, pr, online).state, pr, RightBoundData(pr), online, pn);
  }

  /** What a commit evicts: of the other numbers, exactly those that are older than the retention interval and were
      not touched since the commit before the previous one. */
  lemma {:induction false} EvictedExactly(s: State, pr: Range, online: nat, k: Number)
    requires Inv(s) && Valid(pr) && Commit(s, pr, online).Done? && k in s.cache.entries && k !in C.Keys(pr)
    ensures k in Commit(s, pr, online).state.cache.entries <==>
            || RightBoundData(pr).pn <= k + s.config.minCachePulseAge
            || (k in s.cache.last && s.cache.gen - s.cache.last[k] < 2)
  {
    CommitHasEffect(s, pr, online);
    CacheIsConfigured(s);
    C.PutConsistent(s.cache, C.BeatData(pr, online));
    C.PutStoresExactly(s.cache, C.BeatData(pr, online), k);
    KeptExactly(C.PutOf(s.cache, C.BeatData(pr, online)), RightBoundData(pr).pn, k);
  }

  lemma {:induction false} CacheIsConfigured(s: State)
    requires Inv(s)
    ensures C.Consistent(s.cache) && ValidConfig(s.config)
    ensures s.cache.minRange == s.config.minCachePulseAge && s.cache.rotations == 2
  {
  }

  lemma {:induction false} KeptExactly(c: C.Cache, current: Number, k: Number)
    requires C.Consistent(c) && 0 < c.minRange <= MAX_TIME_PULSE && IsTimePulse(current) && k in c.entries
    ensures k in C.EvictAndRotateOf(c, current).entries <==>
            current <= k + c.minRange || (k in c.last && c.gen - c.last[k] < c.rotations)
  {
    C.EvictionBound(c, current);
    assert C.ValidUnder(c.entries[k], k, c.allocs);
    KeyIsTimePulse(c.entries[k].beat.range, k);
  }

  lemma {:induction false} KeyIsTimePulse(r: Range, k: Number)
    requires Valid(r) && k in C.Keys(r)
    ensures IsTimePulse(k)
  {
    ProvidedApart(r);
    var ds := ProvidedData(r);
    var i :| 0 <= i < |ds| && ds[i].pn == k;
    assert ProvidedNumbers(r)[i] in ProvidedNumbers(r);
  }

  lemma {:induction false} TouchedPassesCommit(s: State, s': State, pr: Range, right: Data, online: nat, k: Number)
    requires Inv(s) && Valid(pr) && right == RightBoundData(pr) && CommitEffect(s, s', pr, right, online)
    requires k in s.cache.entries && C.TouchedNow(s.cache, k)
    ensures k in s'.cache.entries && s'.cache.entries[k].beat.range == s.cache.entries[k].beat.range
  {
    CacheAfterCommit(s.cache, C.BeatData(pr, online), right.pn);
  }

  /** Loaded data are cached, under every number the range provides. */
  lemma {:induction false} LoadedIsCached(s: State, bd: C.BeatData, pn: Number)
    requires Inv(s) && Allowed(s, LoadData(bd)) && IsPulsarData(RightBoundData(bd.range)) && pn in C.Keys(bd.range)
    requires forall k :: k in C.Keys(bd.range) && k in s.cache.entries ==> s.cache.entries[k].beat.range == bd.range
    ensures var s' := Next(s, LoadData(bd));
            pn in s'.cache.entries && s'.cache.entries[pn].beat.range == bd.range && C.TouchedNow(s'.cache, pn)
  {
    C.PutKeepsOthersApart(s.cache, bd);
  }

  // ------------------------------------------------------------ flags

  /** The preparing flag is set by a prepare and cleared by a commit or by a cancel after the first commit; no
      other step touches it. */
  lemma {:induction false} PreparingExactly(s: State, step: Step)
    requires Inv(s) && Allowed(s, step)
    ensures var s' := Next(s, step);
            if step.Prepare? then s'.preparing
            else if |s'.committed| > |s.committed| || (step.Cancel? && s.committed != []) then !s'.preparing
            else s'.preparing == s.preparing
  {
    if |Next(s, step).committed| > |s.committed| {
      CommittedGrowsByCommit(s, step);
      CommitHasEffect(s, step.pr, step.online);
    } else {
      PreparingElse(s, step);
    }
  }

  lemma {:induction false} PreparingElse(s: State, step: Step)
    requires Inv(s) && Allowed(s, step) && |Next(s, step).committed| <= |s.committed|
    ensures var s' := Next(s, step);
            s'.preparing == if step.Prepare? then true
                            else if step.Cancel? && s.committed != [] then false else s.preparing
  {
    CommittedOnlyGrows(s, step);
    if s.committed != [] {
      OnePresentSlot(s);
    }
    if step.CommitRange? && Commit(s, step.pr, step.online).Done? {
      CommitHasEffect(s, step.pr, step.online);
    }
  }

  /** A broken commit leaves slots, aliases and cache as after a commit, but the word as before: the slot of the
      range is present, while inputs are still routed by the former present and future. */
  lemma {:induction false} BrokenLeavesSplit(s: State, pr: Range, online: nat)
    requires Inv(s) && Valid(pr) && Commit(s, pr, online).Broken?
    ensures var left, right := Commit(s, pr, online).left, RightBoundData(pr);
            && left.word == s.word && left.earliest == s.earliest && left.committed == s.committed
            && left.events == s.events && !left.preparing
            && left.board.present.Some? && left.board.present.value < |left.board.slots|
            && left.board.slots[left.board.present.value].state == Present
            && left.board.slots[left.board.present.value].range == Some(pr)
            && right.pn in left.board.published && left.board.published[right.pn] == left.board.present.value
            && right.pn in left.cache.entries && left.cache.entries[right.pn].beat.range == pr
            && left.cache.gen == s.cache.gen
  {
    var left, right := Commit(s, pr, online).left, RightBoundData(pr);
    CommitOutcome(s, pr, online);
    PutHoldsRight(s.cache, C.BeatData(pr, online));
    CommitPublishes(s.board, M.GetPresentPulse(s.word).1, pr, right.pn, left.board);
  }
}
