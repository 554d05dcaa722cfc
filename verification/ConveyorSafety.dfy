/** What every run of the conveyor keeps. */
module ConveyorSafety {
  import opened PulseNumber
  import opened PulseData
  import opened PulseRange
  import opened PulseSlot
  import opened SlotBoard
  import opened Conveyor

  function LastRange(s: State): Range
    requires s.committed != []
  {
    s.committed[|s.committed| - 1]
  }

  datatype Previous = NoPrevious | Previous(pn: Number, range: Range)

  /** The committed range before the last one, with its right bound. */
  ghost function PreviousOf(committed: seq<Range>): Previous
    requires IsRun(committed)
  {
    if |committed| < 2 then NoPrevious
    else
      var q := committed[|committed| - 2];
      assert Valid(committed[|committed| - 2]);
      Previous(RightBoundData(q).pn, q)
  }

  /** The cache holds the present range r, touched now, and the one before it; nothing of it is later than
      the present; and whatever was ever cached is still there or older than the cache keeps. */
  ghost predicate CacheInv(c: C.Cache, present: Number, r: Range, prev: Previous, ever: set<Number>) {
    && C.HeldSince(c, present, r, c.gen)
    && (prev.Previous? ==> prev.pn in c.entries && c.entries[prev.pn].beat.range == prev.range)
    && (forall k :: k in c.entries ==> k <= present)
    && (forall k :: k in ever ==> k in c.entries || k + c.minRange < present)
  }

  ghost predicate Fresh(s: State) {
    s.word == 0 && s.board == EMPTY_BOARD && s.events == []
  }

  ghost predicate FutureChosen(s: State) {
    s.word != 0 && M.PresentOf(s.word) == UNKNOWN && OnlyFuture(s.board, M.FutureOf(s.word))
  }

  ghost predicate Running(s: State) {
    && s.committed != [] && IsRun(s.committed) && Valid(LastRange(s))
    && RunningWith(s, LastRange(s), RightBoundData(LastRange(s)), PreviousOf(s.committed))
  }

  ghost predicate RunningWith(s: State, r: Range, right: Data, prev: Previous) {
    && IsPulsarData(right) && NextNumber(right).Some?
    && s.word == M.Pack(right.pn, NextNumber(right).value)
    && BoardInv(s.board, right.pn, NextNumber(right).value, r)
    && CacheInv(s.cache, right.pn, r, prev, s.ever)
  }

  ghost predicate CacheKept(s: State) {
    && ValidConfig(s.config) && s.cache.minRange == s.config.minCachePulseAge
    && s.cache.rotations == CACHE_ROTATIONS && C.Consistent(s.cache)
  }

  ghost predicate EventsKept(s: State) {
    forall i :: 0 <= i < |s.events| ==> s.events[i].slot < |s.board.slots| && s.events[i].status != Impossible
  }

  ghost predicate Unstarted(s: State) {
    s.committed == [] && (Fresh(s) || FutureChosen(s)) && s.cache.entries == map[] && s.ever == {} && s.earliest == 0
  }

  /** The invariant of every reachable state. */
  ghost predicate Inv(s: State) { CacheKept(s) && EventsKept(s) && (Unstarted(s) || Running(s)) }

  // ------------------------------------------------------------ the cache side of a commit

  lemma {:induction false} KeysBounds(r: Range)
    requires Valid(r)
    ensures forall k :: k in C.Keys(r) ==> LeftBoundNumber(r) <= k <= RightBoundData(r).pn
  {
    forall d | d in ProvidedData(r)
      ensures LeftBoundNumber(r) <= d.pn <= RightBoundData(r).pn
    {
      LastProvidedIsRight(r);
      ProvidedApart(r);
      var ds := ProvidedData(r);
      var i :| 0 <= i < |ds| && ds[i] == d;
      assert ProvidedNumbers(r)[i].n == d.pn;
      if r.Sequence? || r.Sparse? {
        assert r.ds[0].pn <= ds[0].pn;
        assert ProvidedNumbers(r)[0].n == ds[0].pn;
      }
    }
  }

  /** What an eviction keeps: numbers not older than the cache keeps, and whatever is touched now. */
  lemma {:induction false} KeptByEviction(c: C.Cache, pn: Number)
    requires C.Consistent(c) && 0 < c.minRange <= MAX_TIME_PULSE && IsTimePulse(pn)
    ensures var c' := C.EvictAndRotateOf(c, pn);
            && C.Consistent(c') && c'.minRange == c.minRange && c'.rotations == c.rotations
            && c'.entries.Keys <= c.entries.Keys
            && (forall k :: k in c.entries ==> k in c'.entries || k + c.minRange < pn)
            && (forall k :: k in c.entries && C.TouchedNow(c, k) ==> k in c'.entries && c'.entries[k] == c.entries[k])
            && (pn in c.entries && C.TouchedNow(c, pn) ==> C.HeldSince(c', pn, c.entries[pn].beat.range, c'.gen))
  {
  }

  lemma {:induction false} CacheAfterCommit(c: C.Cache, bd: C.BeatData, pn: Number)
    requires C.Consistent(c) && Valid(bd.range) && C.CanPut(c, bd.range) && pn == RightBoundData(bd.range).pn
    requires 0 < c.minRange <= MAX_TIME_PULSE && IsTimePulse(pn)
    ensures var c' := C.EvictAndRotateOf(C.PutOf(c, bd), pn);
            && C.Consistent(c') && c'.minRange == c.minRange && c'.rotations == c.rotations
            && C.HeldSince(c', pn, bd.range, c'.gen)
            && c'.entries.Keys <= c.entries.Keys + C.Keys(bd.range)
            && (forall k :: k in c.entries.Keys + C.Keys(bd.range) ==> k in c'.entries || k + c.minRange < pn)
            && (forall k :: k in c.entries && C.TouchedNow(c, k) ==>
                  k in c'.entries && c'.entries[k].beat.range == c.entries[k].beat.range)
  {
    C.PutConsistent(c, bd);
    PutTouches(c, bd);
    KeptByEviction(C.PutOf(c, bd), pn);
  }

  lemma {:induction false} PutTouches(c: C.Cache, bd: C.BeatData)
    requires C.Consistent(c) && Valid(bd.range) && C.CanPut(c, bd.range)
    ensures var c', pn := C.PutOf(c, bd), RightBoundData(bd.range).pn;
            && c'.minRange == c.minRange && c'.rotations == c.rotations
            && c'.entries.Keys == c.entries.Keys + C.Keys(bd.range)
            && pn in c'.entries && c'.entries[pn].beat.range == bd.range
            && (forall k :: k in C.Keys(bd.range) ==> C.TouchedNow(c', k)) && C.TouchedNow(c', pn)
            && (forall k :: k in c.entries && C.TouchedNow(c, k) ==>
                  C.TouchedNow(c', k) && c'.entries[k].beat.range == c.entries[k].beat.range)
  {
  }

  lemma {:induction false} CacheInvAfterFirst(c: C.Cache, pr: Range, online: nat, pn: Number)
    requires Valid(pr) && pn == RightBoundData(pr).pn && IsTimePulse(pn)
    requires C.Consistent(c) && 0 < c.minRange <= MAX_TIME_PULSE && c.entries == map[]
    ensures CacheInv(C.EvictAndRotateOf(C.PutOf(c, C.BeatData(pr, online)), pn), pn, pr, NoPrevious, C.Keys(pr))
  {
    KeysBounds(pr);
    CacheAfterCommit(c, C.BeatData(pr, online), pn);
  }

  lemma {:induction false} CacheInvAfterCommit(c: C.Cache, present: Number, r: Range, prev: Previous, ever: set<Number>,
                            pr: Range, online: nat, pn: Number)
    requires Valid(pr) && pn == RightBoundData(pr).pn && IsTimePulse(pn) && present < LeftBoundNumber(pr)
    requires C.Consistent(c) && 0 < c.minRange <= MAX_TIME_PULSE && CacheInv(c, present, r, prev, ever)
    ensures C.CanPut(c, pr)
    ensures CacheInv(C.EvictAndRotateOf(C.PutOf(c, C.BeatData(pr, online)), pn), pn, pr, Previous(present, r),
            ever + C.Keys(pr))
  {
    BoundsOrdered(pr);
    KeysBounds(pr);
    CacheAfterCommit(c, C.BeatData(pr, online), pn);
  }

  lemma {:induction false} BoundsOrdered(r: Range)
    requires Valid(r)
    ensures LeftBoundNumber(r) <= RightBoundData(r).pn
  {
    C.RightBoundIsKey(r);
    KeysBounds(r);
  }

  // ------------------------------------------------------------ commits

  /** Exactly which commits are accepted, rejected or broken off, in every reachable state. Later commits
      are accepted when the range is a valid next of the last one; only a right bound with no next number,
      or a first right bound below a future already chosen, breaks a commit off; and no slot panic is met. */
  lemma {:induction false} CommitOutcome(s: State, pr: Range, online: nat)
    requires Inv(s) && Valid(pr)
    ensures var right := RightBoundData(pr);
            var rejected := !IsPulsarData(right) || (s.committed != [] && !RangeIsValidNext(LastRange(s), pr));
            && (Commit(s, pr, online).Rejected? <==> rejected)
            && (Commit(s, pr, online).Broken? <==> !rejected && ComesTooLate(s.word, right))
            && (Commit(s, pr, online).Done? <==> !rejected && !ComesTooLate(s.word, right))
            && (s.committed != [] && !rejected ==> (ComesTooLate(s.word, right) <==> NextNumber(right).None?))
  {
    if IsPulsarData(RightBoundData(pr)) {
      if s.committed == [] {
        FirstCommitOutcome(s, pr, online);
      } else {
        LaterCommitOutcome(s, pr, online);
      }
    }
  }

  lemma {:induction false} PutHoldsRight(c: C.Cache, bd: C.BeatData)
    requires C.Consistent(c) && Valid(bd.range) && C.CanPut(c, bd.range)
    ensures var pn := RightBoundData(bd.range).pn;
            pn in C.PutOf(c, bd).entries && C.PutOf(c, bd).entries[pn].beat.range == bd.range
  {
  }

  /** A commit that passes its checks and meets no slot panic is broken off exactly when it comes too late. */
  lemma {:induction false} CommitProceeds(s: State, pr: Range, right: Data, online: nat)
    requires Valid(pr) && right == RightBoundData(pr) && IsPulsarData(right)
    requires CommitChecks(s, pr) && C.Consistent(s.cache) && C.CanPut(s.cache, pr)
    requires CommitBoard(s.board, M.GetPresentPulse(s.word).1, pr, right.pn).Some?
    ensures if ComesTooLate(s.word, right) then Commit(s, pr, online).Broken? else Commit(s, pr, online).Done?
  {
    PutHoldsRight(s.cache, C.BeatData(pr, online));
  }

  lemma {:induction false} FirstCommitOutcome(s: State, pr: Range, online: nat)
    requires Inv(s) && Valid(pr) && s.committed == [] && IsPulsarData(RightBoundData(pr))
    ensures if ComesTooLate(s.word, RightBoundData(pr)) then Commit(s, pr, online).Broken?
            else Commit(s, pr, online).Done?
  {
    var right, future := RightBoundData(pr), M.GetPresentPulse(s.word).1;
    assert CommitChecks(s, pr);
    assert C.CanPut(s.cache, pr);
    CommitGivesShape(s.board, 0, future, pr, right.pn);
    CommitProceeds(s, pr, right, online);
  }

  lemma {:induction false} LaterCommitChecks(s: State, pr: Range)
    requires Inv(s) && Valid(pr) && s.committed != []
    ensures CommitChecks(s, pr) <==> RangeIsValidNext(LastRange(s), pr)
  {
  }

  lemma {:induction false} LaterCommitOutcome(s: State, pr: Range, online: nat)
    requires Inv(s) && Valid(pr) && s.committed != [] && IsPulsarData(RightBoundData(pr))
    ensures if !RangeIsValidNext(LastRange(s), pr) then Commit(s, pr, online).Rejected?
            else if ComesTooLate(s.word, RightBoundData(pr)) then Commit(s, pr, online).Broken?
            else Commit(s, pr, online).Done?
    ensures RangeIsValidNext(LastRange(s), pr) ==>
              (ComesTooLate(s.word, RightBoundData(pr)) <==> NextNumber(RightBoundData(pr)).None?)
  {
    var last, right := RightBoundData(LastRange(s)), RightBoundData(pr);
    LaterCommitChecks(s, pr);
    if RangeIsValidNext(LastRange(s), pr) {
      BoundsOrdered(pr);
      LaterCanPut(s, pr);
      CommitKeepsBoard(s.board, last.pn, NextNumber(last).value, LastRange(s), pr, right.pn, MAX_TIME_PULSE + 1);
      CommitProceeds(s, pr, right, online);
    }
  }

  lemma {:induction false} LaterCanPut(s: State, pr: Range)
    requires Inv(s) && Valid(pr) && s.committed != [] && RangeIsValidNext(LastRange(s), pr)
    ensures C.CanPut(s.cache, pr)
  {
    KeysBounds(pr);
  }

  lemma {:induction false} MigratedEvents(b: Board, word: M.Word, es: seq<Event>)
    requires NoFuture(b) && forall i :: 0 <= i < |es| ==> es[i].status != Impossible
    ensures var es' := MigrateEvents(b, word, es);
            forall i :: 0 <= i < |es| ==>
              es'[i].slot == es[i].slot && es'[i].status != Impossible && es'[i].status != Waiting
  {
  }

  /** The fields after an accepted commit. */
  ghost predicate CommitEffect(s: State, s': State, pr: Range, right: Data, online: nat)
    requires Valid(pr)
  {
    && C.CanPut(s.cache, pr) && NextNumber(right).Some? && IsPulsarData(right)
    && CommitBoard(s.board, M.GetPresentPulse(s.word).1, pr, right.pn) == Some(s'.board)
    && s'.config == s.config && !s'.preparing
    && s'.earliest == (if s.word == 0 && s.earliest == 0 then right.pn else s.earliest)
    && s'.word == M.Pack(right.pn, NextNumber(right).value)
    && s'.cache == C.EvictAndRotateOf(C.PutOf(s.cache, C.BeatData(pr, online)), right.pn)
    && s'.events == MigrateEvents(s'.board, s'.word, s.events)
    && s'.committed == s.committed + [pr] && s'.ever == s.ever + C.Keys(pr)
    && (s.committed == [] && s.word != 0 ==> M.FutureOf(s.word) <= right.pn)
    && (s.committed != [] ==> Valid(LastRange(s)) && RangeIsValidNext(LastRange(s), pr))
  }

  lemma {:induction false} CommitHasEffect(s: State, pr: Range, online: nat)
    requires Inv(s) && Valid(pr) && Commit(s, pr, online).Done?
    ensures CommitEffect(s, Commit(s, pr, online).state, pr, RightBoundData(pr), online)
  {
    CommitOutcome(s, pr, online);
  }

  /** A commit keeps the invariant, and leaves no event waiting and no future slot. */
  lemma {:induction false} CommitKeepsInv(s: State, pr: Range, online: nat)
    requires Inv(s) && Valid(pr) && Commit(s, pr, online).Done?
    ensures Inv(Commit(s, pr, online).state)
    ensures var s' := Commit(s, pr, online).state;
            && NoFuture(s'.board) && SlotsMove(s.board, s'.board)
            && forall i :: 0 <= i < |s'.events| ==> s'.events[i].status != Waiting
  {
    var s', right := Commit(s, pr, online).state, RightBoundData(pr);
    CommitHasEffect(s, pr, online);
    EffectKeepsInv(s, s', pr, right, online);
  }

  lemma {:induction false} EffectKeepsInv(s: State, s': State, pr: Range, right: Data, online: nat)
    requires Inv(s) && Valid(pr) && right == RightBoundData(pr) && CommitEffect(s, s', pr, right, online)
    ensures Inv(s') && NoFuture(s'.board) && SlotsMove(s.board, s'.board)
    ensures forall i :: 0 <= i < |s'.events| ==> s'.events[i].status != Waiting
  {
    if s.committed == [] {
      EffectOfFirst(s, s', pr, right, online);
    } else {
      EffectOfLater(s, s', pr, right, online, LastRange(s), RightBoundData(LastRange(s)));
    }
    EffectKeepsRest(s, s', pr, right, online);
  }

  lemma {:induction false} EffectKeepsRest(s: State, s': State, pr: Range, right: Data, online: nat)
    requires Valid(pr) && right == RightBoundData(pr) && CommitEffect(s, s', pr, right, online)
    requires CacheKept(s) && EventsKept(s) && NoFuture(s'.board) && SlotsMove(s.board, s'.board)
    ensures CacheKept(s') && EventsKept(s')
    ensures forall i :: 0 <= i < |s'.events| ==> s'.events[i].status != Waiting
  {
    CacheAfterCommit(s.cache, C.BeatData(pr, online), right.pn);
    MigratedEvents(s'.board, s'.word, s.events);
  }

  lemma {:induction false} FirstEffectOnBoard(s: State, s': State, pr: Range, right: Data, online: nat)
    requires Unstarted(s) && Valid(pr) && right == RightBoundData(pr) && CommitEffect(s, s', pr, right, online)
    ensures BoardInv(s'.board, right.pn, NextNumber(right).value, pr) && NoFuture(s'.board)
            && SlotsMove(s.board, s'.board)
  {
    FirstCommitGivesBoard(s.board, M.GetPresentPulse(s.word).1, pr, right.pn, NextNumber(right).value);
  }

  lemma {:induction false} FirstEffectOnCache(s: State, s': State, pr: Range, right: Data, online: nat)
    requires CacheKept(s) && Unstarted(s)
    requires Valid(pr) && right == RightBoundData(pr) && CommitEffect(s, s', pr, right, online)
    ensures CacheInv(s'.cache, right.pn, pr, NoPrevious, s'.ever)
  {
    CacheInvAfterFirst(s.cache, pr, online, right.pn);
    assert s'.ever == C.Keys(pr);
  }

  lemma {:induction false} EffectOfFirst(s: State, s': State, pr: Range, right: Data, online: nat)
    requires CacheKept(s) && Unstarted(s)
    requires Valid(pr) && right == RightBoundData(pr) && CommitEffect(s, s', pr, right, online)
    ensures Running(s') && NoFuture(s'.board) && SlotsMove(s.board, s'.board)
  {
    FirstEffectOnBoard(s, s', pr, right, online);
    FirstEffectOnCache(s, s', pr, right, online);
    assert s'.committed == [pr];
    StartsRunning(s', pr, right);
  }

  lemma {:induction false} StartsRunning(s: State, pr: Range, right: Data)
    requires s.committed == [pr] && Valid(pr) && right == RightBoundData(pr) && RunningWith(s, pr, right, NoPrevious)
    ensures Running(s)
  {
  }

  lemma {:induction false} EffectOfLater(s: State, s': State, pr: Range, right: Data, online: nat, r: Range, last: Data)
    requires CacheKept(s) && Running(s) && r == LastRange(s) && last == RightBoundData(r)
    requires Valid(pr) && right == RightBoundData(pr) && CommitEffect(s, s', pr, right, online)
    ensures Running(s') && NoFuture(s'.board) && SlotsMove(s.board, s'.board)
  {
    EffectOnRun(s, s', pr, right, r, last, PreviousOf(s.committed), online);
    RunSnoc(s.committed, pr);
    assert s'.committed[|s'.committed| - 2] == r && LastRange(s') == pr;
  }

  lemma {:induction false} EffectOnRun(s: State, s': State, pr: Range, right: Data, r: Range, last: Data,
                                       prev: Previous, online: nat)
    requires CacheKept(s) && RunningWith(s, r, last, prev)
    requires Valid(pr) && right == RightBoundData(pr) && CommitEffect(s, s', pr, right, online)
    requires NextNumber(last) == Some(LeftBoundNumber(pr))
    ensures RunningWith(s', pr, right, Previous(last.pn, r)) && NoFuture(s'.board) && SlotsMove(s.board, s'.board)
  {
    BoundsOrdered(pr);
    CommitKeepsBoard(s.board, last.pn, NextNumber(last).value, r, pr, right.pn, NextNumber(right).value);
    CacheInvAfterCommit(s.cache, last.pn, r, prev, s.ever, pr, online, right.pn);
  }
}
