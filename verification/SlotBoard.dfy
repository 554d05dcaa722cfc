/** The pulse slots of the conveyor and the aliases they are published under
    (ledger-core/conveyor/conveyor.go, pulse_data_holder.go, sm_pulse_slot.go). */
module SlotBoard {
  import opened PulseNumber
  import opened PulseData
  import opened PulseRange
  import opened PulseSlot
  import opened PulseManager

  datatype Holder = FutureHolder | PresentHolder | AntiqueHolder

  /** A slot machine: its data holder, the alias its finalizer unpublishes, and whether it still runs. */
  datatype Slot = Slot(holder: Holder, state: SlotState, range: Option<Range>, finalizer: Option<Number>, running: bool)

  /** Slots are named by their order of creation; published maps an alias to a slot. */
  datatype Board = Board(slots: seq<Slot>, published: map<Number, nat>, present: Option<nat>, unpublish: Number)

  const EMPTY_BOARD := Board([], map[], None, UNKNOWN)

  // ------------------------------------------------------------ data holders; None is a panic

  function MakePresent(sl: Slot, pr: Range): Option<Slot> {
    if sl.holder.FutureHolder? && sl.state == Future then Some(sl.(state := Present, range := Some(pr))) else None
  }

  function MakePast(sl: Slot): Option<Slot> {
    match sl.holder
    case FutureHolder => if sl.state == Present then Some(sl.(state := Past)) else None
    case PresentHolder => Some(sl.(state := Past))
    case AntiqueHolder => None
  }

  // ------------------------------------------------------------ operations

  /** The expected pulse a future slot is created for; its prev delta is cut to a uint16. */
  function ExpectedData(present: Number, future: Number): Data {
    var delta := Sub32(future, present);
    Data(future, future, 0, if present == UNKNOWN then 0 else if delta > 0xFFFF then 0xFFFF else delta, 0, 0)
  }

  /** setFuture and AsRange take it without a panic. */
  predicate IsExpectedPulse(d: Data) {
    IsExpectedData(d) && IsTimeEpoch(d.epoch) && NewOnePulseRange(d) == Some(One(d))
  }

  /** The expected pulse has the expected number, and if that is near enough its previous pulse is the present one. */
  lemma {:induction false} ExpectedDataIs(present: Number, future: Number)
    requires IsTimePulse(future) && (present == UNKNOWN || (IsTimePulse(present) && present < future))
    ensures var d := ExpectedData(present, future);
            && d.pn == future && d.epoch == future && d.next == 0
            && (present == UNKNOWN ==> d.prev == 0)
            && (present != UNKNOWN ==> d.prev > 0 && (d.pn - d.prev == present || (d.prev == 65535 < future - present)))
  {
  }

  lemma {:induction false} ExpectedIsPulse(present: Number, future: Number)
    requires IsTimePulse(future) && (present == UNKNOWN || (IsTimePulse(present) && present < future))
    ensures IsExpectedPulse(ExpectedData(present, future))
  {
  }

  function AddSlot(b: Board, key: Number, sl: Slot): Board {
    b.(slots := b.slots + [sl], published := b.published[key := |b.slots|])
  }

  function FutureSlot(present: Number, future: Number): Slot {
    Slot(FutureHolder, Future, Some(One(ExpectedData(present, future))), Some(future), true)
  }

  const ANTIQUE_SLOT := Slot(AntiqueHolder, Antique, None, Some(0), true)

  function OpenFuture(b: Board, present: Number, future: Number): Board {
    if future in b.published then b
    else AddSlot(b, future, FutureSlot(present, future))
  }

  function OpenAntique(b: Board): Board {
    if 0 in b.published then b else AddSlot(b, 0, ANTIQUE_SLOT)
  }

  /** CommitPulseChange marks the present slot as past. */
  function RetirePresent(b: Board): Option<Board> {
    if b.present.None? then Some(b)
    else if b.present.value >= |b.slots| || MakePast(b.slots[b.present.value]).None? then None
    else Some(b.(slots := b.slots[b.present.value := MakePast(b.slots[b.present.value]).value]))
  }

  function DropOldAlias(b: Board): Board {
    if IsTimePulse(b.unpublish) then b.(published := b.published - {b.unpublish}, unpublish := UNKNOWN) else b
  }

  /** _getOrPublishSlotMachineAsPresent. */
  function TakePresent(b: Board, prevFuture: Number, pr: Range): Option<Board> {
    if prevFuture in b.published then
      var i := b.published[prevFuture];
      if i >= |b.slots| || MakePresent(b.slots[i], pr).None? then None
      else Some(b.(slots := b.slots[i := MakePresent(b.slots[i], pr).value], present := Some(i)))
    else Some(AddSlot(b, prevFuture, Slot(PresentHolder, Present, Some(pr), None, true)).(present := Some(|b.slots|)))
  }

  function AliasPresent(b: Board, prevFuture: Number, pn: Number): Option<Board> {
    if prevFuture == pn then Some(b)
    else if b.present.None? || b.present.value >= |b.slots| || pn in b.published then None
    else
      var m := b.present.value;
      Some(b.(unpublish := prevFuture,
              slots := b.slots[m := b.slots[m].(finalizer := Some(pn))],
              published := b.published[pn := m]))
  }

  /** The board after a commit of range pr, whose right bound is pn. */
  function CommitBoard(b: Board, prevFuture: Number, pr: Range, pn: Number): Option<Board> {
    match RetirePresent(b)
    case None => None
    case Some(b1) =>
      match TakePresent(DropOldAlias(b1), prevFuture, pr)
      case None => None
      case Some(b2) => AliasPresent(b2, prevFuture, pn)
  }

  /** A past slot stops and its finalizer runs. */
  function Terminate(b: Board, i: nat): Board {
    if i < |b.slots| && b.slots[i].state == Past && b.slots[i].running then
      b.(slots := b.slots[i := b.slots[i].(running := false)],
         published := if b.slots[i].finalizer.Some? then b.published - {b.slots[i].finalizer.value} else b.published)
    else b
  }

  // ------------------------------------------------------------ invariant

  ghost predicate KeyInv(b: Board, m: nat, present: Number, future: Number, k: Number)
    requires k in b.published && m < |b.slots|
  {
    var i := b.published[k];
    && i < |b.slots|
    && (|| (k == UNKNOWN && b.slots[i].state == Antique)
        || (k == UNINITIALIZED_FUTURE && (b.slots[i].state == Present || b.slots[i].state == Past))
        || (k == future && b.slots[i].state == Future)
        || (k == present && i == m)
        || (MIN_TIME_PULSE <= k < present && (b.slots[i].state == Past || (i == m && k == b.unpublish))))
  }

  ghost predicate SlotInv(b: Board, m: nat, present: Number, future: Number, r: Range, i: nat)
    requires i < |b.slots|
  {
    var sl := b.slots[i];
    && (sl.state == Present <==> i == m)
    && (sl.state == Present ==> sl.range == Some(r))
    && (sl.state == Antique <==> sl.holder == AntiqueHolder)
    && (sl.holder == PresentHolder ==> sl.state == Present || sl.state == Past)
    && (sl.state == Future ==> future in b.published && b.published[future] == i)
    && (sl.finalizer.Some? ==>
          var k := sl.finalizer.value;
          && k != UNINITIALIZED_FUTURE && (k in b.published ==> b.published[k] == i)
          && (k == UNKNOWN ==> k in b.published)
          && (k <= present || (k == future && sl.state == Future)))
  }

  /** After a commit: one present slot, published under the present number, and no alias past the future. */
  ghost predicate BoardInv(b: Board, present: Number, future: Number, r: Range) {
    && b.present.Some? && b.present.value < |b.slots|
    && IsTimePulse(present) && present < future
    && present in b.published && b.published[present] == b.present.value
    && (b.unpublish < present || b.unpublish == UNKNOWN)
    && (IsTimePulse(b.unpublish) ==> b.unpublish in b.published && b.published[b.unpublish] == b.present.value)
    && (forall k {:trigger KeyInv(b, b.present.value, present, future, k)} :: k in b.published ==>
          KeyInv(b, b.present.value, present, future, k))
    && (forall i {:trigger SlotInv(b, b.present.value, present, future, r, i)} :: 0 <= i < |b.slots| ==>
          SlotInv(b, b.present.value, present, future, r, i))
  }

  /** The key a first commit publishes its slot under when no future was chosen before. */
  predicate FirstKey(b: Board) { UNINITIALIZED_FUTURE in b.published }

  /** Before any commit, with a future already chosen: its slot is all there is. */
  ghost predicate OnlyFuture(b: Board, future: Number) {
    && IsTimePulse(future) && b.present.None? && b.unpublish == UNKNOWN
    && b.published == map[future := 0] && |b.slots| == 1
    && b.slots[0].holder == FutureHolder && b.slots[0].state == Future && b.slots[0].finalizer == Some(future)
  }

  /** What a commit does to slots and aliases, in one view. */
  ghost predicate CommitShape(b: Board, b': Board, m': nat, future: Number, pr: Range, pn: Number) {
    && b'.present == Some(m') && |b.slots| <= |b'.slots| && m' < |b'.slots| <= m' + 1 + |b.slots|
    && (if future in b.published then m' == b.published[future] && |b'.slots| == |b.slots|
        else m' == |b.slots| && |b'.slots| == m' + 1)
    && (forall i {:trigger b'.slots[i]} :: 0 <= i < |b.slots| && i != m' ==>
          b'.slots[i] == if b.present == Some(i) then b.slots[i].(state := Past) else b.slots[i])
    && b'.slots[m'].state == Present && b'.slots[m'].range == Some(pr)
    && b'.slots[m'].holder == (if future in b.published then FutureHolder else PresentHolder)
    && b'.slots[m'].finalizer == (if pn != future then Some(pn) else if m' < |b.slots| then b.slots[m'].finalizer
          else None)
    && b'.unpublish == (if pn != future then future else if IsTimePulse(b.unpublish) then UNKNOWN else b.unpublish)
    && (forall k {:trigger k in b'.published} :: k in b'.published <==>
          k == future || k == pn || (k in b.published && !(IsTimePulse(k) && k == b.unpublish)))
    && (forall k {:trigger b'.published[k]} :: k in b'.published ==>
          b'.published[k] == if k == future || k == pn then m' else b.published[k])
  }

  ghost predicate CanTake(b: Board, m': nat, future: Number) {
    && b.unpublish != future
    && (b.present.Some? ==>
          b.present.value < |b.slots| && b.present.value != m' && MakePast(b.slots[b.present.value]).Some?)
    && (if future in b.published
        then m' == b.published[future] < |b.slots| && b.slots[m'].holder == FutureHolder && b.slots[m'].state == Future
        else m' == |b.slots|)
  }

  lemma {:induction false} TakeGivesShape(b: Board, m': nat, future: Number, pr: Range)
    requires CanTake(b, m', future)
    ensures RetirePresent(b).Some? && TakePresent(DropOldAlias(RetirePresent(b).value), future, pr).Some?
    ensures CommitShape(b, TakePresent(DropOldAlias(RetirePresent(b).value), future, pr).value, m', future, pr, future)
  {
    var b2 := DropOldAlias(RetirePresent(b).value);
    assert future in b2.published <==> future in b.published;
    assert m' < |b.slots| ==> b2.slots[m'] == b.slots[m'];
  }

  lemma {:induction false} AliasGivesShape(b: Board, b3: Board, m': nat, future: Number, pr: Range, pn: Number)
    requires CommitShape(b, b3, m', future, pr, future) && pn != future && pn !in b.published
    ensures AliasPresent(b3, future, pn).Some? && CommitShape(b, AliasPresent(b3, future, pn).value, m', future, pr, pn)
  {
  }

  lemma {:induction false} CommitGivesShape(b: Board, m': nat, future: Number, pr: Range, pn: Number)
    requires CanTake(b, m', future) && (pn == future || pn !in b.published)
    requires b.present.Some? ==> b.slots[b.present.value].state == Present
    ensures CommitBoard(b, future, pr, pn).Some? && SlotsMove(b, CommitBoard(b, future, pr, pn).value)
    ensures CommitShape(b, CommitBoard(b, future, pr, pn).value, m', future, pr, pn)
  {
    TakeGivesShape(b, m', future, pr);
    if pn != future {
      AliasGivesShape(b, TakePresent(DropOldAlias(RetirePresent(b).value), future, pr).value, m', future, pr, pn);
    }
  }

  lemma {:induction false} CommitKeepsKeys(b: Board, present: Number, future: Number, r: Range, b': Board, m': nat,
                                           pr: Range, pn: Number, future': Number)
    requires BoardInv(b, present, future, r) && CommitShape(b, b', m', future, pr, pn)
    requires future <= pn < future' && IsTimePulse(pn)
    ensures forall k :: k in b'.published ==> KeyInv(b', m', pn, future', k)
  {
    assert future in b.published ==> KeyInv(b, b.present.value, present, future, future);
    forall k | k in b'.published
      ensures KeyInv(b', m', pn, future', k)
    {
      if k != future && k != pn {
        assert KeyInv(b, b.present.value, present, future, k);
        assert SlotInv(b, b.present.value, present, future, r, b.published[k]);
      }
    }
  }

  lemma {:induction false} CommitKeepsSlots(b: Board, present: Number, future: Number, r: Range, b': Board, m': nat,
                                            pr: Range, pn: Number, future': Number)
    requires BoardInv(b, present, future, r) && CommitShape(b, b', m', future, pr, pn)
    requires future <= pn < future' && IsTimePulse(pn)
    ensures forall i :: 0 <= i < |b'.slots| ==> SlotInv(b', m', pn, future', pr, i)
  {
    forall i | 0 <= i < |b'.slots|
      ensures SlotInv(b', m', pn, future', pr, i)
    {
      if i < |b.slots| {
        assert SlotInv(b, b.present.value, present, future, r, i);
      }
    }
  }

  predicate Moves(a: SlotState, b: SlotState) { a == b || (a == Future && b == Present) || (a == Present && b == Past) }

  /** No slot is removed, and each only moves from future to present to past, one step at a time. */
  ghost predicate SlotsMove(b: Board, b': Board) {
    |b.slots| <= |b'.slots| && forall i :: 0 <= i < |b.slots| ==> Moves(b.slots[i].state, b'.slots[i].state)
  }

  ghost predicate NoFuture(b: Board) { forall i :: 0 <= i < |b.slots| ==> b.slots[i].state != Future }

  /** A later commit that continues the present range panics nowhere and keeps the invariant; the future
      slot, if there is one, has become the present one. */
  lemma {:induction false} CommitKeepsBoard(b: Board, present: Number, future: Number, r: Range, pr: Range,
                                            pn: Number, future': Number)
    requires BoardInv(b, present, future, r) && future <= pn < future' && IsTimePulse(pn)
    ensures CommitBoard(b, future, pr, pn).Some?
    ensures BoardInv(CommitBoard(b, future, pr, pn).value, pn, future', pr)
    ensures NoFuture(CommitBoard(b, future, pr, pn).value) && SlotsMove(b, CommitBoard(b, future, pr, pn).value)
    ensures FirstKey(CommitBoard(b, future, pr, pn).value) == FirstKey(b)
  {
    var m := b.present.value;
    assert SlotInv(b, m, present, future, r, m);
    if pn in b.published {
      assert KeyInv(b, m, present, future, pn);
    }
    var m' := |b.slots|;
    if future in b.published {
      m' := b.published[future];
      assert KeyInv(b, m, present, future, future);
      assert SlotInv(b, m, present, future, r, m');
    }
    CommitGivesShape(b, m', future, pr, pn);
    var b' := CommitBoard(b, future, pr, pn).value;
    CommitKeepsKeys(b, present, future, r, b', m', pr, pn, future');
    CommitKeepsSlots(b, present, future, r, b', m', pr, pn, future');
    forall i | 0 <= i < |b'.slots|
      ensures b'.slots[i].state != Future
    {
      assert i < |b.slots| ==> SlotInv(b, m, present, future, r, i);
    }
  }

  /** However the present slot was found, it carries the range and is published under the present number. */
  lemma {:induction false} CommitPublishes(b: Board, future: Number, pr: Range, pn: Number, b': Board)
    requires CommitBoard(b, future, pr, pn) == Some(b')
    ensures b'.present.Some? && b'.present.value < |b'.slots|
    ensures b'.slots[b'.present.value].state == Present && b'.slots[b'.present.value].range == Some(pr)
    ensures pn in b'.published && b'.published[pn] == b'.present.value
  {
  }

  /** The number the slot was expected under stays an alias, to be unpublished at the next commit unless the
      slot is present under that very number. */
  lemma {:induction false} CommitKeepsAlias(b: Board, future: Number, pr: Range, pn: Number, b': Board)
    requires CommitBoard(b, future, pr, pn) == Some(b')
    ensures future in b'.published && (future != pn ==> b'.unpublish == future)
  {
  }

  /** The alias kept from the commit before is unpublished. */
  lemma {:induction false} CommitDropsAlias(b: Board, future: Number, pr: Range, pn: Number, b': Board)
    requires CommitBoard(b, future, pr, pn) == Some(b') && IsTimePulse(b.unpublish)
    requires b.unpublish != future && b.unpublish != pn
    ensures b.unpublish !in b'.published
  {
  }

  /** The present slot becomes past. */
  lemma {:induction false} CommitRetiresPresent(b: Board, present: Number, future: Number, r: Range, pr: Range,
                                                pn: Number, b': Board)
    requires BoardInv(b, present, future, r) && future <= pn && IsTimePulse(pn)
    requires CommitBoard(b, future, pr, pn) == Some(b')
    ensures b.present.value < |b'.slots| && b'.slots[b.present.value].state == Past
  {
    var m := b.present.value;
    assert SlotInv(b, m, present, future, r, m);
    if future in b.published {
      assert KeyInv(b, m, present, future, future);
    }
  }

  /** So does the first commit, with or without a future chosen before. */
  lemma {:induction false} FirstCommitGivesBoard(b: Board, future: Number, pr: Range, pn: Number, future': Number)
    requires (b == EMPTY_BOARD && future == UNINITIALIZED_FUTURE) || (OnlyFuture(b, future) && future <= pn)
    requires pn < future' && IsTimePulse(pn)
    ensures CommitBoard(b, future, pr, pn).Some?
    ensures BoardInv(CommitBoard(b, future, pr, pn).value, pn, future', pr)
    ensures NoFuture(CommitBoard(b, future, pr, pn).value) && SlotsMove(b, CommitBoard(b, future, pr, pn).value)
    ensures FirstKey(CommitBoard(b, future, pr, pn).value) <==> future == UNINITIALIZED_FUTURE
  {
    CommitGivesShape(b, 0, future, pr, pn);
    var b' := CommitBoard(b, future, pr, pn).value;
    assert |b'.slots| == 1;
    forall k | k in b'.published
      ensures KeyInv(b', 0, pn, future', k)
    {
    }
    assert SlotInv(b', 0, pn, future', pr, 0);
  }

  lemma {:induction false} OpenKeepsInv(b: Board, present: Number, future: Number, r: Range)
    requires BoardInv(b, present, future, r) && future <= MAX_TIME_PULSE
    ensures BoardInv(OpenFuture(b, present, future), present, future, r)
    ensures future in OpenFuture(b, present, future).published
    ensures BoardInv(OpenAntique(b), present, future, r) && 0 in OpenAntique(b).published
  {
    AddKeepsBoard(b, present, future, r, future, FutureSlot(present, future));
    AddKeepsBoard(b, present, future, r, 0, ANTIQUE_SLOT);
  }

  /** Opening a future or the antique slot panics nowhere, keeps the invariant and leaves the first key alone. */
  lemma {:induction false} OpenKeepsBoard(b: Board, present: Number, future: Number, r: Range)
    requires BoardInv(b, present, future, r) && future <= MAX_TIME_PULSE
    ensures IsExpectedPulse(ExpectedData(present, future))
    ensures BoardInv(OpenFuture(b, present, future), present, future, r) && BoardInv(OpenAntique(b), present, future, r)
    ensures FirstKey(OpenFuture(b, present, future)) == FirstKey(OpenAntique(b)) == FirstKey(b)
  {
    ExpectedIsPulse(present, future);
    OpenKeepsInv(b, present, future, r);
  }

  lemma {:induction false} AddKeepsBoard(b: Board, present: Number, future: Number, r: Range, key: Number, sl: Slot)
    requires BoardInv(b, present, future, r)
    requires sl.finalizer == Some(key)
    requires || (key == future && sl.holder == FutureHolder && sl.state == Future)
             || (key == 0 && sl.holder == AntiqueHolder && sl.state == Antique)
    ensures key !in b.published ==> BoardInv(AddSlot(b, key, sl), present, future, r)
  {
    if key !in b.published {
      var m, b' := b.present.value, AddSlot(b, key, sl);
      forall k | k in b'.published
        ensures KeyInv(b', m, present, future, k)
      {
        assert k != key ==> KeyInv(b, m, present, future, k);
      }
      forall i | 0 <= i < |b'.slots|
        ensures SlotInv(b', m, present, future, r, i)
      {
        assert i < |b.slots| ==> SlotInv(b, m, present, future, r, i);
      }
    }
  }

  lemma {:induction false} TerminateKeepsBoard(b: Board, present: Number, future: Number, r: Range, i: nat)
    requires BoardInv(b, present, future, r)
    ensures BoardInv(Terminate(b, i), present, future, r) && FirstKey(Terminate(b, i)) == FirstKey(b)
  {
    var m, b' := b.present.value, Terminate(b, i);
    if b' != b {
      assert SlotInv(b, m, present, future, r, i);
      assert UNKNOWN in b.published ==> KeyInv(b, m, present, future, UNKNOWN);
      forall k | k in b'.published
        ensures KeyInv(b', m, present, future, k)
      {
        assert KeyInv(b, m, present, future, k);
      }
      forall j | 0 <= j < |b'.slots|
        ensures SlotInv(b', m, present, future, r, j)
      {
        assert SlotInv(b, m, present, future, r, j);
      }
    }
  }
}
