# Pulses, the pulse conveyor, references and extension locators

A Dafny model of four connected parts of the assured ledger, with proofs about them. They share one
30-bit line of pulse numbers.

* **Pulse ranges** (`PulseNumber`, `PulseData`, `PulseRange`, `PulseRangeLaws`, `PulseEnumeration`). A range of pulses
  is a single pulse, a left gap, a linked sequence or a sparse list. `EnumNumbers` and `EnumData` fill gaps with
  articulated pulses: every range a constructor accepts, of any shape, enumerates in both as one linked chain. The two
  non-articulated enumerators give the provided pulses alone.
* **The pulse-change protocol** (`PulseDataCache`, `PulseSlot`, `PulseManager`, `SlotBoard`, `Conveyor`,
  `ConveyorSafety`, `ConveyorRuns`, `ConveyorRouting`, `ConveyorEvents`, `ConveyorAliases`, `PulseConveyor`).
  `Conveyor` is a transition system: inputs, polls of delayed events, commits, prepare, cancel, termination of past
  slots, reads and loads of pulse data, in any order. `ConveyorSafety` has the invariant, `ConveyorRuns` and the three
  modules after it what it means for whole runs. `PulseConveyor` is the conveyor as an object whose methods are proved
  to take exactly those steps. `PulseDataCache` has the ring of access maps as a class that refines a map of last
  touches. `PulseManager` splits the compare-and-swap loops over the packed (present, future) word into single atomic
  accesses and allows every interleaving.
* **References** (`Reference`, `ReferenceLaws`, `ReferenceWriters`, `ReferenceText`, `ReferenceTextLaws`,
  `ReferenceTextIO`). The compact binary form with its size function and three writers, and the textual form with
  schema, local part and base part.
* **Extension locators** (`Varint`, `FieldLoop`, `ExtLocators`, `ExtLocatorsReader`, `UnknownFields`,
  `ExtLocatorLaws`). The wire codec: a back-to-front writer into a buffer of the predicted size, and a front-to-back
  reader that skips unknown fields.

A Go panic or an error return is a value (`None`, `Rejected`, `Failed`, ...), so preconditions hold only what
the code demands of its callers. `uint16`, `uint32` and `uint64` arithmetic wraps or is cut where the code does so.

## What the proofs found

* The sparse `EnumNumbers` and `EnumData` compute the number after their last pulse, and panic when it exceeds
  the largest time pulse (`pulse_range.go:413`, `pulse_range.go:440`): for a visitor that never stops, exactly then
  (`EnumNumbers`, `EnumData`, with a range in `SparsePanics`). Both also ignore the visitor's answer to the first
  provided pulse (`pulse_range.go:399`, `pulse_range.go:433`); the model does the same.
* `_isAcceptedPresent` compares the deltas from the wrong side (`pulse_slot.go:162`), so it can accept a number
  between two linked pulses (`UnequalDeltasAcceptMore`) and reject a provided pulse (`UnequalDeltasRejectProvided`).
  `AcceptedPresentExactly` says what it accepts for all deltas; `AcceptsIntendedExactly` says for which ranges
  that is what is meant, by a check on the deltas of the range. Equal deltas are one such case.
* A commit can be broken off by a panic after the slots have changed (`pulse_manager.go:116`, `pulse_manager.go:128`):
  exactly when the right bound has no next number, or when it is the first commit and its right bound is below a
  future that was already chosen (`CommitOutcome`, with reachable inputs in `BrokenBelowFuture` and
  `BrokenWithoutNext`). `CommitPulseChange` states what is left behind.
* A first commit with no future chosen publishes its slot under the number 65536 (`conveyor.go:547`), and no later
  step of any run unpublishes it (`FirstKeyIsForGood`).
* When a commit makes a later pulse present than the expected one, the expected number stays an alias of the present
  slot until the next commit unpublishes it, and is routed as past (`conveyor.go:330`, `conveyor.go:537`). An input
  for it is admitted exactly when its data are cached (`FormerFutureRoutes`, `FormerFutureEnds`), so right after the
  commit exactly when the range provides it (`FormerFutureInput`). It is the left bound of the range at a later
  commit; at a first one it is the chosen future, which need not be in the range (`ChosenFutureRefused`).
* A delayed event for a later pulse than the one that becomes present is started exactly when the committed range is
  articulated and its deltas let the number pass (`LaterEventStartsExactly`, with a run in `LaterEventStarts`).
* When a future was chosen before the first commit, the earliest bound of the cache is never set
  (`pulse_manager.go:133`, `EarliestAlongRun`). An input for a pulse before that commit, within the retention interval,
  is then refused instead of being loaded (`InputBeforeStart`, with an input in `RefusedBeforeStart`).
* A local with a scope but no pulse marshals to nothing, so it does not come back (`LocalRoundTrip`), and the textual
  encoder panics on it (`encoder.go:183`). A textual reference with one empty part that is not a record does
  not decode (`TextRoundTrip`). `DecodeHolder` differs from `Decode` exactly on texts whose local part is a
  hash without a header (`HolderDiffersExactly`, with a text in `HolderLosesHash`).
* The backward reference writer panics instead of returning the error when a record reference does not fit
  (`marshal_holder.go:123`).

## Model

| member | source | states |
|---|---|---|
| `PulseRange.CheckSequence` | ledger-core/pulse/pulse_range.go:96-114 | no panic exactly when all data are pulse data and each pair is linked or clearly apart; true exactly when all pairs are linked |
| `PulseRange.NewSequenceRange` | ledger-core/pulse/pulse_range.go:60-74 | accepts exactly one range datum or a linked sequence |
| `PulseRange.NewPulseRange` | ledger-core/pulse/pulse_range.go:76-94 | which of the four shapes it gives, and when it panics |
| `PulseRange.ConstructorsGiveValid` | ledger-core/pulse/pulse_range.go:42-127 | every constructed range meets the linking invariant of its shape |
| `PulseRange.ValidIsConstructed` | ledger-core/pulse/pulse_range.go:42-127 | every range that meets the invariant is built by some constructor call |
| `PulseRangeLaws.PulseRangeExactly` | ledger-core/pulse/pulse_range.go:76-114 | for which pulses a range is built at all; it starts at the first, ends with the last, provides the pulses but an expected first one, and is articulated exactly when it is not linked throughout |
| `PulseRangeLaws.SequenceRangeExactly` | ledger-core/pulse/pulse_range.go:60-74 | the same for linked sequences |
| `PulseRangeLaws.LeftGapRangeExactly` | ledger-core/pulse/pulse_range.go:42-58 | the same for a left bound and a pulse |
| `PulseRangeLaws.NextPrevInverse` | ledger-core/pulse/pulse_number.go:148-179 | next and previous numbers undo each other, within the time pulses |
| `PulseRangeLaws.CompatibleExactly` | ledger-core/pulse/pulse_epoch.go:52-65 | pulsar and articulated epochs go together, any other only with itself |
| `PulseRangeLaws.DataExactly` | ledger-core/pulse/pulse_data.go:133-213 | which data are taken for a range, a pulse, a pulsar pulse and an expected pulse, in plain inequalities |
| `PulseRangeLaws.ValidNextIsLink` | ledger-core/pulse/pulse_data.go:264-274 | valid next data are linked numbers with compatible epochs and a next delta |
| `PulseRangeLaws.ApartExactly` | ledger-core/pulse/pulse_range.go:96-114 | two pulses stand next to each other in a range exactly when they are linked or leave room for the numbers between them |
| `PulseRangeLaws.RangeValidNextIsLink` | ledger-core/pulse/pulse_range.go:129-137 | a range is a valid next exactly when the last number of the one links to the first of the other |
| `PulseRangeLaws.SegmentDeltaIsLargest` | ledger-core/pulse/pulse_range.go:518-528 | each segment is as long as it can be so that nothing, or at least 10, is left |
| `PulseRange.SegmentsChain` | ledger-core/pulse/pulse_range.go:515-539 | splitting a gap emits one linked chain from its start to its end |
| `PulseRange.SegmentsSplitGap` | ledger-core/pulse/pulse_range.go:498-539 | a gap D is split into ceil(D/65535) segments that sum to D, each delta in 1..65535, none below 10 when D exceeds 65535 |
| `PulseRange.NumbersChain` | ledger-core/pulse/pulse_range.go:42-114 | every range enumerates as one linked chain from left bound and prev delta to right bound |
| `PulseRange.LinkedIncreases` | ledger-core/pulse/pulse_range.go:515-539 | numbers along a linked chain increase, by at least each next delta |
| `PulseRange.RunChain` | ledger-core/pulse/pulse_range.go:204-212 | ranges that are valid next of one another enumerate together as one linked chain |
| `PulseEnumeration.EnumSegments` | ledger-core/pulse/pulse_range.go:515-539 | shows any visitor exactly the segments up to its stop, and never overflows in `Next` |
| `PulseEnumeration.EnumNumbers` | ledger-core/pulse/pulse_range.go:384-416 | what any visitor is shown for every shape; it panics exactly when the sparse right bound has no next number and the visitor did not stop, so for a visitor that never stops exactly on such a range |
| `PulseEnumeration.EnumData` | ledger-core/pulse/pulse_range.go:418-443 | the same for pulse data |
| `PulseEnumeration.SparsePanics` | ledger-core/pulse/pulse_range.go:403-415 | a sparse range that is valid and on which the enumerators panic at the end |
| `PulseEnumeration.EnumSegmentData` | ledger-core/pulse/pulse_range.go:500-513 | the articulated data of a gap and then the pulse itself, up to the visitor's stop |
| `PulseEnumeration.EnumNonArticulatedNumbers` | ledger-core/pulse/pulse_range.go:445-461 | shows any visitor the provided numbers up to its stop, for every shape |
| `PulseEnumeration.EnumNonArticulatedData` | ledger-core/pulse/pulse_range.go:463-479 | shows any visitor the provided data up to its stop, for every shape |
| `PulseEnumeration.FeedShows` | ledger-core/pulse/pulse_range.go:523-538 | a visitor is shown a prefix that ends at its first stop |
| `PulseEnumeration.VisitExactly` | ledger-core/pulse/pulse_range.go:384-416 | of every range, any visitor is shown the numbers up to its first stop, where the answer to a first provided pulse of a sparse range does not count |
| `PulseEnumeration.VisitDataExactly` | ledger-core/pulse/pulse_range.go:418-443 | the same for pulse data |
| `PulseEnumeration.NeverStoppingSeesAll` | ledger-core/pulse/pulse_range.go:384-416 | a visitor that never stops is shown the whole chain of numbers |
| `PulseEnumeration.NeverStoppingSeesAllData` | ledger-core/pulse/pulse_range.go:418-443 | and the whole list of data |
| `PulseEnumeration.DataProjectsToNumbers` | ledger-core/pulse/pulse_range.go:418-443 | the data enumerator projected to number and deltas is the number enumerator |
| `PulseEnumeration.ProvidedIsSubsequence` | ledger-core/pulse/pulse_range.go:463-479 | leaving out the articulated data gives exactly the provided data |
| `PulseEnumeration.DataLinked` | ledger-core/pulse/pulse_data.go:264-274 | consecutive emitted data are valid next of one another |
| `PulseEnumeration.ArticulatedIffEmitted` | ledger-core/pulse/pulse_range.go:481-483 | `IsArticulated` holds exactly when some emitted pulse is articulated |
| `PulseDataCache.PulseDataCache.constructor` | ledger-core/conveyor/pulse_cache.go:27-41 | an empty cache with the given number of rotations |
| `PulseDataCache.PulseDataCache.EvictAndRotate` | ledger-core/conveyor/pulse_cache.go:47-54 | the ring does to the abstract cache what eviction and a new generation do |
| `PulseDataCache.PulseDataCache.EvictOld` | ledger-core/conveyor/pulse_cache.go:70-91 | removes exactly the old numbers not touched in the last R generations, unless everything is kept |
| `PulseDataCache.PulseDataCache.RotateAccess` | ledger-core/conveyor/pulse_cache.go:230-243 | starts a new generation and forgets only touches R generations old |
| `PulseDataCache.PulseDataCache.GetAndTouch` | ledger-core/conveyor/pulse_cache.go:120-134 | returns the entry, if any, and leaves its number in the current access map |
| `PulseDataCache.PulseDataCache.Put` | ledger-core/conveyor/pulse_cache.go:170-219 | stores one shared entry under all provided numbers, or panics on a mismatched range; its other two panics are unreachable |
| `PulseDataCache.EvictLoop` | ledger-core/conveyor/pulse_cache.go:70-91 | keeps exactly the numbers that are recent enough or in some access map |
| `PulseDataCache.PutScan` | ledger-core/conveyor/pulse_cache.go:173-204 | mismatch found exactly when some number holds another range; all hits share one entry |
| `PulseDataCache.RingFresh` | ledger-core/conveyor/pulse_cache.go:221-228 | a number is in some access map exactly when its last touch is less than R generations old |
| `PulseDataCache.RingRotated` | ledger-core/conveyor/pulse_cache.go:230-243 | rotation keeps the ring in step with the last-touch map |
| `PulseDataCache.RingTouched` | ledger-core/conveyor/pulse_cache.go:226-228 | a touch keeps the ring in step with the last-touch map |
| `PulseDataCache.EvictByRing` | ledger-core/conveyor/pulse_cache.go:70-91 | eviction by access maps is eviction by age of last touch |
| `PulseDataCache.PutConsistent` | ledger-core/conveyor/pulse_cache.go:170-219 | a put keeps every number under a range that provides it, and equal ranges under one entry object |
| `PulseDataCache.PutKeepsOthersApart` | ledger-core/conveyor/pulse_cache.go:195-218 | numbers outside the range hold other ranges and other objects |
| `PulseDataCache.NewConsistent` | ledger-core/conveyor/pulse_cache.go:27-41 | a new cache is consistent |
| `PulseDataCache.RunConsistent` | ledger-core/conveyor/pulse_cache.go:170-219 | every run of operations keeps the cache consistent |
| `PulseDataCache.TouchedSurvives` | ledger-core/conveyor/pulse_cache.go:47-91 | what was touched in the current generation survives any operations with at most R evictions, for every R |
| `PulseDataCache.TouchProtects` | ledger-core/conveyor/pulse_cache.go:120-134 | a touch that finds its number, at once or late, protects it through the next R evictions, in every run |
| `PulseDataCache.PutProtects` | ledger-core/conveyor/pulse_cache.go:215-218 | so does a put, for every number of the range |
| `PulseDataCache.PutStoresExactly` | ledger-core/conveyor/pulse_cache.go:195-218 | which entry is stored, under which numbers, and that nothing else changes |
| `PulseDataCache.UnusedIsEvicted` | ledger-core/conveyor/pulse_cache.go:47-91 | what is left alone for R rotations is gone after the next eviction past its age |
| `PulseDataCache.EvictionBound` | ledger-core/conveyor/pulse_cache.go:71-77 | within the configured limits the bound is the plain difference, without wrap-around |
| `PulseSlot.AcceptsPresent` | ledger-core/conveyor/pulse_slot.go:146-183 | the scan with its captured flag gives the specified answer |
| `PulseSlot.AcceptedPresentExactly` | ledger-core/conveyor/pulse_slot.go:146-183 | for all deltas, exactly which numbers the present slot accepts |
| `PulseSlot.AcceptsIntendedExactly` | ledger-core/conveyor/pulse_slot.go:146-183 | for every range: each of its numbers is accepted exactly as meant if and only if the deltas of its provided pulses pass a stated check |
| `PulseSlot.GapAgreesExactly` | ledger-core/conveyor/pulse_slot.go:159-170 | between two provided pulses the scan agrees with what is meant exactly when the two intervals of numbers coincide |
| `PulseSlot.EqualDeltasAccept` | ledger-core/conveyor/pulse_slot.go:146-183 | ranges with equal deltas pass it: they accept the provided pulses, and if articulated whatever lies in no window |
| `PulseSlot.AcceptsBeyondExactly` | ledger-core/conveyor/pulse_slot.go:159-183 | for every range, a number past the right bound is accepted exactly when the range is articulated and its deltas let the number pass |
| `PulseSlot.UnequalDeltasAcceptMore` | ledger-core/conveyor/pulse_slot.go:159-170 | an input with unequal deltas for which a number between two linked pulses is accepted |
| `PulseSlot.UnequalDeltasRejectProvided` | ledger-core/conveyor/pulse_slot.go:159-170 | an input with unequal deltas for which a provided pulse is rejected |
| `PulseManager.StepKeepsInv` | ledger-core/conveyor/pulse_manager.go:105-141 | each atomic access of any call keeps the word's invariant and only advances it |
| `PulseManager.SwapsStore` | ledger-core/conveyor/pulse_manager.go:105-138 | when each swap takes effect, and that a commit stores its right bound and the number after it |
| `PulseManager.TraceInv` | ledger-core/conveyor/pulse_manager.go:105-141 | the invariant holds after every interleaving |
| `PulseManager.WordIsMonotone` | ledger-core/conveyor/conveyor.go:290-317 | in every interleaving presents strictly increase, the future is chosen at most once, and no routing call retries more than once |
| `SlotBoard.CommitKeepsBoard` | ledger-core/conveyor/conveyor.go:534-564 | a later commit meets none of the slot panics, keeps the alias invariant and the first key, and moves slots only forward |
| `SlotBoard.CommitRetiresPresent` | ledger-core/conveyor/conveyor.go:520-522 | the slot that was present becomes past |
| `SlotBoard.CommitDropsAlias` | ledger-core/conveyor/conveyor.go:537-541 | the alias kept from the commit before is unpublished |
| `SlotBoard.CommitPublishes` | ledger-core/conveyor/conveyor.go:546-558 | the present slot carries the range and is published under the present number |
| `SlotBoard.FirstCommitGivesBoard` | ledger-core/conveyor/conveyor.go:416-433 | the first commit, with or without a chosen future, establishes the alias invariant, and publishes the key 65536 exactly without one |
| `SlotBoard.ExpectedIsPulse` | ledger-core/conveyor/sm_pulse_slot.go:89-101 | the data a future slot is made with pass the checks of `setFuture` and `AsRange` |
| `SlotBoard.ExpectedDataIs` | ledger-core/conveyor/conveyor.go:381-389 | the expected pulse has the expected number, and the present one before it when that is near enough |
| `SlotBoard.OpenKeepsBoard` | ledger-core/conveyor/conveyor.go:374-414 | opening a future or antique slot panics nowhere, keeps the alias invariant and leaves the first key alone |
| `SlotBoard.TerminateKeepsBoard` | ledger-core/conveyor/sm_pulse_slot.go:117-126 | a past slot's finalizer unpublishes no alias of another slot |
| `ConveyorAliases.TerminateExactly` | ledger-core/conveyor/sm_pulse_slot.go:164-169 | a past slot stops and its finalizer's alias is unpublished; nothing else changes |
| `ConveyorAliases.RunStaysTidy` | ledger-core/conveyor/sm_pulse_slot.go:117-126 | in every run a time pulse is published only for the slot whose finalizer unpublishes it, for one without a finalizer, or until the next commit; and nothing a stopped slot's finalizer names is published |
| `ConveyorAliases.StoppedIsUnreached` | ledger-core/conveyor/conveyor.go:328-332 | in every run no input for a time pulse reaches a stopped slot that has a finalizer |
| `ConveyorSafety.CommitOutcome` | ledger-core/conveyor/conveyor.go:490-532 | in every reachable state, exactly which commits are accepted, rejected without effect, or broken off |
| `ConveyorSafety.CommitHasEffect` | ledger-core/conveyor/conveyor.go:490-564 | the whole state after an accepted commit |
| `ConveyorSafety.CommitKeepsInv` | ledger-core/conveyor/conveyor.go:490-564 | an accepted commit keeps the invariant and leaves no future slot and no waiting event |
| `ConveyorSafety.KeptByEviction` | ledger-core/conveyor/pulse_manager.go:140 | a commit's eviction keeps recent numbers and whatever is touched now |
| `ConveyorRuns.StepKeepsInv` | ledger-core/conveyor/conveyor.go:158-564 | every step keeps the invariant |
| `ConveyorRuns.RunKeepsInv` | ledger-core/conveyor/conveyor.go:158-564 | it holds in every state of every run |
| `ConveyorRuns.EveryReachableState` | ledger-core/conveyor/conveyor.go:288-564 | in every run: one chain of pulses, one present slot, safe routing of any number, and recent numbers cached |
| `ConveyorRuns.CommittedIsOneChain` | ledger-core/conveyor/conveyor.go:494-563 | all committed ranges enumerate as one linked, strictly increasing chain that ends at the present pulse and expects the future one |
| `ConveyorRuns.OnePresentSlot` | ledger-core/conveyor/conveyor.go:534-564 | exactly one slot is present, it is `presentMachine`, published under the present number; no later alias than the future |
| `ConveyorRuns.RoutingSafe` | ledger-core/conveyor/conveyor.go:288-362 | no illegal-state panic; the unknown and present numbers go to the present slot; numbers before the future are refused; future exactly within one expected step; no earlier number reaches a future slot |
| `ConveyorRouting.RoutedBackExactly` | ledger-core/conveyor/conveyor.go:328-353 | after a commit, every earlier pulse: past exactly when published; else antique exactly when it is not older than `maxPastPulseAge` and is before the present range or accepted by it; else refused |
| `ConveyorRouting.RoutedElseExactly` | ledger-core/conveyor/conveyor.go:319-361 | every other number: the present slot, the future slot within one expected step, or refused |
| `ConveyorRouting.RoutedFirstExactly` | ledger-core/conveyor/conveyor.go:290-317 | before the first commit, every number: what it is taken for and what future is chosen |
| `ConveyorRuns.FirstInput` | ledger-core/conveyor/conveyor.go:297-316 | before the first commit everything goes to one future slot |
| `ConveyorRuns.FirstKeyIsForGood` | ledger-core/conveyor/conveyor.go:537-547 | in every run the key 65536 is published after the first commit, and in every later state, exactly when no future had been chosen before it |
| `ConveyorRuns.BrokenBelowFuture` | ledger-core/conveyor/pulse_manager.go:126-131 | a reachable state and a first right bound below its chosen future that breaks the commit off |
| `ConveyorRuns.BrokenWithoutNext` | ledger-core/conveyor/pulse_manager.go:113-116 | a right bound with no next number that breaks the first commit off |
| `ConveyorRuns.AdmittedExactly` | ledger-core/conveyor/conveyor.go:215-263 | an input for the present pulse always finds its data; a past one exactly when they are cached; an antique one unless they are missing and recent |
| `ConveyorRouting.RecentExactly` | ledger-core/conveyor/pulse_manager.go:219-223 | recent means within the retention interval and not before the earliest bound |
| `ConveyorRouting.AntiqueAdmittedExactly` | ledger-core/conveyor/conveyor.go:237-259 | an antique input is refused exactly when its data are not cached and it is recent |
| `ConveyorRouting.InputKeepsData` | ledger-core/conveyor/conveyor.go:222-225 | an input that finds its data keeps them cached through the next commit |
| `ConveyorRouting.ReadKeepsData` | ledger-core/conveyor/pulse_cache.go:111-133 | and so does a read |
| `ConveyorRouting.EvictedExactly` | ledger-core/conveyor/pulse_cache.go:47-91 | a commit evicts, of the numbers it does not provide, exactly those past the retention interval that the last two generations did not touch |
| `ConveyorRouting.LoadedIsCached` | ledger-core/conveyor/pulse_manager.go:241-247 | loaded pulsar data are cached under every number they provide |
| `ConveyorRouting.PreparingExactly` | ledger-core/conveyor/pulse_manager.go:155-165 | which steps set and clear the preparing flag |
| `ConveyorRouting.BrokenLeavesSplit` | ledger-core/conveyor/pulse_manager.go:113-141 | a broken commit leaves the new slot present but the word as it was |
| `ConveyorRuns.FormerFutureInput` | ledger-core/conveyor/conveyor.go:222-225 | right after any commit past the expected number, an input for that number is refused for want of data exactly when the range does not provide it |
| `ConveyorRuns.LeftBoundInput` | ledger-core/conveyor/conveyor.go:222-225 | right after a later commit that number is the left bound of the range |
| `ConveyorRuns.ChosenFutureRefused` | ledger-core/conveyor/conveyor.go:222-225 | a first commit past the chosen future, whose number is then refused |
| `ConveyorRuns.FormerFutureRoutes` | ledger-core/conveyor/conveyor.go:328-332 | in every run, from such a commit until the next one, the number leads to the present slot as a past one and is admitted exactly when it is cached |
| `ConveyorRuns.FormerFutureEnds` | ledger-core/conveyor/conveyor.go:537-541 | in every run the next commit unpublishes it |
| `ConveyorRuns.EarliestAlongRun` | ledger-core/conveyor/pulse_manager.go:132-136 | in every run after the first commit the earliest bound is that commit's right bound exactly when no future had been chosen before it, and 0 otherwise |
| `ConveyorRuns.InputBeforeStart` | ledger-core/conveyor/conveyor.go:237-259 | in every run an uncached antique input before the first commit and within the retention interval is loaded without, and refused with, a future chosen first |
| `ConveyorRuns.RefusedBeforeStart` | ledger-core/conveyor/conveyor.go:248-259 | an input that is refused so |
| `ConveyorRuns.SlotsMoveForward` | ledger-core/conveyor/pulse_data_holder.go:53-75 | slots only move from future to present to past, whatever the step |
| `ConveyorRuns.RunIsMonotone` | ledger-core/conveyor/conveyor.go:494-563 | along a run commits only extend a valid-next run and no slot goes back |
| `ConveyorRuns.PreviousPulseIsKnown` | ledger-core/conveyor/pulse_slot.go:68-93 | after two commits, the last without a gap, both ways to ask give the previous present number, and its data are cached |
| `ConveyorRuns.PrevOperationExactly` | ledger-core/conveyor/pulse_slot.go:81-92 | a slot names a previous pulse exactly when its range has no gap and is not the first, and which |
| `ConveyorRuns.GetPrevBeatExactly` | ledger-core/conveyor/pulse_manager.go:87-103 | the manager names the same one, with its data exactly when they are cached |
| `ConveyorRuns.RecentPastIsCached` | ledger-core/conveyor/pulse_manager.go:219-223 | any number ever cached that is in the retention interval is a cache hit |
| `ConveyorRuns.CommitSettlesEvent` | ledger-core/conveyor/sm_future_event.go:40-64 | any commit wakes and then starts exactly the delayed events whose number the new present slot accepts, and fails all others |
| `ConveyorRuns.SingularCommitSettlesEvent` | ledger-core/conveyor/sm_future_event.go:40-64 | with a single pulse those are the events of that pulse |
| `ConveyorRuns.LaterEventStartsExactly` | ledger-core/conveyor/sm_future_event.go:40-64 | an event later than the new present pulse is started exactly when the range is articulated and its deltas let the number pass |
| `ConveyorRuns.LaterEventStarts` | ledger-core/conveyor/sm_future_event.go:40-64 | a run that starts an event for 100020 while 100015 is present |
| `ConveyorRuns.EventsEndByTheSecondCommit` | ledger-core/conveyor/sm_future_event.go:51-60 | in every run no event is still pending two commits later |
| `ConveyorEvents.PollOfFuture` | ledger-core/conveyor/pulse_slot.go:138-144 | an event in a future slot waits at a poll exactly when its number is not below the expected one |
| `ConveyorEvents.MigrationOfFuture` | ledger-core/conveyor/sm_future_event.go:51-60 | an event whose slot is still future at a migration would stop below the expected number and else be in the impossible state |
| `ConveyorEvents.PollBeforeFirst` | ledger-core/conveyor/sm_future_event.go:40-49 | before the first commit an event fails at a poll exactly when its number is below the chosen future |
| `ConveyorEvents.WaitsUntilCommit` | ledger-core/conveyor/sm_future_event.go:40-49 | in every run a waiting event goes on waiting until the next commit |
| `ConveyorEvents.InputIsDecided` | ledger-core/conveyor/conveyor.go:216-220 | in every run an event accepted as future waits from its input on, and the next commit wakes it exactly if the new present slot accepts its number |
| `ConveyorRuns.SettledIsFinal` | ledger-core/conveyor/sm_future_event.go:40-64 | no step changes a started or failed event |
| `ConveyorRuns.SettledForGood` | ledger-core/conveyor/sm_future_event.go:40-64 | so in every run it stays as it is from then on, and starts at most once |
| `ConveyorRuns.EventsNeverStuck` | ledger-core/conveyor/sm_future_event.go:51-60 | in every run the "impossible state" branch is not taken and no event waits past a commit |
| `PulseConveyor.PulseConveyor.constructor` | ledger-core/conveyor/pulse_manager.go:65-75 | the initial state |
| `PulseConveyor.PulseConveyor.GetFutureSlot` | ledger-core/conveyor/conveyor.go:374-391 | finds or publishes the slot of the expected number |
| `PulseConveyor.PulseConveyor.GetAntiqueSlot` | ledger-core/conveyor/conveyor.go:393-400 | finds or publishes the antique slot |
| `PulseConveyor.PulseConveyor.MapToPulseSlotMachine` | ledger-core/conveyor/conveyor.go:288-362 | the routing decision and its publishing, never a panic |
| `PulseConveyor.PulseConveyor.AddInputTo` | ledger-core/conveyor/conveyor.go:168-270 | takes exactly the input step, and tells exactly whether the input is added, not routed or without data |
| `PulseConveyor.PulseConveyor.PreparePulseChange` | ledger-core/conveyor/conveyor.go:451-466 | takes exactly the prepare step; fails exactly before the first commit |
| `PulseConveyor.PulseConveyor.CancelPulseChange` | ledger-core/conveyor/conveyor.go:468-479 | takes exactly the cancel step |
| `PulseConveyor.PulseConveyor.OnTerminate` | ledger-core/conveyor/sm_pulse_slot.go:164-169 | takes exactly the termination step |
| `PulseConveyor.PulseConveyor.MigratePulseSlots` | ledger-core/conveyor/conveyor.go:534-564 | the slots and aliases after a commit |
| `PulseConveyor.PulseConveyor.IsAcceptedFutureOrPresent` | ledger-core/conveyor/pulse_slot.go:138-144 | the specified answer, for any slot |
| `PulseConveyor.PulseConveyor.MigrateDelayed` | ledger-core/conveyor/sm_future_event.go:51-60 | migrates every delayed event |
| `PulseConveyor.PulseConveyor.RunDelayed` | ledger-core/conveyor/sm_future_event.go:40-49 | takes exactly the poll step |
| `PulseConveyor.PulseConveyor.SetPresentPulse` | ledger-core/conveyor/pulse_manager.go:124-138 | swaps the word unless it expects a later pulse |
| `PulseConveyor.PulseConveyor.CommitPulseChange` | ledger-core/conveyor/conveyor.go:490-564 | for every range: the state after an accepted commit, no change by a rejected one, and what a broken one leaves behind |
| `Reference.BinarySizeExact` | ledger-core/reference/marshal_holder.go:11-30 | the size functions give the number of bytes, for every reference |
| `Reference.HashLenLoop` | ledger-core/reference/local.go:156-161 | the length of the hash without trailing zeros |
| `Reference.LocalRoundTrip` | ledger-core/reference/marshal_local.go:124-162 | a local comes back from its bytes exactly when it is the zero value or has a pulse |
| `Reference.GlobalRoundTrip` | ledger-core/reference/marshal_holder.go:215-238 | a reference comes back from its bytes exactly under a stated condition, which well-formed parts meet |
| `Reference.AcceptedIsCanonical` | ledger-core/reference/marshal_local.go:124-162 | bytes accepted as a local with a pulse are the bytes it marshals to |
| `ReferenceLaws.HeaderIs` | ledger-core/reference/local.go:102-108 | a header is its scope and pulse number, most significant byte first |
| `ReferenceLaws.LocalBytesAre` | ledger-core/reference/marshal_local.go:11-57 | which locals take no bytes, all bytes, or bytes without trailing zeros |
| `ReferenceLaws.GlobalBytesAre` | ledger-core/reference/marshal_holder.go:32-71 | the four forms of a reference |
| `ReferenceLaws.LocalReadExactly` | ledger-core/reference/marshal_local.go:124-162 | exactly which bytes are accepted as which local |
| `ReferenceLaws.GlobalReadExactly` | ledger-core/reference/marshal_holder.go:215-238 | exactly which bytes are accepted as which reference |
| `ReferenceWriters.WriteWholeLocalTo` | ledger-core/reference/marshal_local.go:164-171 | as much of the whole local as fits, nothing without room for the header |
| `ReferenceWriters.MarshalLocalTo` | ledger-core/reference/marshal_local.go:37-57 | succeeds exactly with enough room, writes exactly the local's bytes, changes nothing outside the slice |
| `ReferenceWriters.MarshalLocalToSizedBuffer` | ledger-core/reference/marshal_local.go:59-88 | the same bytes at the end of the slice, nothing written on failure |
| `ReferenceWriters.MarshalTwoParts` | ledger-core/reference/marshal_holder.go:51-71 | local in full and then the base, four zeros for an empty one |
| `ReferenceWriters.MarshalTo` | ledger-core/reference/marshal_holder.go:32-49 | forward writer: exactly the reference's bytes, exactly when there is room |
| `ReferenceWriters.MarshalLocal` | ledger-core/reference/marshal_local.go:25-35 | exactly the local's bytes |
| `ReferenceWriters.Marshal` | ledger-core/reference/marshal_holder.go:73-108 | allocating writer: the same bytes; its "impossible" panic is not reachable |
| `ReferenceWriters.MarshalToSizedBuffer` | ledger-core/reference/marshal_holder.go:110-146 | backward writer: the same bytes at the end; without room a panic for a record, the error for any other |
| `ReferenceText.LocalTextParses` | ledger-core/reference/encoder.go:155-186 | an encoded local has no separators and parses to the local |
| `ReferenceText.SchemaNamesDecoder` | ledger-core/reference/decoder.go:116-140 | the decoder picks the encoder's byte codec exactly when the schema names it or it is the default |
| `ReferenceText.TextRoundTrip` | ledger-core/reference/decoder.go:56-95 | decode gives back what was encoded exactly for the zero value, records, and references whose parts both have pulses |
| `ReferenceTextLaws.HolderShows` | ledger-core/reference/global.go:153-164 | the holder of a text shows both parts of the decoded reference, and the zero value for one without a header |
| `ReferenceText.HolderDiffersExactly` | ledger-core/reference/decoder.go:64-70 | for every text, `DecodeHolder` differs from `Decode` exactly when the bytes of the local part are a hash without a header |
| `ReferenceText.HolderRoundTrip` | ledger-core/reference/decoder.go:64-70 | `DecodeHolder` gives back every reference that `Decode` does |
| `ReferenceText.HolderLosesHash` | ledger-core/reference/global.go:153-164 | a text on which the two differ |
| `ReferenceTextLaws.LocalTextIs` | ledger-core/reference/encoder.go:155-186 | the text of a local, with its prefix for each kind of pulse |
| `ReferenceTextLaws.BodyIs` | ledger-core/reference/encoder.go:78-121 | the text of a reference without its schema |
| `ReferenceTextLaws.PrefixIs` | ledger-core/reference/encoder.go:137-146 | the schema that every encoder writes |
| `ReferenceTextLaws.PartBytesExactly` | ledger-core/reference/decoder.go:296-322 | exactly which texts are accepted as a part, and with which bytes |
| `ReferenceTextLaws.PartReads` | ledger-core/reference/local.go:213-225 | how the bytes of a part fill the local |
| `ReferenceTextLaws.AddressReadExactly` | ledger-core/reference/decoder.go:199-292 | what two parts decode to, or that they are refused |
| `ReferenceTextLaws.LoneReadExactly` | ledger-core/reference/decoder.go:240-270 | what one part decodes to |
| `ReferenceTextLaws.ApplyBaseExactly` | ledger-core/reference/global.go:167-182 | when a base is applied to a local part |
| `ReferenceTextLaws.AuthorityIsLeftOut` | ledger-core/reference/decoder.go:142-154 | an authority is left out, and is not enough |
| `ReferenceTextLaws.ParityReadExactly` | ledger-core/reference/decoder.go:163-192 | what a parity makes of a reference, with the panic on a missing one |
| `ReferenceTextLaws.SchemaReadExactly` | ledger-core/reference/decoder.go:116-140 | exactly which schemas are accepted, for which codec |
| `ReferenceTextLaws.LongSchemaRefused` | ledger-core/reference/decoder.go:131-133 | a schema of more than two parts is refused |
| `ReferenceTextLaws.SchemaReads` | ledger-core/reference/decoder.go:72-80 | what follows a schema is read with its codec, and refused without one |
| `ReferenceTextLaws.NoSchemaReads` | ledger-core/reference/decoder.go:82-94 | a text without a schema that is not in the legacy form is read with base64 |
| `ReferenceTextLaws.LegacyReadExactly` | ledger-core/reference/decoder.go:82-114 | exactly when the legacy form is accepted |
| `ReferenceTextIO.ByteWriter.WriteByte` | ledger-core/reference/local.go:213-225 | replaces the next byte of the local until all 32 are written |
| `ReferenceTextIO.ByteReader.ReadByte` | ledger-core/reference/local.go:239-250 | gives the next byte of the local up to the limit |
| `ReferenceTextIO.ReadOut` | ledger-core/reference/byte_encoder.go:28-43 | reading to the end gives exactly the first bytes of the local |
| `ReferenceTextIO.WriteAll` | ledger-core/reference/byte_decoder.go:22-50 | succeeds exactly up to 32 bytes and leaves them, zero-filled, as the local |
| `ReferenceTextIO.EncodeBinary` | ledger-core/reference/encoder.go:155-186 | the specified text of a local |
| `ReferenceTextIO.EncodeToBuilder` | ledger-core/reference/encoder.go:72-153 | the specified text of a reference |
| `ReferenceTextIO.ParseBinaryAddress` | ledger-core/reference/decoder.go:296-322 | the specified local or error |
| `Varint.SovIsLength` | ledger-core/rms/proto_catalog.pb.go:1494-1496 | the predicted size is the encoded length |
| `Varint.ReadEncode` | ledger-core/rms/proto_catalog.pb.go:1326-1336 | reading back a varint gives the value and its length, whatever follows |
| `Varint.DecodeStable` | ledger-core/rms/proto_catalog.pb.go:2687-2720 | a varint that was read stays the same whatever is appended |
| `Varint.DecodeExactly` | ledger-core/rms/proto_catalog.pb.go:2594-2608 | exactly what is read from any bytes: a varint with its value, overflow, or end of data |
| `Varint.EncodeExactly` | ledger-core/rms/proto_catalog.pb.go:1326-1336 | every number is written as a varint of its value without a useless last byte |
| `Varint.ReadCuts` | ledger-core/rms/proto_catalog.pb.go:2722-2735 | the excess bits of a value too wide for its field fall off |
| `Varint.ReadVarintLoop` | ledger-core/rms/proto_catalog.pb.go:2594-2608 | the shifting loop reads the specified value, cut to the field's width, or overflow or end of data |
| `Varint.EncodeTo` | ledger-core/rms/proto_catalog.pb.go:1326-1336 | writes exactly the varint before the offset and nothing else |
| `FieldLoop.ReadLoop` | ledger-core/rms/proto_catalog.pb.go:2584-2681 | the loop over the data reads entry after entry |
| `FieldLoop.SkipLoop` | ledger-core/rms/proto_catalog.pb.go:2800-2877 | the skipping loop with its group depth |
| `FieldLoop.ReadAllAppend` | ledger-core/rms/proto_catalog.pb.go:2584-2681 | reading is a homomorphism on readable data |
| `ExtLocators.LocatorSizeExact` | ledger-core/rms/proto_catalog.pb.go:1476-1492 | the size of a locator is exact and at most 24 |
| `ExtLocators.ProtoSize` | ledger-core/rms/proto_catalog.pb.go:1461-1474 | the size of a list is exact |
| `ExtLocators.MarshalLocatorTo` | ledger-core/rms/proto_catalog.pb.go:1296-1324 | writes exactly the locator's bytes before the end and nothing else |
| `ExtLocators.MarshalLocatorsTo` | ledger-core/rms/proto_catalog.pb.go:1254-1276 | writes exactly the list's bytes before the end and nothing else |
| `ExtLocators.Marshal` | ledger-core/rms/proto_catalog.pb.go:1236-1247 | fills a buffer of the predicted size exactly |
| `ExtLocatorsReader.SkipProtoCatalog` | ledger-core/rms/proto_catalog.pb.go:2800-2877 | the extent of an unknown field, with nested groups |
| `ExtLocatorsReader.Unmarshal` | ledger-core/rms/proto_catalog.pb.go:2580-2681 | the specified list or error |
| `ExtLocatorsReader.LocatorRoundTrip` | ledger-core/rms/proto_catalog.pb.go:2687-2798 | a locator comes back from its bytes |
| `ExtLocatorsReader.LocatorsRoundTrip` | ledger-core/rms/proto_catalog.pb.go:2580-2681 | a list comes back from its bytes |
| `ExtLocatorsReader.LocatorsConcat` | ledger-core/rms/proto_catalog.pb.go:2580-2681 | bytes after a readable prefix add their locators to those of the prefix |
| `ExtLocatorsReader.ConcatenationRoundTrip` | ledger-core/rms/proto_catalog.pb.go:2580-2681 | two encodings one after the other give the two lists one after the other |
| `UnknownFields.SkippedExactly` | ledger-core/rms/proto_catalog.pb.go:2800-2877 | the skipper takes n bytes exactly when these are one well-formed field: a tag and a varint, 8 bytes, a length and as many bytes, 4 bytes, or a group of such fields |
| `UnknownFields.OneFieldSkipped` | ledger-core/rms/proto_catalog.pb.go:2800-2877 | it takes the whole of such a field, whatever follows |
| `UnknownFields.UnknownFieldIgnored` | ledger-core/rms/proto_catalog.pb.go:2655-2681 | a well-formed field of another number between records changes nothing |
| `UnknownFields.UnknownFieldInLocator` | ledger-core/rms/proto_catalog.pb.go:2780-2798 | nor does one inside a locator |
| `ExtLocatorLaws.Int32Exactly` | ledger-core/rms/proto_catalog.pb.go:2708 | the number in a tag is cut to an int32 |
| `ExtLocatorLaws.IdReads` | ledger-core/rms/proto_catalog.pb.go:2719-2735 | field 17 of a locator is a varint cut to 32 bits |
| `ExtLocatorLaws.LocReads` | ledger-core/rms/proto_catalog.pb.go:2736-2745 | field 18 is eight bytes, the least significant first |
| `ExtLocatorLaws.SizeReads` | ledger-core/rms/proto_catalog.pb.go:2746-2764 | field 20 is a varint cut to 32 bits |
| `ExtLocatorLaws.FieldRefused` | ledger-core/rms/proto_catalog.pb.go:2687-2766 | which fields of a locator are refused |
| `ExtLocatorLaws.EntryRefused` | ledger-core/rms/proto_catalog.pb.go:2584-2654 | which entries of a list are refused |
| `ExtLocatorLaws.RecordRefused` | ledger-core/rms/proto_catalog.pb.go:2616-2650 | a record is refused when its length runs past the data or its body is refused |
| `ExtLocatorLaws.LocatorsMerge` | ledger-core/rms/proto_catalog.pb.go:2687-2798 | two encodings of a locator read as the later values over the earlier ones |
| `ExtLocatorLaws.LocatorBytesAre` | ledger-core/rms/proto_catalog.pb.go:1254-1324 | the very bytes of some locators and lengths |

## Left out

- The state machine scheduler, workers, barge-ins, signals, adapters and the wake-up of sleeping machines: a signal body and the migration it starts are one step.
- PulseConveyor.PulseConveyor.MapToPulseSlotMachine: the retry loop is sequential here; its interleavings are in `PulseManager`.
- PulseConveyor.PulseConveyor.SetPresentPulse: the compare-and-swap loop is one step here; its interleavings are in `PulseManager`.
- PulseConveyor.PulseConveyor.AddInputTo: covers routing, publishing and the data an input needs; the event factory, its remapping of the target pulse, an inner machine that takes no event (and with it the redirect from a dying past slot) and the work of the antique loader are not modelled.
- PulseConveyor.PulseConveyor.CommitPulseChange: after a broken commit the conveyor is described but no further step of it is; the delayed events are taken not to migrate then.
- PulseConveyor.PulseConveyor.PreparePulseChange: the callback and the barge-in of the present slot are not modelled.
- PulseConveyor.PulseConveyor.CancelPulseChange: the barge-in of the present slot is not modelled.
- ConveyorRuns.RunKeepsInv: runs contain no broken commits, and loaded ranges end no later than the present pulse.
- PulseDataCache.PulseDataCache.GetAndTouch: the read under the shared lock and the touch under the exclusive one are one call here; runs of the cache and of the conveyor also let the touch come later, on its own. A nil access map reads as an empty one.
- PulseManager.WordIsMonotone: commits are those of pulsar data with a next number.
- ExtLocatorsReader.Unmarshal: the kinds of read error are not told apart, and the callback for unknown fields is always the skipper.
- ReferenceTextIO.ParseBinaryAddress: the kinds of error are not told apart; without a name decoder an alias is an error.
- ReferenceText.TextRoundTrip: base58 and base64 are any lossless byte codecs that avoid the separators and are no shorter than the bytes; the rest of the decoder is on values, not through pointers.
- Parity in the textual form: the encoder writes no prefix and the decoder demands one, so there is no round trip.
- Nil holders, JSON wrappers, name encoders and decoders of references.
- Timestamps and entropy of pulse data, kept as opaque fields; creation of new pulses.
- Component manager, global aliases, pulse changer, antique events, deadlines, logging and injection.
- The other generated protobuf messages, which repeat one template or depend on types not modelled here.
