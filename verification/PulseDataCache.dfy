/** The pulse data cache (ledger-core/conveyor/pulse_cache.go).
    Cache is the abstract view: which entries are held and in which generation each number was last
    touched. The class keeps a ring of access maps instead and is proved to refine it. The identity
    of a *cacheEntry is its allocation number. */
module PulseDataCache {
  import opened PulseNumber
  import opened PulseData
  import opened PulseRange

  datatype BeatData = BeatData(range: Range, online: nat)

  datatype CacheEntry = CacheEntry(id: nat, beat: BeatData)

  /** The numbers a range is cached under: its provided pulses. */
  function Keys(r: Range): (ks: set<Number>)
    requires Valid(r)
  {
    set d | d in ProvidedData(r) :: d.pn
  }

  lemma {:induction false} RightBoundIsKey(r: Range)
    requires Valid(r)
    ensures RightBoundData(r) in ProvidedData(r) && RightBoundData(r).pn in Keys(r)
  {
  }

  datatype Cache = Cache(
    minRange: Number, rotations: nat,
    entries: map<Number, CacheEntry>, last: map<Number, nat>, gen: nat, allocs: nat)

  /** Equal ranges share one entry object, and one object is one entry. */
  ghost predicate Shared(entries: map<Number, CacheEntry>) {
    forall p, q :: p in entries && q in entries
                   && (entries[p].beat.range == entries[q].beat.range || entries[p].id == entries[q].id) ==>
      entries[p] == entries[q]
  }

  /** What every operation keeps: a number is cached only under a range that provides it. */
  ghost predicate Consistent(c: Cache) {
    && c.rotations >= 1
    && (forall pn :: pn in c.last ==> c.last[pn] <= c.gen)
    && (forall pn {:trigger ValidUnder(c.entries[pn], pn, c.allocs)} :: pn in c.entries ==>
          ValidUnder(c.entries[pn], pn, c.allocs))
    && Shared(c.entries)
  }

  ghost predicate ValidUnder(ce: CacheEntry, pn: Number, allocs: nat) {
    ce.id < allocs && Valid(ce.beat.range) && pn in Keys(ce.beat.range)
  }

  /** m with every key of ks set to v. */
  function Assign<V>(m: map<Number, V>, ks: set<Number>, v: V): (r: map<Number, V>)
    ensures r.Keys == m.Keys + ks && forall k :: k in r ==> r[k] == if k in ks then v else m[k]
  {
    m + map k | k in ks :: v
  }

  function NewCache(minRange: Number, rotations: nat): Cache { Cache(minRange, rotations, map[], map[], 0, 0) }

  // ------------------------------------------------------------ operations on the abstract view

  predicate TouchedNow(c: Cache, pn: Number) { pn in c.last && c.last[pn] == c.gen }

  predicate Hit(c: Cache, pn: Number) { pn in c.entries && TouchedNow(c, pn) }

  /** Touched in none of the last `rotations` generations. */
  predicate Stale(c: Cache, pn: Number) { pn in c.last ==> c.gen - c.last[pn] >= c.rotations }

  predicate KeepsAll(c: Cache, current: Number) { Add32(MIN_TIME_PULSE, c.minRange) >= current }

  function MinKept(c: Cache, current: Number): Number { OfUint32(Sub32(current, c.minRange)) }

  predicate Evictable(c: Cache, current: Number, pn: Number) {
    !KeepsAll(c, current) && pn < MinKept(c, current) && Stale(c, pn)
  }

  function Evict(c: Cache, current: Number): Cache {
    c.(entries := map pn | pn in c.entries && !Evictable(c, current, pn) :: c.entries[pn])
  }

  function Mark(c: Cache, pn: Number): Cache { c.(last := Assign(c.last, {pn}, c.gen)) }

  function EvictAndRotateOf(c: Cache, current: Number): Cache {
    Mark(Evict(c, current).(gen := c.gen + 1), current)
  }

  /** Get and Touch: a number that is cached becomes touched in the current generation. */
  function Touch(c: Cache, pn: Number): Cache { if pn in c.entries then Mark(c, pn) else c }

  predicate CanPut(c: Cache, r: Range)
    requires Valid(r)
  {
    forall pn :: pn in Keys(r) && pn in c.entries ==> c.entries[pn].beat.range == r
  }

  /** The entry Put stores: that of a number touched now, else a new one. */
  ghost function EntryFor(c: Cache, ks: set<Number>, bd: BeatData): CacheEntry {
    if exists pn :: pn in ks && Hit(c, pn) then
      var pn :| pn in ks && Hit(c, pn);
      c.entries[pn]
    else CacheEntry(c.allocs, bd)
  }

  ghost function PutUnder(c: Cache, ks: set<Number>, bd: BeatData): Cache {
    var ce := EntryFor(c, ks, bd);
    c.(entries := Assign(c.entries, ks, ce),
       last := Assign(c.last, ks, c.gen),
       allocs := if ce.id == c.allocs then c.allocs + 1 else c.allocs)
  }

  ghost function PutOf(c: Cache, bd: BeatData): Cache
    requires Valid(bd.range)
  {
    PutUnder(c, Keys(bd.range), bd)
  }

  // ------------------------------------------------------------ what every operation keeps

  lemma {:induction false} NewConsistent(minRange: Number, rotations: nat)
    requires rotations >= 1
    ensures Consistent(NewCache(minRange, rotations))
  {
  }

  lemma {:induction false} EvictConsistent(c: Cache, current: Number)
    requires Consistent(c)
    ensures Consistent(Evict(c, current)) && Consistent(EvictAndRotateOf(c, current))
  {
  }

  lemma {:induction false} RotateConsistent(c: Cache)
    requires Consistent(c)
    ensures Consistent(c.(gen := c.gen + 1))
  {
  }

  lemma {:induction false} MarkConsistent(c: Cache, pn: Number)
    requires Consistent(c)
    ensures Consistent(Mark(c, pn))
  {
  }

  lemma {:induction false} SharedUpdate(entries: map<Number, CacheEntry>, ks: set<Number>, ce: CacheEntry)
    requires Shared(entries)
    requires forall p :: p in entries && p !in ks ==> entries[p].beat.range != ce.beat.range && entries[p].id != ce.id
    ensures Shared(Assign(entries, ks, ce))
  {
  }

  /** A number outside the range is cached under another range and another object. */
  lemma {:induction false} PutKeepsOthersApart(c: Cache, bd: BeatData)
    requires Consistent(c) && Valid(bd.range) && CanPut(c, bd.range)
    ensures var ce := EntryFor(c, Keys(bd.range), bd);
            && ce.beat.range == bd.range && ce.id <= c.allocs
            && forall p :: p in c.entries && p !in Keys(bd.range) ==>
                 c.entries[p].beat.range != bd.range && c.entries[p].id != ce.id
  {
    var ks := Keys(bd.range);
    if exists pn :: pn in ks && Hit(c, pn) {
      var pn :| pn in ks && Hit(c, pn) && EntryFor(c, ks, bd) == c.entries[pn];
      assert ValidUnder(c.entries[pn], pn, c.allocs);
    }
    forall p | p in c.entries && p !in ks
      ensures c.entries[p].beat.range != bd.range && c.entries[p].id != EntryFor(c, ks, bd).id
    {
      assert ValidUnder(c.entries[p], p, c.allocs);
    }
  }

  lemma {:induction false} PutConsistent(c: Cache, bd: BeatData)
    requires Consistent(c) && Valid(bd.range) && CanPut(c, bd.range)
    ensures Consistent(PutOf(c, bd))
  {
    PutKeepsOthersApart(c, bd);
    SharedUpdate(c.entries, Keys(bd.range), EntryFor(c, Keys(bd.range), bd));
    forall p | p in PutOf(c, bd).entries
      ensures ValidUnder(PutOf(c, bd).entries[p], p, PutOf(c, bd).allocs)
    {
      PutValidUnder(c, bd, Keys(bd.range), EntryFor(c, Keys(bd.range), bd), p);
    }
  }

  lemma {:induction false} PutValidUnder(c: Cache, bd: BeatData, ks: set<Number>, ce: CacheEntry, p: Number)
    requires Valid(bd.range) && ks == Keys(bd.range) && ce.beat.range == bd.range && ce.id <= c.allocs
    requires p in c.entries || p in ks
    requires p in c.entries ==> ValidUnder(c.entries[p], p, c.allocs)
    ensures ValidUnder(Assign(c.entries, ks, ce)[p], p, if ce.id == c.allocs then c.allocs + 1 else c.allocs)
  {
  }

  // ------------------------------------------------------------ the ring of access maps

  /** Where the map of k generations ago is in a ring of n maps. */
  function RingIndex(idx: nat, k: nat, n: nat): (i: nat)
    requires idx < n && k < n
    ensures i < n
  {
    if k <= idx then idx - k else idx + n - k
  }

  /** The ring holds the last |access| generations of touches. */
  ghost predicate RingOf(access: seq<set<Number>>, idx: nat, last: map<Number, nat>, gen: nat) {
    && idx < |access|
    && (forall k, pn :: 0 <= k < |access| && pn in access[RingIndex(idx, k, |access|)] ==>
          pn in last && last[pn] <= gen <= last[pn] + k)
    && (forall pn :: pn in last && gen - last[pn] < |access| && last[pn] <= gen ==>
          pn in access[RingIndex(idx, gen - last[pn], |access|)])
  }

  predicate InRing(access: seq<set<Number>>, pn: Number) { exists i :: 0 <= i < |access| && pn in access[i] }

  lemma {:induction false} RingFresh(access: seq<set<Number>>, idx: nat, last: map<Number, nat>, gen: nat, pn: Number)
    requires RingOf(access, idx, last, gen) && forall p :: p in last ==> last[p] <= gen
    ensures InRing(access, pn) <==> (pn in last && gen - last[pn] < |access|)
    ensures pn in access[idx] <==> (pn in last && last[pn] == gen)
  {
    var n := |access|;
    assert RingIndex(idx, 0, n) == idx;
    if i :| 0 <= i < n && pn in access[i] {
      var k := if i <= idx then idx - i else idx + n - i;
      assert RingIndex(idx, k, n) == i;
    }
  }

  lemma {:induction false} RingTouched(access: seq<set<Number>>, idx: nat, last: map<Number, nat>, gen: nat,
                                       pns: set<Number>)
    requires RingOf(access, idx, last, gen)
    ensures RingOf(access[idx := access[idx] + pns], idx, Assign(last, pns, gen), gen)
  {
  }

  lemma {:induction false} RotatedCoherent(c: Cache, access: seq<set<Number>>, idx: nat)
    requires Consistent(c) && RingOf(access, idx, c.last, c.gen)
    ensures var idx' := if idx + 1 >= |access| then 0 else idx + 1;
            Consistent(c.(gen := c.gen + 1)) && RingOf(access[idx' := {}], idx', c.last, c.gen + 1)
  {
    RotateConsistent(c);
    RingRotated(access, idx, c.last, c.gen);
  }

  lemma {:induction false} RingRotated(access: seq<set<Number>>, idx: nat, last: map<Number, nat>, gen: nat)
    requires RingOf(access, idx, last, gen) && forall p :: p in last ==> last[p] <= gen
    ensures var idx' := if idx + 1 >= |access| then 0 else idx + 1;
            RingOf(access[idx' := {}], idx', last, gen + 1)
  {
    var n := |access|;
    var idx' := if idx + 1 >= n then 0 else idx + 1;
    var access' := access[idx' := {}];
    forall k, pn | 0 <= k < n && pn in access'[RingIndex(idx', k, n)]
      ensures pn in last && last[pn] <= gen + 1 <= last[pn] + k
    {
      RingIndexStep(idx, idx', k, n);
      assert pn in access[RingIndex(idx, k - 1, n)];
    }
    forall pn | pn in last && gen + 1 - last[pn] < n && last[pn] <= gen + 1
      ensures pn in access'[RingIndex(idx', gen + 1 - last[pn], n)]
    {
      RingIndexStep(idx, idx', gen + 1 - last[pn], n);
    }
  }

  lemma {:induction false} RingIndexStep(idx: nat, idx': nat, k: nat, n: nat)
    requires idx < n && k < n && idx' == if idx + 1 >= n then 0 else idx + 1
    ensures if k == 0 then RingIndex(idx', k, n) == idx'
            else RingIndex(idx', k, n) == RingIndex(idx, k - 1, n) != idx'
  {
  }

  /** The loop of _evict: old numbers that no access map holds are deleted. */
  method EvictLoop(cache: map<Number, CacheEntry>, access: seq<set<Number>>, minPN: Number)
    returns (kept: map<Number, CacheEntry>)
    ensures kept == map pn | pn in cache && (pn >= minPN || InRing(access, pn)) :: cache[pn]
  {
    kept := cache;
    var todo := cache.Keys;
    while todo != {}
      invariant todo <= kept.Keys <= cache.Keys
      invariant forall pn :: pn in kept ==> kept[pn] == cache[pn]
      invariant forall pn :: pn in cache.Keys - todo ==> (pn in kept <==> pn >= minPN || InRing(access, pn))
    {
      var pn :| pn in todo;
      todo := todo - {pn};
      if pn < minPN && !InRing(access, pn) {
        kept := kept - {pn};
      }
    }
  }

  /** Numbers of ks that are cached and touched in the current generation. */
  function Hits(ks: set<Number>, cache: map<Number, CacheEntry>, touched: set<Number>): set<Number> {
    set pn | pn in ks && pn in cache && pn in touched
  }

  datatype Scan = Scan(failure: Option<PutOutcome>, found: Option<CacheEntry>, pns: set<Number>)

  function NumbersIn(ds: seq<Data>): set<Number> { set d | d in ds :: d.pn }

  lemma {:induction false} NumbersInSnoc(ds: seq<Data>, d: Data)
    ensures NumbersIn(ds + [d]) == NumbersIn(ds) + {d.pn}
  {
  }

  /** The visitor loop of Put: which numbers have to be written, and whose entry they will share. */
  method PutScan(ds: seq<Data>, range: Range, cache: map<Number, CacheEntry>, touched: set<Number>) returns (s: Scan)
    requires Shared(cache)
    ensures s.failure == if forall pn :: pn in NumbersIn(ds) && pn in cache ==> cache[pn].beat.range == range
                         then None else Some(MismatchedRange)
    ensures s.failure.None? ==> s.pns == NumbersIn(ds) - Hits(NumbersIn(ds), cache, touched)
    ensures s.failure.None? ==> (s.found.None? <==> Hits(NumbersIn(ds), cache, touched) == {})
    ensures s.failure.None? && s.found.Some? ==>
              forall pn :: pn in Hits(NumbersIn(ds), cache, touched) ==> cache[pn] == s.found.value
  {
    var pns: set<Number>, found: Option<CacheEntry> := {}, None;
    for i := 0 to |ds|
      invariant forall pn :: pn in NumbersIn(ds[..i]) && pn in cache ==> cache[pn].beat.range == range
      invariant pns == NumbersIn(ds[..i]) - Hits(NumbersIn(ds[..i]), cache, touched)
      invariant found.None? <==> Hits(NumbersIn(ds[..i]), cache, touched) == {}
      invariant found.Some? ==> forall pn :: pn in Hits(NumbersIn(ds[..i]), cache, touched) ==> cache[pn] == found.value
    {
      var pn := ds[i].pn;
      assert ds[..i + 1] == ds[..i] + [ds[i]];
      NumbersInSnoc(ds[..i], ds[i]);
      if pn in cache && cache[pn].beat.range != range {
        assert ds[i] in ds && pn in NumbersIn(ds);
        return Scan(Some(MismatchedRange), found, pns);
      }
      if pn in cache && pn in touched {
        assert pn in Hits(NumbersIn(ds[..i + 1]), cache, touched);
        if found.None? {
          found := Some(cache[pn]);
        } else {
          ghost var p :| p in Hits(NumbersIn(ds[..i]), cache, touched);
          assert cache[p] == cache[pn];
          if found.value.id != cache[pn].id {
            return Scan(Some(InconsistentCache), found, pns);
          }
        }
      } else {
        pns := pns + {pn};
      }
    }
    assert ds[..|ds|] == ds;
    s := Scan(None, found, pns);
  }

  /** The last loop of Put: one entry under every number collected, each of them touched. */
  method PutStore(cache: map<Number, CacheEntry>, touched: set<Number>, pns: set<Number>, ce: CacheEntry)
    returns (cache': map<Number, CacheEntry>, touched': set<Number>)
    ensures cache' == Assign(cache, pns, ce)
    ensures touched' == touched + pns
  {
    cache', touched' := cache, touched;
    var todo := pns;
    ghost var done: set<Number> := {};
    AssignNothing(cache, ce);
    while todo != {}
      invariant done + todo == pns && cache' == Assign(cache, done, ce) && touched' == touched + done
    {
      var pn :| pn in todo;
      todo := todo - {pn};
      AssignMore(cache, done, pn, ce);
      cache' := cache'[pn := ce];
      touched' := touched' + {pn};
      done := done + {pn};
    }
  }

  lemma {:induction false} AssignNothing<V>(m: map<Number, V>, v: V)
    ensures Assign(m, {}, v) == m
  {
  }

  lemma {:induction false} AssignMore<V>(m: map<Number, V>, ks: set<Number>, k: Number, v: V)
    ensures Assign(m, ks + {k}, v) == Assign(m, ks, v)[k := v]
  {
  }

  /** Keys that already hold the value can be left out. */
  lemma {:induction false} AssignFewer<V>(m: map<Number, V>, ks: set<Number>, same: set<Number>, v: V)
    requires forall k :: k in same ==> k in m && m[k] == v
    ensures Assign(m, ks, v) == Assign(m, ks - same, v)
  {
  }

  lemma {:induction false} EvictByRing(c: Cache, current: Number, access: seq<set<Number>>, idx: nat)
    requires Consistent(c) && RingOf(access, idx, c.last, c.gen) && |access| == c.rotations
    ensures Evict(c, current).entries ==
            if KeepsAll(c, current) then c.entries
            else map pn | pn in c.entries && (pn >= MinKept(c, current) || InRing(access, pn)) :: c.entries[pn]
  {
    forall pn
      ensures InRing(access, pn) <==> !Stale(c, pn)
    {
      RingFresh(access, idx, c.last, c.gen, pn);
    }
  }

  datatype PutOutcome = Stored | MismatchedRange | InconsistentCache | NoNumbers

  class PulseDataCache {
    const minRange: Number
    var cache: map<Number, CacheEntry>
    var access: seq<set<Number>>  // a nil access map reads as an empty one
    var accessIdx: nat
    var allocs: nat               // identities handed out so far
    ghost var last: map<Number, nat>
    ghost var gen: nat

    ghost function View(): Cache
      reads this
    {
      Cache(minRange, |access|, cache, last, gen, allocs)
    }

    ghost predicate Coherent()
      reads this
    {
      Consistent(View()) && RingOf(access, accessIdx, last, gen)
    }

    // no or negative rotations panic
    constructor (minRange: Number, accessRotations: nat)
      requires accessRotations >= 1
      ensures Coherent() && View() == NewCache(minRange, accessRotations)
    {
      this.minRange, cache, accessIdx, allocs := minRange, map[], 0, 0;
      access := seq(accessRotations, _ => {});
      last, gen := map[], 0;
    }

    method EvictAndRotate(current: Number)
      requires Coherent()
      modifies this
      ensures Coherent() && View() == EvictAndRotateOf(old(View()), current)
    {
      EvictOld(current);
      RotateTo(current);
    }

    /** A new generation, in which the current number is touched. */
    method RotateTo(current: Number)
      requires Coherent()
      modifies this`access, this`accessIdx, this`gen, this`last
      ensures Coherent() && View() == Mark(old(View()).(gen := old(gen) + 1), current)
    {
      RotateAccess();
      MarkNow(current);
    }

    method EvictOld(current: Number)
      requires Coherent()
      modifies this`cache
      ensures Coherent() && View() == Evict(old(View()), current)
    {
      EvictConsistent(View(), current);
      EvictByRing(View(), current, access, accessIdx);
      if Add32(MIN_TIME_PULSE, minRange) < current {
        cache := EvictLoop(cache, access, OfUint32(Sub32(current, minRange)));
      }
    }

    method RotateAccess()
      requires Coherent()
      modifies this`access, this`accessIdx, this`gen
      ensures Coherent() && View() == old(View()).(gen := old(gen) + 1)
    {
      ghost var c := View();
      RotatedCoherent(c, access, accessIdx);
      var next := if accessIdx + 1 >= |access| then 0 else accessIdx + 1;
      accessIdx, access, gen := next, access[next := {}], gen + 1;
      assert View() == c.(gen := c.gen + 1);
    }

    method MarkNow(pn: Number)
      requires Coherent()
      modifies this`access, this`last
      ensures Coherent() && View() == Mark(old(View()), pn)
    {
      RingTouched(access, accessIdx, last, gen, {pn});
      MarkConsistent(View(), pn);
      access := access[accessIdx := access[accessIdx] + {pn}];
      last := Assign(last, {pn}, gen);
    }

    /** getAndTouch, Get and Touch: the cached entry, if any, and one more touch. */
    method GetAndTouch(pn: Number) returns (ce: Option<CacheEntry>)
      requires Coherent()
      modifies this`access, this`last
      ensures Coherent() && View() == Touch(old(View()), pn)
      ensures ce == if pn in cache then Some(cache[pn]) else None
      ensures ce.Some? ==> pn in access[accessIdx]
    {
      RingFresh(access, accessIdx, last, gen, pn);
      if pn !in cache {
        return None;
      }
      ce := Some(cache[pn]);
      if pn !in access[accessIdx] {
        MarkNow(pn);
      } else {
        assert Assign(last, {pn}, gen) == last;
      }
    }

    /** A new range is stored under its provided numbers unless one of them holds another range; the
        "inconsistent pulse.Range cache" and "no numbers" panics are not reachable. */
    method Put(bd: BeatData) returns (o: PutOutcome)
      requires Coherent() && Valid(bd.range)
      modifies this
      ensures Coherent()
      ensures o == if CanPut(old(View()), bd.range) then Stored else MismatchedRange
      ensures View() == if o.Stored? then PutOf(old(View()), bd) else old(View())
    {
      ghost var c := View();
      var cache', allocs', access';
      ghost var c';
      o, cache', allocs', access', c' := PutCore(bd, cache, allocs, access, accessIdx, c);
      cache, allocs, access, last := cache', allocs', access', c'.last;
      assert View() == c';
    }
  }

  /** Put, on the values of the fields it reads and writes; c is the view before and c' the one after it. */
  method PutCore(bd: BeatData, cache: map<Number, CacheEntry>, allocs: nat, access: seq<set<Number>>, idx: nat,
                 ghost c: Cache)
    returns (o: PutOutcome, cache': map<Number, CacheEntry>, allocs': nat, access': seq<set<Number>>, ghost c': Cache)
    requires Consistent(c) && c.entries == cache && c.allocs == allocs && Valid(bd.range)
    requires RingOf(access, idx, c.last, c.gen)
    ensures o == if CanPut(c, bd.range) then Stored else MismatchedRange
    ensures c' == if o.Stored? then PutOf(c, bd) else c
    ensures c' == c.(entries := cache', last := c'.last, allocs := allocs') && |access'| == |access|
    ensures Consistent(c') && RingOf(access', idx, c'.last, c'.gen)
  {
    cache', allocs', access', c' := cache, allocs, access, c;
    TouchedNowIsCurrentMap(c, access, idx);
    var touched := access[idx];
    var s := PutScan(ProvidedData(bd.range), bd.range, cache, touched);
    assert NumbersIn(ProvidedData(bd.range)) == Keys(bd.range);
    if s.failure.Some? {
      return s.failure.value, cache', allocs', access', c';
    }
    var ce := if s.found.Some? then s.found.value else CacheEntry(allocs, bd);
    HitIsAllocated(c, bd.range, touched, s.found);
    PutScanGivesEntry(c, Keys(bd.range), bd, touched, s);
    if s.found.None? {
      RightBoundIsKey(bd.range);
      if s.pns == {} {
        return NoNumbers, cache', allocs', access', c';
      }
      allocs' := allocs + 1;
    }
    cache', touched := PutStore(cache, touched, s.pns, ce);
    PutCoherent(c, bd, access, idx, touched, s.pns);
    o, access', c' := Stored, access[idx := touched], PutOf(c, bd);
  }

  lemma {:induction false} PutCoherent(c: Cache, bd: BeatData, access: seq<set<Number>>, idx: nat,
                                       touched: set<Number>, pns: set<Number>)
    requires Consistent(c) && Valid(bd.range) && CanPut(c, bd.range) && RingOf(access, idx, c.last, c.gen)
    requires touched == access[idx] + pns && Assign(c.last, pns, c.gen) == PutOf(c, bd).last
    ensures var c' := PutOf(c, bd); Consistent(c') && RingOf(access[idx := touched], idx, c'.last, c'.gen)
  {
    PutConsistent(c, bd);
    RingTouched(access, idx, c.last, c.gen, pns);
  }

  lemma {:induction false} TouchedNowIsCurrentMap(c: Cache, access: seq<set<Number>>, idx: nat)
    requires Consistent(c) && RingOf(access, idx, c.last, c.gen)
    ensures forall pn :: pn in access[idx] <==> TouchedNow(c, pn)
  {
    forall pn
      ensures pn in access[idx] <==> TouchedNow(c, pn)
    {
      RingFresh(access, idx, c.last, c.gen, pn);
    }
  }

  lemma {:induction false} HitIsAllocated(c: Cache, r: Range, touched: set<Number>, found: Option<CacheEntry>)
    requires Consistent(c) && Valid(r)
    requires found.Some? ==> Hits(Keys(r), c.entries, touched) != {}
    requires found.Some? ==> forall pn :: pn in Hits(Keys(r), c.entries, touched) ==> c.entries[pn] == found.value
    ensures found.Some? ==> found.value.id < c.allocs
  {
    if found.Some? {
      var p :| p in Hits(Keys(r), c.entries, touched);
      assert ValidUnder(c.entries[p], p, c.allocs);
    }
  }

  lemma {:induction false} PutScanGivesEntry(c: Cache, ks: set<Number>, bd: BeatData, touched: set<Number>, s: Scan)
    requires s.found.Some? ==> s.found.value.id < c.allocs
    requires forall pn :: pn in touched <==> TouchedNow(c, pn)
    requires var hits := Hits(ks, c.entries, touched);
             && s.pns == ks - hits && (s.found.None? <==> hits == {})
             && (s.found.Some? ==> forall pn :: pn in hits ==> c.entries[pn] == s.found.value)
    ensures var ce := if s.found.Some? then s.found.value else CacheEntry(c.allocs, bd);
            && PutUnder(c, ks, bd).entries == Assign(c.entries, s.pns, ce)
            && PutUnder(c, ks, bd).last == Assign(c.last, s.pns, c.gen)
            && PutUnder(c, ks, bd).allocs == if s.found.Some? then c.allocs else c.allocs + 1
  {
    var ce, hits := if s.found.Some? then s.found.value else CacheEntry(c.allocs, bd), Hits(ks, c.entries, touched);
    HitsAre(c, ks, touched);
    EntryIs(c, ks, bd, hits, ce);
    AssignFewer(c.entries, ks, hits, ce);
    AssignFewer(c.last, ks, hits, c.gen);
  }

  lemma {:induction false} HitsAre(c: Cache, ks: set<Number>, touched: set<Number>)
    requires forall pn :: pn in touched <==> TouchedNow(c, pn)
    ensures forall pn :: pn in Hits(ks, c.entries, touched) <==> pn in ks && Hit(c, pn)
  {
  }

  lemma {:induction false} EntryIs(c: Cache, ks: set<Number>, bd: BeatData, hits: set<Number>, ce: CacheEntry)
    requires forall pn :: pn in hits <==> pn in ks && Hit(c, pn)
    requires hits == {} ==> ce == CacheEntry(c.allocs, bd)
    requires forall pn :: pn in hits ==> pn in c.entries && c.entries[pn] == ce
    ensures EntryFor(c, ks, bd) == ce
  {
  }

  // ------------------------------------------------------------ runs

  /** OpLateTouch is the locked half of a touch whose unlocked half found the number earlier. */
  datatype Op =
    | OpPut(bd: BeatData)
    | OpTouch(pn: Number)
    | OpLateTouch(pn: Number)
    | OpEvictAndRotate(current: Number)

  /** One operation; a Put that panics on a mismatched range changes nothing. */
  ghost function Apply(c: Cache, op: Op): Cache {
    match op
    case OpPut(bd) => if Valid(bd.range) && CanPut(c, bd.range) then PutOf(c, bd) else c
    case OpTouch(pn) => Touch(c, pn)
    case OpLateTouch(pn) => Mark(c, pn)
    case OpEvictAndRotate(current) => EvictAndRotateOf(c, current)
  }

  ghost function Run(c: Cache, ops: seq<Op>): Cache
    decreases |ops|
  {
    if ops == [] then c else Run(Apply(c, ops[0]), ops[1..])
  }

  function Rotations(ops: seq<Op>): nat {
    if ops == [] then 0 else (if ops[0].OpEvictAndRotate? then 1 else 0) + Rotations(ops[1..])
  }

  lemma {:induction false} RunConsistent(c: Cache, ops: seq<Op>)
    requires Consistent(c)
    ensures Consistent(Run(c, ops))
    decreases |ops|
  {
    if ops != [] {
      ApplyConsistent(c, ops[0]);
      RunConsistent(Apply(c, ops[0]), ops[1..]);
    }
  }

  lemma {:induction false} ApplyConsistent(c: Cache, op: Op)
    requires Consistent(c)
    ensures Consistent(Apply(c, op))
  {
    match op
    case OpPut(bd) => if Valid(bd.range) && CanPut(c, bd.range) { PutConsistent(c, bd); }
    case OpTouch(pn) => MarkConsistent(c, pn);
    case OpLateTouch(pn) => MarkConsistent(c, pn);
    case OpEvictAndRotate(current) => EvictConsistent(c, current);
  }

  /** Held with range r and last touched in generation g or later. */
  ghost predicate HeldSince(c: Cache, pn: Number, r: Range, g: int) {
    pn in c.entries && c.entries[pn].beat.range == r && pn in c.last && g <= c.last[pn] <= c.gen
  }

  lemma {:induction false} ApplyKeepsHeld(c: Cache, op: Op, pn: Number, r: Range, g: int)
    requires Consistent(c) && HeldSince(c, pn, r, g)
    requires op.OpEvictAndRotate? ==> c.gen - g < c.rotations || pn >= MinKept(c, op.current) || KeepsAll(c, op.current)
    ensures HeldSince(Apply(c, op), pn, r, g)
  {
  }

  /** With R rotations, an entry touched now is still held, with the same range, after any run of
      operations that evicts at most R times. */
  lemma {:induction false} TouchedSurvives(c: Cache, ops: seq<Op>, pn: Number, r: Range)
    requires Consistent(c) && HeldSince(c, pn, r, c.gen) && Rotations(ops) <= c.rotations
    ensures HeldSince(Run(c, ops), pn, r, c.gen)
  {
    SurvivesFrom(c, ops, pn, r, c.gen);
  }

  /** So a touch that finds its number, at once or late, protects it through the next R evictions. */
  lemma {:induction false} TouchProtects(c: Cache, op: Op, ops: seq<Op>, pn: Number)
    requires Consistent(c) && pn in c.entries && (op == OpTouch(pn) || op == OpLateTouch(pn))
    requires Rotations(ops) <= c.rotations
    ensures HeldSince(Run(Apply(c, op), ops), pn, c.entries[pn].beat.range, c.gen)
  {
    ApplyConsistent(c, op);
    TouchedSurvives(Apply(c, op), ops, pn, c.entries[pn].beat.range);
  }

  /** And so does a put, for every number the range provides. */
  lemma {:induction false} PutProtects(c: Cache, bd: BeatData, ops: seq<Op>, pn: Number)
    requires Consistent(c) && Valid(bd.range) && CanPut(c, bd.range) && pn in Keys(bd.range)
    requires Rotations(ops) <= c.rotations
    ensures HeldSince(Run(Apply(c, OpPut(bd)), ops), pn, bd.range, c.gen)
  {
    ApplyConsistent(c, OpPut(bd));
    PutKeepsOthersApart(c, bd);
    TouchedSurvives(Apply(c, OpPut(bd)), ops, pn, bd.range);
  }

  /** What a put stores: the entry of a number of the range that is held and was touched in this generation, else a
      new one; under all the numbers of the range, each of them touched, and no others. */
  lemma {:induction false} PutStoresExactly(c: Cache, bd: BeatData, pn: Number)
    requires Consistent(c) && Valid(bd.range) && CanPut(c, bd.range)
    ensures var c', ks := PutOf(c, bd), Keys(bd.range);
            && c'.entries.Keys == c.entries.Keys + ks && c'.gen == c.gen
            && (pn !in ks ==> (pn in c'.entries <==> pn in c.entries) && (pn in c'.last <==> pn in c.last))
            && (pn !in ks && pn in c.entries ==> c'.entries[pn] == c.entries[pn])
            && (pn !in ks && pn in c.last ==> c'.last[pn] == c.last[pn])
            && (pn in ks ==> c'.last[pn] == c.gen)
            && (pn in ks ==> forall q :: q in ks && q in c.entries && TouchedNow(c, q) ==>
                  c'.entries[pn] == c.entries[q] && c'.allocs == c.allocs)
            && (pn in ks && (forall q :: q in ks && q in c.entries ==> !TouchedNow(c, q)) ==>
                  c'.entries[pn] == CacheEntry(c.allocs, bd) && c'.allocs == c.allocs + 1)
  {
    var ks := Keys(bd.range);
    forall q | q in ks && Hit(c, q)
      ensures EntryFor(c, ks, bd) == c.entries[q] && c.entries[q].id < c.allocs
    {
      HitIsEntry(c, bd, q);
    }
  }

  lemma {:induction false} HitIsEntry(c: Cache, bd: BeatData, q: Number)
    requires Consistent(c) && Valid(bd.range) && CanPut(c, bd.range) && q in Keys(bd.range) && Hit(c, q)
    ensures EntryFor(c, Keys(bd.range), bd) == c.entries[q] && c.entries[q].id < c.allocs
  {
    var p := EntryIsHit(c, Keys(bd.range), bd, q);
    assert ValidUnder(c.entries[q], q, c.allocs);
    assert c.entries[p].beat.range == bd.range && c.entries[q].beat.range == bd.range;
  }

  lemma {:induction false} EntryIsHit(c: Cache, ks: set<Number>, bd: BeatData, q: Number) returns (p: Number)
    requires q in ks && Hit(c, q)
    ensures p in ks && Hit(c, p) && EntryFor(c, ks, bd) == c.entries[p]
  {
    p :| p in ks && Hit(c, p) && EntryFor(c, ks, bd) == c.entries[p];
  }

  lemma {:induction false} SurvivesFrom(c: Cache, ops: seq<Op>, pn: Number, r: Range, g: nat)
    requires Consistent(c) && HeldSince(c, pn, r, g) && c.gen - g + Rotations(ops) <= c.rotations
    ensures HeldSince(Run(c, ops), pn, r, g)
    decreases |ops|
  {
    if ops != [] {
      ApplyConsistent(c, ops[0]);
      ApplyKeepsHeld(c, ops[0], pn, r, g);
      SurvivesFrom(Apply(c, ops[0]), ops[1..], pn, r, g);
    }
  }

  /** The operation touches pn, or may store it anew. */
  ghost predicate Mentions(op: Op, pn: Number) {
    match op
    case OpPut(bd) => Valid(bd.range) && pn in Keys(bd.range)
    case OpTouch(p) => p == pn
    case OpLateTouch(p) => p == pn
    case OpEvictAndRotate(p) => p == pn
  }

  /** Not touched since generation g. */
  ghost predicate Unused(c: Cache, pn: Number, g: nat) { pn in c.last ==> c.last[pn] <= g }

  lemma {:induction false} UnusedRun(c: Cache, ops: seq<Op>, pn: Number, g: nat)
    requires Unused(c, pn, g) && forall op :: op in ops ==> !Mentions(op, pn)
    ensures Unused(Run(c, ops), pn, g) && Run(c, ops).gen == c.gen + Rotations(ops)
    ensures Run(c, ops).rotations == c.rotations && Run(c, ops).minRange == c.minRange
    ensures pn !in c.entries ==> pn !in Run(c, ops).entries
    decreases |ops|
  {
    if ops != [] {
      var op := ops[0];
      assert !Mentions(op, pn);
      UnusedRun(Apply(c, op), ops[1..], pn, g);
    }
  }

  /** ... and an entry left alone for R rotations is gone after the next eviction past its age. */
  lemma {:induction false} UnusedIsEvicted(c: Cache, ops: seq<Op>, pn: Number, current: Number)
    requires Consistent(c) && (forall op :: op in ops ==> !Mentions(op, pn))
    requires Rotations(ops) >= c.rotations && !KeepsAll(c, current) && pn < MinKept(c, current)
    ensures pn !in EvictAndRotateOf(Run(c, ops), current).entries
  {
    UnusedRun(c, ops, pn, c.gen);
  }

  /** Without uint32 wrap-around the eviction bound is the plain difference. */
  lemma {:induction false} EvictionBound(c: Cache, current: Number)
    requires c.minRange <= MAX_TIME_PULSE && current <= MAX_TIME_PULSE
    ensures KeepsAll(c, current) <==> current - c.minRange <= MIN_TIME_PULSE
    ensures !KeepsAll(c, current) ==> MinKept(c, current) == current - c.minRange
  {
  }
}
