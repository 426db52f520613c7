/**
 The store as a state machine over the requests its server dispatches, and what holds in every
 reachable state.
 */
module StoreSteps {
  import opened Wrappers
  import E = Extents
  import opened Store
  import opened StoreInv
  import opened StoreRuns

  datatype Op =
    | OpLookup(hashes: seq<string>, ranks: int, pin: bool, expires: real, owner: Session)
    | OpRelease(lid: nat)
    | OpExpire(now: real)
    | OpAlloc(keys: seq<Key>, size: int, session: Session, skip: bool)
    | OpCommit(keys: seq<Key>, session: Session)
    | OpAbort(keys: seq<Key>, session: Session)
    | OpDropSession(session: Session, mine: seq<Key>)
    | OpFlush
    | OpSetCapacity(bytes: int)

  function Step(st: State, op: Op): State {
    match op
    case OpLookup(hashes, ranks, pin, expires, owner) => Lookup(st, hashes, ranks, pin, expires, owner).1
    case OpRelease(lid) => Release(st, lid).1
    case OpExpire(now) => ExpireFrom(st, now, 0)
    case OpAlloc(keys, size, session, skip) => AllocateForWrite(st, keys, size, session, skip).1
    case OpCommit(keys, session) => Commit(st, keys, session)
    case OpAbort(keys, session) => Abort(st, keys, session)
    case OpDropSession(session, mine) => Abort(st, mine, session)
    case OpFlush => Flush(st)
    case OpSetCapacity(bytes) => SetCapacity(st, bytes)
  }

  /**
   No entry is granted that has no positive size, and a dropped session lists its own unfinished keys,
   in any order. `StoreSizes` shows that the first condition is the exact one.
   */
  ghost predicate Enabled(st: State, op: Op) {
    match op
    case OpAlloc(keys, size, session, skip) =>
      size > 0 || NoneGranted(AllocateForWrite(st, keys, size, session, skip).0)
    case OpDropSession(session, mine) => forall k :: k in mine <==> (k, session) in st.writing
    case _ => true
  }

  /** A step that neither grants nor gives up a lease. */
  predicate NoLeaseChange(op: Op) {
    !op.OpRelease? && !op.OpExpire? && !(op.OpLookup? && op.pin)
  }

  lemma StepKeeps(st: State, op: Op)
    requires Inv(st) && Enabled(st, op)
    ensures Inv(Step(st, op))
    ensures NoLeaseChange(op) ==> Quiet(st, Step(st, op))
  {
    hide Balanced;
    match op
    case OpLookup(hashes, ranks, pin, expires, owner) => LookupKeeps(st, hashes, ranks, pin, expires, owner);
    case OpRelease(lid) => ReleaseKeeps(st, lid);
    case OpExpire(now) => ExpireKeeps(st, now, 0);
    case OpAlloc(keys, size, session, skip) => AllocateForWriteKeeps(st, keys, size, session, skip);
    case OpCommit(keys, session) => CommitKeeps(st, keys, session);
    case OpAbort(keys, session) => AbortKeeps(st, keys, session);
    case OpDropSession(session, mine) => AbortKeeps(st, mine, session);
    case OpFlush => FlushExact(st); TrimmedIsQuiet(st, Flush(st));
    case OpSetCapacity(bytes) => SetCapacityQuiet(st, bytes);
  }

  lemma SetCapacityQuiet(st: State, bytes: int)
    requires Inv(st)
    ensures Inv(SetCapacity(st, bytes)) && Quiet(st, SetCapacity(st, bytes))
  {
    hide Balanced;
    SetCapacityKeeps(st, bytes);
    TrimmedIsQuiet(st.(capacity := SetCapacity(st, bytes).capacity), SetCapacity(st, bytes));
  }

  function Run(st: State, ops: seq<Op>): State
    decreases |ops|
  {
    if ops == [] then st else Run(Step(st, ops[0]), ops[1..])
  }

  ghost predicate Legal(st: State, ops: seq<Op>)
    decreases |ops|
  {
    ops != [] ==> Enabled(st, ops[0]) && Legal(Step(st, ops[0]), ops[1..])
  }

  lemma {:induction false} RunKeeps(st: State, ops: seq<Op>)
    requires Inv(st) && Legal(st, ops)
    ensures Inv(Run(st, ops))
    decreases |ops|
  {
    hide Balanced;
    if ops != [] {
      StepKeeps(st, ops[0]);
      RunKeeps(Step(st, ops[0]), ops[1..]);
    }
  }

  /**
   In every reachable state: the entries and the free list share out the pool's pages with no page
   lost or held twice, and the pins on the versions of a key are exactly the live leases naming it.
   */
  lemma EveryRunBalances(poolBytes: int, page: E.pos, capacity: Option<int>, ops: seq<Op>)
    requires poolBytes >= 0 && Legal(Init(poolBytes, page, capacity), ops)
    ensures var st := Run(Init(poolBytes, page, capacity), ops);
            && PagesOk(st.pool, st.entries) && Shape(st)
            && forall k :: PinSum(st, k) == LeaseCount(st.leases, st.nextLease, k)
  {
    InitInv(poolBytes, page, capacity);
    RunKeeps(Init(poolBytes, page, capacity), ops);
  }

  // ------------------------------------------------------------- no leftovers

  lemma RetiredArePinned(st: State)
    requires RetiredOk(st)
    ensures (forall k :: RetiredPins(st.entries, st.retired, k) == 0) ==> st.retired == []
  {
    if st.retired != [] {
      var id := st.retired[0];
      assert id in st.retired;
      assert RetiredPins(st.entries, st.retired, st.entries[id].key) > 0;
    }
  }

  lemma OrderOfNothing(s: seq<Key>)
    ensures (forall k :: k !in s) ==> s == []
  {
    if s != [] { assert s[0] in s; }
  }

  lemma NoPinsAtAll(st: State, k: Key)
    requires Inv(st) && st.leases == map[]
    ensures RetiredPins(st.entries, st.retired, k) == 0 && Pins(st, k) == 0
  {
    NoLeases(st.nextLease, k);
    assert PinSum(st, k) == LeaseCount(st.leases, st.nextLease, k);
  }

  lemma NoLeasesNoPins(st: State)
    requires Inv(st) && st.leases == map[]
    ensures st.retired == [] && forall id :: id in st.entries ==> st.entries[id].pins == 0
  {
    RetiredArePinned(st);
    forall k { NoPinsAtAll(st, k); }
    forall id | id in st.entries ensures st.entries[id].pins == 0 {
      NoPinsAtAll(st, st.entries[id].key);
    }
  }

  lemma EmptyHeapIsFreshPool(st: State)
    requires PagesOk(st.pool, map[]) && (st.pool.total > 0 || st.pool.free != [])
    ensures st.pool == E.Fresh(st.pool.total * st.pool.page, st.pool.page)
  {
    var p := st.pool;
    E.SeparatedBounds(-1, p.free, p.total);
    forall q ensures q in E.FreePages(p) <==> q in E.Run(0, p.total) {
      if q in E.Run(0, p.total) { assert q !in E.FreePages(p) ==> Owned(p.page, map[], q); }
    }
    E.AllFreeIsOneExtent(p);
  }

  /**
   Once every lease is gone and no write is open, a flush leaves nothing behind: no entry, no
   retired version, no page in use, and one free extent covering the pool.
   */
  lemma DrainedStoreIsFresh(st: State)
    requires Inv(st) && st.leases == map[] && st.writing == map[] && (st.pool.total > 0 || st.pool.free != [])
    ensures var st' := Flush(st);
            && st'.entries == map[] && st'.index == map[] && st'.lru == [] && st'.retired == []
            && st'.pool == E.Fresh(st.pool.total * st.pool.page, st.pool.page) && st'.pool.used == 0
  {
    FlushExact(st);
    NoLeasesNoPins(st);
    var st' := Flush(st);
    FlushedHeap(st, st');
    if st.pool.total <= 0 { HollowStore(st, multiset{}); }
    EmptyHeapIsFreshPool(st');
  }

  lemma FlushedHeap(st: State, st': State)
    requires Inv(st) && Inv(st') && Trimmed(st, st') && st.writing == map[] && st.retired == []
    requires forall k :: k in st'.index <==> k in st.index && Pins(st, k) > 0
    requires forall id :: id in st.entries ==> st.entries[id].pins == 0
    ensures st'.entries == map[] && st'.index == map[] && st'.lru == []
  {
    assert forall k :: k !in st'.index;
    assert st'.index == map[];
    OrderOfNothing(st'.lru);
    assert forall id :: id !in st'.entries;
    assert st'.entries == map[];
  }
}
