/**
 The capacity of the store: what it is set to, what requests leave in use under it, and which entries are
 given up to make room.
 */
module StoreCapacity {
  import opened Wrappers
  import E = Extents
  import opened Store
  import opened StoreInv
  import opened StoreRuns
  import opened StoreSteps
  import opened StoreUse
  import D = DataPlane

  // ------------------------------------------------------------ the capacity itself

  /** A new store has the whole pages of the pool; no capacity, or zero, means all of them, and more is cut off. */
  lemma InitCapacity(poolBytes: int, page: E.pos, capacity: Option<int>)
    requires poolBytes >= 0
    ensures var st, whole := Init(poolBytes, page, capacity), poolBytes / page * page;
            && st.pool.total * page == whole && whole <= poolBytes < whole + page && st.pool.used == 0
            && (capacity.None? || capacity.value == 0 || capacity.value > whole ==> st.capacity == whole)
            && (capacity.Some? && capacity.value != 0 && capacity.value <= whole ==> st.capacity == capacity.value)
  {
  }

  /** Setting the capacity sets it to the number asked for, but not below zero or above the pool. */
  lemma SetCapacityIs(st: State, bytes: int)
    requires st.pool.total >= 0
    ensures var whole := st.pool.total * st.pool.page;
            && (bytes <= 0 ==> SetCapacity(st, bytes).capacity == 0)
            && (0 <= bytes <= whole ==> SetCapacity(st, bytes).capacity == bytes)
            && (bytes >= whole ==> SetCapacity(st, bytes).capacity == whole)
  {
    assert st.pool.total * st.pool.page >= 0;
    ShrinkSame(st.(capacity := Max(0, Min(bytes, PoolBytes(st.pool)))));
  }

  // ------------------------------------------------------------ what no other request changes

  ghost predicate Kept(a: State, b: State) {
    b.capacity == a.capacity && b.pool.page == a.pool.page && b.pool.total == a.pool.total && b.nextId == a.nextId
  }

  lemma {:induction false} ShrinkSame(st: State)
    ensures Kept(st, Shrink(st))
    decreases |st.lru|
  {
    if st.pool.used * st.pool.page > st.capacity && EvictOne(st).0 {
      EvictSame(st);
      ShrinkSame(EvictOne(st).1);
      assert Shrink(st) == Shrink(EvictOne(st).1);
    }
  }

  lemma EvictSame(st: State)
    ensures Kept(st, EvictOne(st).1) && (EvictOne(st).0 ==> |EvictOne(st).1.lru| < |st.lru|)
  {
    hide E.Free;
    var j := Victim(st, 0);
    if j < |st.lru| {
      assert st.lru[j] in st.lru;
      DropSame(st, st.lru[j]);
    }
  }

  lemma FreeSame(st: State, id: Id)
    requires id in st.entries
    ensures Kept(st, FreeEntry(st, id))
  {
  }

  lemma DropSame(st: State, k: Key)
    requires Cached(st, k)
    ensures Kept(st, Drop(st, k))
  {
    hide FreeEntry;
    FreeSame(st.(lru := Without(st.lru, k), index := st.index - {k}), st.index[k]);
  }

  lemma {:induction false} FlushSame(st: State, ks: seq<Key>)
    ensures Kept(st, FlushKeys(st, ks))
    decreases |ks|
  {
    hide Drop;
    if ks != [] {
      if Cached(st, ks[0]) && Pins(st, ks[0]) == 0 { DropSame(st, ks[0]); }
      FlushSame(if Cached(st, ks[0]) && Pins(st, ks[0]) == 0 then Drop(st, ks[0]) else st, ks[1..]);
    }
  }

  lemma {:induction false} TouchSame(st: State, ks: seq<Key>)
    ensures Kept(st, TouchAll(st, ks))
    decreases |ks|
  {
    if ks != [] { TouchSame(st.(lru := Without(st.lru, ks[0]) + [ks[0]]), ks[1..]); }
  }

  lemma {:induction false} PinSame(st: State, ks: seq<Key>)
    ensures Kept(st, PinAll(st, ks))
    decreases |ks|
  {
    if ks != [] { PinSame(if Cached(st, ks[0]) then Pin(st, ks[0]) else st, ks[1..]); }
  }

  lemma UnpinOneSame(st: State, k: Key)
    ensures Kept(st, Unpin(st, k)) && Unpin(st, k).nextLease == st.nextLease
  {
    hide E.Free;
    var j := OldVersion(st, k, 0);
    if Pins(st, k) == 0 && j < |st.retired| && st.entries[st.retired[j]].pins == 1 {
      var id, e := st.retired[j], st.entries[st.retired[j]];
      var st1 := st.(entries := st.entries[id := e.(pins := e.pins - 1)], retired := st.retired[..j] + st.retired[j + 1..]);
      FreeSame(st1, id);
    }
  }

  lemma {:induction false} UnpinSame(st: State, ks: seq<Key>)
    ensures Kept(st, UnpinAll(st, ks)) && UnpinAll(st, ks).nextLease == st.nextLease
    decreases |ks|
  {
    hide Unpin;
    if ks != [] {
      UnpinOneSame(st, ks[0]);
      UnpinSame(Unpin(st, ks[0]), ks[1..]);
    }
  }

  lemma ReleaseSame(st: State, lid: nat)
    ensures Kept(st, Release(st, lid).1) && Release(st, lid).1.nextLease == st.nextLease
  {
    if lid in st.leases { UnpinSame(st.(leases := st.leases - {lid}), st.leases[lid].keys); }
  }

  lemma {:induction false} ExpireSame(st: State, now: real, lid: nat)
    ensures Kept(st, ExpireFrom(st, now, lid))
    decreases st.nextLease - lid
  {
    hide Release;
    if lid < st.nextLease {
      ReleaseSame(st, lid);
      ExpireSame(if Expired(st, now, lid) then Release(st, lid).1 else st, now, lid + 1);
    }
  }

  lemma CommitOneSame(st: State, k: Key, s: Session)
    ensures Kept(st, CommitOne(st, k, s))
  {
    hide Drop;
    var st1 := st.(writing := st.writing - {(k, s)});
    if Cached(st1, k) { DropSame(st1, k); }
  }

  lemma {:induction false} CommitSame(st: State, ks: seq<Key>, s: Session)
    ensures Kept(st, Commit(st, ks, s))
    decreases |ks|
  {
    hide CommitOne;
    if ks != [] {
      CommitOneSame(st, ks[0], s);
      CommitSame(CommitOne(st, ks[0], s), ks[1..], s);
    }
  }

  lemma {:induction false} AbortSame(st: State, ks: seq<Key>, s: Session)
    ensures Kept(st, Abort(st, ks, s))
    decreases |ks|
  {
    hide FreeEntry;
    if ks != [] {
      var w := (ks[0], s);
      if w in st.writing && st.writing[w] in st.entries { FreeSame(st.(writing := st.writing - {w}), st.writing[w]); }
      AbortSame(AbortOne(st, ks[0], s), ks[1..], s);
    }
  }

  lemma StepSame(st: State, op: Op)
    requires !op.OpAlloc? && !op.OpSetCapacity?
    ensures Kept(st, Step(st, op))
  {
    match op
    case OpLookup(hashes, ranks, pin, expires, owner) =>
      hide TouchAll, PinAll, Hits, Rows;
      var full := Rows(hashes[..Min(Hits(st, hashes, ranks), |hashes|)], ranks);
      TouchSame(st, full);
      PinSame(TouchAll(st, full), full);
    case OpRelease(lid) => ReleaseSame(st, lid);
    case OpExpire(now) => ExpireSame(st, now, 0);
    case OpCommit(keys, session) => CommitSame(st, keys, session);
    case OpAbort(keys, session) => AbortSame(st, keys, session);
    case OpDropSession(session, mine) => AbortSame(st, mine, session);
    case OpFlush => FlushSame(st, st.lru);
  }

  // ------------------------------------------------------------ within the capacity

  lemma SubsetSize(a: set<int>, b: set<int>)
    requires a <= b
    ensures |a| <= |b|
  {
    assert b == a + (b - a);
  }

  /** A store with fewer entries in the same places has no more pages in use. */
  lemma FewerInUse(a: State, b: State)
    requires Inv(a) && Inv(b) && b.pool.page == a.pool.page && b.pool.total == a.pool.total
    requires forall id :: id in b.entries ==> id in a.entries && SameVersion(a.entries[id], b.entries[id])
    ensures b.pool.used <= a.pool.used
  {
    hide Inv, E.FreePages, RunOf;
    PagesPart(a);
    PagesPart(b);
    InBounds(a.pool);
    forall q | q in E.FreePages(a.pool) ensures q in E.FreePages(b.pool) {
      FreeIff(a.pool, a.entries, q);
      FreeIff(b.pool, b.entries, q);
      if Owned(b.pool.page, b.entries, q) {
        var id :| id in b.entries && q in RunOf(b.pool.page, b.entries[id]);
        SameRun(a.pool.page, a.entries[id], b.entries[id]);
      }
    }
    SubsetSize(E.FreePages(a.pool), E.FreePages(b.pool));
  }

  lemma SameRun(page: E.pos, a: Entry, b: Entry)
    requires SameVersion(a, b)
    ensures RunOf(page, a) == RunOf(page, b)
  {
  }

  lemma Smaller(a: State, b: State)
    requires b.capacity == a.capacity && b.pool.page == a.pool.page && b.pool.used <= a.pool.used
    requires a.pool.used * a.pool.page <= a.capacity
    ensures b.pool.used * b.pool.page <= b.capacity
  {
    assert b.pool.used * b.pool.page <= a.pool.used * a.pool.page;
  }

  lemma TrimmedWithin(a: State, b: State)
    requires Inv(a) && Inv(b) && Trimmed(a, b) && a.pool.used * a.pool.page <= a.capacity
    ensures b.pool.used * b.pool.page <= b.capacity == a.capacity
  {
    hide Inv;
    FewerInUse(a, b);
    Smaller(a, b);
  }

  lemma AllocateOneWithin(st: State, k: Key, size: int, s: Session, skip: bool)
    requires Inv(st) && st.pool.used * st.pool.page <= st.capacity
    ensures var st' := AllocateOne(st, k, size, s, skip).1;
            st'.pool.used * st'.pool.page <= st'.capacity == st.capacity
  {
    hide Balanced, FitsCapacity, E.Alloc, Allocate;
    var mid := AllocateKeeps(st, size, multiset{});
    if Allocate(st, size).0.None? { TrimmedWithin(st, mid); }
  }

  lemma {:induction false} AllocateForWriteWithin(st: State, ks: seq<Key>, size: int, s: Session, skip: bool)
    requires Inv(st) && (size > 0 || NoneGranted(AllocateForWrite(st, ks, size, s, skip).0))
    requires st.pool.used * st.pool.page <= st.capacity
    ensures var st' := AllocateForWrite(st, ks, size, s, skip).1;
            st'.pool.used * st'.pool.page <= st'.capacity == st.capacity
    decreases |ks|
  {
    hide Inv, AllocateOne;
    if ks != [] {
      var (a, st1) := AllocateOne(st, ks[0], size, s, skip);
      AllocateOneWithin(st, ks[0], size, s, skip);
      AllocateOneKeeps(st, ks[0], size, s, skip);
      NoneGrantedCons(a, AllocateForWrite(st1, ks[1..], size, s, skip).0);
      AllocateForWriteWithin(st1, ks[1..], size, s, skip);
    }
  }

  /** No request but a change of the capacity takes the store beyond it. */
  lemma StepWithin(st: State, op: Op)
    requires Inv(st) && Enabled(st, op) && !op.OpSetCapacity? && st.pool.used * st.pool.page <= st.capacity
    ensures var st' := Step(st, op); st'.pool.used * st'.pool.page <= st'.capacity == st.capacity
  {
    hide Inv, AllocateForWrite;
    if op.OpAlloc? {
      AllocateForWriteWithin(st, op.keys, op.size, op.session, op.skip);
    } else {
      hide Step;
      StepSame(st, op);
      StepKeeps(st, op);
      D.StepSteady(st, op);
      IdsAreFresh(Step(st, op));
      FewerInUse(st, Step(st, op));
      Smaller(st, Step(st, op));
    }
  }

  lemma {:induction false} RunWithin(st: State, ops: seq<Op>)
    requires Inv(st) && Legal(st, ops) && st.pool.used * st.pool.page <= st.capacity
    requires forall i :: 0 <= i < |ops| ==> !ops[i].OpSetCapacity?
    ensures var st' := Run(st, ops); st'.pool.used * st'.pool.page <= st'.capacity == st.capacity
    decreases |ops|
  {
    hide Inv, Step, Enabled;
    if ops != [] {
      StepKeeps(st, ops[0]);
      StepWithin(st, ops[0]);
      RunWithin(Step(st, ops[0]), ops[1..]);
    }
  }

  lemma AllocateOneCapacity(st: State, k: Key, size: int, s: Session, skip: bool)
    requires Inv(st)
    ensures AllocateOne(st, k, size, s, skip).1.capacity == st.capacity
  {
    hide Balanced, FitsCapacity, E.Alloc, Allocate;
    var mid := AllocateKeeps(st, size, multiset{});
  }

  lemma {:induction false} AllocateForWriteCapacity(st: State, ks: seq<Key>, size: int, s: Session, skip: bool)
    requires Inv(st) && (size > 0 || NoneGranted(AllocateForWrite(st, ks, size, s, skip).0))
    ensures AllocateForWrite(st, ks, size, s, skip).1.capacity == st.capacity
    decreases |ks|
  {
    hide Inv, AllocateOne;
    if ks != [] {
      var (a, st1) := AllocateOne(st, ks[0], size, s, skip);
      AllocateOneCapacity(st, ks[0], size, s, skip);
      AllocateOneKeeps(st, ks[0], size, s, skip);
      NoneGrantedCons(a, AllocateForWrite(st1, ks[1..], size, s, skip).0);
      AllocateForWriteCapacity(st1, ks[1..], size, s, skip);
    }
  }

  /** Only a request to change it changes the capacity. */
  lemma {:induction false} RunCapacity(st: State, ops: seq<Op>)
    requires Inv(st) && Legal(st, ops) && forall i :: 0 <= i < |ops| ==> !ops[i].OpSetCapacity?
    ensures Run(st, ops).capacity == st.capacity
    decreases |ops|
  {
    hide Inv;
    if ops != [] {
      var op := ops[0];
      StepKeeps(st, op);
      if op.OpAlloc? {
        AllocateForWriteCapacity(st, op.keys, op.size, op.session, op.skip);
      } else {
        StepSame(st, op);
      }
      hide Step;
      RunCapacity(Step(st, op), ops[1..]);
    }
  }

  lemma UsedIsNatural(st: State)
    requires Inv(st)
    ensures 0 <= st.pool.used * st.pool.page
  {
    hide Inv, E.FreePages, E.Run;
    PoolIsWf(st);
    InBounds(st.pool);
    forall q | q in E.FreePages(st.pool) ensures q in E.Run(0, st.pool.total) { InFirst(st.pool.total, q); }
    SubsetSize(E.FreePages(st.pool), E.Run(0, st.pool.total));
    E.RunSize(0, st.pool.total);
  }

  lemma InFirst(n: int, q: int)
    requires 0 <= q < n
    ensures q in E.Run(0, n)
  {
    assert E.InRun(0, n, q);
  }

  /**
   A store is within its capacity after every run that does not change it, if and only if it was not started with a
   negative one.
   */
  lemma EveryRunWithinIff(poolBytes: int, page: E.pos, capacity: Option<int>, ops: seq<Op>)
    requires poolBytes >= 0 && Legal(Init(poolBytes, page, capacity), ops)
    requires forall i :: 0 <= i < |ops| ==> !ops[i].OpSetCapacity?
    ensures var st := Run(Init(poolBytes, page, capacity), ops);
            st.pool.used * st.pool.page <= st.capacity <==> capacity.None? || capacity.value >= 0
  {
    hide Inv, Legal, Run;
    var st := Init(poolBytes, page, capacity);
    InitInv(poolBytes, page, capacity);
    InitCapacity(poolBytes, page, capacity);
    assert poolBytes / page * page >= 0;
    if capacity.None? || capacity.value >= 0 {
      RunWithin(st, ops);
    } else {
      RunKeeps(st, ops);
      RunCapacity(st, ops);
      UsedIsNatural(Run(st, ops));
    }
  }

  // ------------------------------------------------------------ what is given up

  /** The keys of a list that nobody has pinned, in the same order. */
  ghost function Idle(st: State, ks: seq<Key>): seq<Key> {
    if ks == [] then [] else (if Pins(st, ks[0]) == 0 then [ks[0]] else []) + Idle(st, ks[1..])
  }

  /** The store after dropping the keys. */
  ghost function GiveUp(st: State, ks: seq<Key>): State
    decreases |ks|
  {
    if ks == [] then st else GiveUp(if Cached(st, ks[0]) then Drop(st, ks[0]) else st, ks[1..])
  }

  lemma {:induction false} IdleConcat(st: State, a: seq<Key>, b: seq<Key>)
    ensures Idle(st, a + b) == Idle(st, a) + Idle(st, b)
  {
    if a == [] {
      assert a + b == b;
    } else {
      assert (a + b)[1..] == a[1..] + b;
      IdleConcat(st, a[1..], b);
    }
  }

  lemma {:induction false} NoneIdle(st: State, ks: seq<Key>)
    requires forall k :: k in ks ==> Pins(st, k) > 0
    ensures Idle(st, ks) == []
  {
    if ks != [] {
      assert ks[0] in ks;
      NoneIdle(st, ks[1..]);
    }
  }

  lemma {:induction false} IdleFrame(a: State, b: State, ks: seq<Key>)
    requires forall k :: k in ks ==> Pins(a, k) == Pins(b, k)
    ensures Idle(a, ks) == Idle(b, ks)
  {
    if ks != [] {
      assert ks[0] in ks;
      IdleFrame(a, b, ks[1..]);
    }
  }

  lemma IndexedIsCached(st: State)
    requires Inv(st)
    ensures forall k :: k in st.lru ==> Cached(st, k)
  {
  }

  /** An eviction takes the first idle key and leaves the others idle. */
  lemma EvictsFirstIdle(st: State)
    requires Inv(st)
    ensures EvictOne(st).0 <==> Idle(st, st.lru) != []
    ensures EvictOne(st).0 ==>
              && Cached(st, Idle(st, st.lru)[0]) && EvictOne(st).1 == Drop(st, Idle(st, st.lru)[0])
              && Idle(EvictOne(st).1, EvictOne(st).1.lru) == Idle(st, st.lru)[1..]
  {
    hide *;
    ShapeParts(st);
    if EvictOne(st).0 {
      var a, v, b := VictimSplit(st);
      IndexedIsCached(st);
      AroundVictim(st, a, v, b);
    } else {
      NotEvicted(st);
    }
  }

  lemma NotEvicted(st: State)
    requires Inv(st) && !EvictOne(st).0
    ensures Idle(st, st.lru) == []
  {
    hide Balanced;
    EvictKeeps(st, multiset{});
    ShapeParts(st);
    NoneIdle(st, st.lru);
  }

  lemma AroundVictim(st: State, a: seq<Key>, v: Key, b: seq<Key>)
    requires LruOk(st) && IndexOk(st) && st.lru == a + [v] + b && v in st.index && Cached(st, v) && Pins(st, v) == 0
    requires forall k :: k in st.lru ==> Cached(st, k)
    requires forall k :: k in a ==> !(Cached(st, k) && Pins(st, k) == 0)
    ensures Idle(st, st.lru) == [v] + Idle(st, b)
    ensures Idle(Drop(st, v), Drop(st, v).lru) == Idle(st, b)
  {
    hide Drop, Idle, IndexOk, Cached, Pins;
    forall k | k in a ensures Pins(st, k) > 0 && k in st.lru {
      assert k in st.lru;
    }
    NoneIdle(st, a);
    IdleConcat(st, a + [v], b);
    IdleConcat(st, a, [v]);
    IdleOne(st, v);
    NotAround(st.lru, a, v, b);
    DropOrder(st, v);
    SplitAtVictim(a, v, b);
    var st1 := Drop(st, v);
    forall k | k in a + b ensures Pins(st1, k) == Pins(st, k) { DropOthers(st, v, k); }
    IdleFrame(st, st1, a + b);
    IdleConcat(st, a, b);
  }

  lemma NotAround(order: seq<Key>, a: seq<Key>, v: Key, b: seq<Key>)
    requires Distinct(order) && order == a + [v] + b
    ensures forall k :: k in a + b ==> k != v
  {
    assert order[|a|] == v;
    forall i | 0 <= i < |a + b| ensures (a + b)[i] != v {
      assert (a + b)[i] == if i < |a| then order[i] else order[i + 1];
    }
  }

  lemma SplitAtVictim(a: seq<Key>, v: Key, b: seq<Key>)
    requires forall k :: k in a + b ==> k != v
    ensures Without(a + [v] + b, v) == a + b
  {
    assert forall k :: k in a ==> k in a + b;
    assert a + [v] + b == a + ([v] + b) && ([v] + b)[1..] == b;
    WithoutAt(a, [v] + b);
  }

  lemma IdleOne(st: State, v: Key)
    requires Pins(st, v) == 0
    ensures Idle(st, [v]) == [v]
  {
    assert [v][1..] == [];
  }

  /** Giving up keys that nobody has pinned takes exactly those out of the store. */
  lemma {:induction false} GivenUp(st: State, ks: seq<Key>)
    requires Inv(st) && forall k :: k in ks ==> Pins(st, k) == 0
    ensures Inv(GiveUp(st, ks)) && Trimmed(st, GiveUp(st, ks))
    ensures forall k :: k in GiveUp(st, ks).index <==> k in st.index && k !in ks
    decreases |ks|
  {
    hide Balanced, Drop, Trimmed, Cached, Pins;
    if ks == [] {
      TrimmedRefl(st);
    } else {
      var k := ks[0];
      var st1 := if Cached(st, k) then Drop(st, k) else st;
      assert forall x :: x in ks <==> x == k || x in ks[1..];
      if Cached(st, k) {
        DropExact(st, k);
        forall x | x in ks[1..] ensures Pins(st1, x) == 0 { StillIdle(st, k, x); }
      } else {
        TrimmedRefl(st);
        NotIndexed(st, k);
      }
      GivenUp(st1, ks[1..]);
      TrimmedTrans(st, st1, GiveUp(st1, ks[1..]));
    }
  }

  lemma StillIdle(st: State, k: Key, x: Key)
    requires Inv(st) && Cached(st, k) && Pins(st, k) == 0 && Pins(st, x) == 0
    ensures Pins(Drop(st, k), x) == 0
  {
    hide Balanced, Drop;
    DropExact(st, k);
  }

  lemma NotIndexed(st: State, k: Key)
    requires Inv(st) && !Cached(st, k)
    ensures k !in st.index
  {
  }

  lemma GiveUpFirst(st: State, u: seq<Key>, j: nat)
    requires 0 < j <= |u| && Cached(st, u[0])
    ensures GiveUp(st, u[..j]) == GiveUp(Drop(st, u[0]), u[1..][..j - 1])
  {
    hide Drop;
    assert u[..j][1..] == u[1..][..j - 1];
  }

  /**
   To make room the store gives up the idle keys in order of use, and as few as will do: with any smaller number
   there would be no room. If there is none with all of them gone, the request fails.
   */
  lemma {:induction false} GivesUpFewest(st: State, nbytes: int) returns (j: nat)
    requires Inv(st)
    ensures j <= |Idle(st, st.lru)|
    ensures forall i :: 0 <= i < j ==> !Room(GiveUp(st, Idle(st, st.lru)[..i]), nbytes)
    ensures var (off, st') := Allocate(st, nbytes);
            var mid := GiveUp(st, Idle(st, st.lru)[..j]);
            && (off.Some? <==> Room(mid, nbytes)) && (off.None? ==> j == |Idle(st, st.lru)| && st' == mid)
            && (off.Some? ==> (off, st'.pool) == E.Alloc(mid.pool, nbytes) && st' == mid.(pool := st'.pool))
    decreases |st.lru|
  {
    hide Balanced, Room, Idle, FitsCapacity, E.Alloc, EvictOne, Drop;
    var u := Idle(st, st.lru);
    PoolIsWf(st);
    RoomIff(st, nbytes);
    EvictsFirstIdle(st);
    EvictSame(st);
    j := 0;
    assert u[..0] == [] && GiveUp(st, []) == st;
    if !Room(st, nbytes) && EvictOne(st).0 {
      var st1 := EvictOne(st).1;
      EvictKeeps(st, multiset{});
      j := GivesUpFewest(st1, nbytes);
      j := j + 1;
      GiveUpFirst(st, u, j);
      assert u[1..] == Idle(st1, st1.lru);
      forall i | 0 <= i < j ensures !Room(GiveUp(st, u[..i]), nbytes) {
        if i > 0 { GiveUpFirst(st, u, i); }
      }
      assert Allocate(st, nbytes) == Allocate(st1, nbytes);
    }
  }

  /** Lowering the capacity gives up the idle keys in order of use until what is in use fits, and no more. */
  lemma {:induction false} ShrinksFewest(st: State) returns (j: nat)
    requires Inv(st)
    ensures j <= |Idle(st, st.lru)| && Shrink(st) == GiveUp(st, Idle(st, st.lru)[..j])
    ensures forall i :: 0 <= i < j ==> !WithinCapacity(GiveUp(st, Idle(st, st.lru)[..i]))
    ensures WithinCapacity(Shrink(st)) || j == |Idle(st, st.lru)|
    decreases |st.lru|
  {
    hide Balanced, Idle, EvictOne, Drop;
    var u := Idle(st, st.lru);
    EvictsFirstIdle(st);
    EvictSame(st);
    j := 0;
    assert u[..0] == [] && GiveUp(st, []) == st;
    if !WithinCapacity(st) && EvictOne(st).0 {
      var st1 := EvictOne(st).1;
      EvictKeeps(st, multiset{});
      j := ShrinksFewest(st1);
      j := j + 1;
      GiveUpFirst(st, u, j);
      assert u[1..] == Idle(st1, st1.lru);
      forall i | 0 <= i < j ensures !WithinCapacity(GiveUp(st, u[..i])) {
        if i > 0 { GiveUpFirst(st, u, i); }
      }
      assert Shrink(st) == Shrink(st1);
    }
  }
}
