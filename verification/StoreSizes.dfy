/**
 Write requests without a positive size, which the server passes on unchecked. Granting one is where the
 pages stop being partitioned: at once if the size is minus one page or less, and otherwise as soon as
 the empty entry is given back away from the free extents. So the partition is safe under all
 later requests if and only if no entry was granted that has no positive size.
 */
module StoreSizes {
  import E = Extents
  import opened Wrappers
  import opened Store
  import opened StoreInv
  import opened StoreRuns
  import opened StoreSteps
  import opened StoreUse
  import opened Leases

  /** The entries' pages and the free pages partition the pool; entries may be empty. */
  ghost predicate Partition(p: E.Pool, entries: map<Id, Entry>) {
    && E.Wf(p)
    && (forall id :: id in entries ==> Lies(p, entries[id]))
    && (forall a, b :: a in entries && b in entries && a != b ==> RunOf(p.page, entries[a]) !! RunOf(p.page, entries[b]))
    && (forall q :: 0 <= q < p.total && q !in E.FreePages(p) ==> Owned(p.page, entries, q))
  }

  /** The invariant is this partition together with a positive size for every entry. */
  lemma PagesOkIs(p: E.Pool, entries: map<Id, Entry>)
    ensures PagesOk(p, entries) <==> Partition(p, entries) && forall id :: id in entries ==> entries[id].size > 0
  {
    assert forall id :: id in entries ==> (InPool(p, entries[id]) <==> entries[id].size > 0 && Lies(p, entries[id]));
  }

  // ------------------------------------------------------------ one grant

  /** A page that is free and below the pool, or free and owned. */
  ghost predicate Hurt(p: E.Pool, entries: map<Id, Entry>, q: int) {
    p.free != [] && q in E.Run(p.free[0].start, p.free[0].len) && (q < 0 || Owned(p.page, entries, q))
  }

  lemma HurtIsNoPartition(p: E.Pool, entries: map<Id, Entry>, q: int)
    requires Hurt(p, entries, q)
    ensures !Partition(p, entries)
  {
    if q >= 0 {
      var id :| id in entries && q in RunOf(p.page, entries[id]);
      assert Lies(p, entries[id]) ==> q !in E.FreePages(p);
    }
  }

  lemma NegativeHurts(p: E.Pool, entries: map<Id, Entry>, id: Id, e: Entry)
    requires PagesOk(p, entries) && p.total > 0 && id !in entries && e.size + p.page <= 0
    requires E.Alloc(p, e.size).0 == Some(e.offset)
    ensures Hurt(E.Alloc(p, e.size).1, entries[id := e], p.free[0].start - 1)
  {
    E.PagesForLeast(p.page, e.size);
    E.SeparatedIsSpaced(p.free, p.total);
    E.AllocOfNothing(p, e.size);
    E.LenPositive(-1, p.free, p.total, 0);
    E.PageBelowIsUsed(p);
    var q := p.free[0].start - 1;
    var p' := E.Alloc(p, e.size).1;
    assert E.InRun(p'.free[0].start, p'.free[0].len, q);
    if q >= 0 {
      assert Owned(p.page, entries, q);
      StillOwned(p, entries, id, e, q);
    }
  }

  /** An entry of no pages changes nothing about the pool. */
  lemma EmptyAlloc(p: E.Pool, size: int)
    requires E.Wf(p) && p.total > 0 && E.PagesFor(p.page, size) == 0 && size <= 0 && E.Alloc(p, size).0.Some?
    ensures p.free != [] && E.Alloc(p, size).1 == p && E.Alloc(p, size).0.value / p.page == p.free[0].start
  {
    E.SeparatedIsSpaced(p.free, p.total);
    E.AllocOfNothing(p, size);
    E.LenPositive(-1, p.free, p.total, 0);
    assert p.free == [p.free[0]] + p.free[1..];
  }

  lemma EmptyFits(p: E.Pool, entries: map<Id, Entry>, id: Id, e: Entry)
    requires PagesOk(p, entries) && id !in entries && E.PagesFor(p.page, e.size) == 0
    requires 0 <= e.offset / p.page <= p.total
    ensures Partition(p, entries[id := e])
  {
    hide E.PagesFor;
    PagesOkIs(p, entries);
    var m := entries[id := e];
    assert RunOf(p.page, e) == {};
    forall q | 0 <= q < p.total && q !in E.FreePages(p) ensures Owned(p.page, m, q) {
      assert Owned(p.page, entries, q);
      StillOwned(p, entries, id, e, q);
    }
  }

  /** In a pool without pages a grant of no page is the only entry. */
  lemma WithoutPagesIff(p: E.Pool, entries: map<Id, Entry>, id: Id, e: Entry)
    requires PagesOk(p, entries) && p.total == 0 && e.size <= 0 && E.Alloc(p, e.size).0 == Some(e.offset)
    ensures Partition(E.Alloc(p, e.size).1, entries[id := e]) <==> e.size + p.page > 0
  {
    E.AllocWithoutPages(p, e.size);
    E.PagesForLeast(p.page, e.size);
    NoPagesNoEntries(p, entries);
    hide E.Alloc, E.PagesFor;
    var m := entries[id := e];
    if e.size + p.page > 0 {
      assert m == map[id := e] && Lies(p.(free := []), e);
    }
  }

  /** Carving an entry out of a partitioned pool keeps the partition exactly from zero pages upwards. */
  lemma PartitionIff(p: E.Pool, entries: map<Id, Entry>, id: Id, e: Entry)
    requires PagesOk(p, entries) && id !in entries && E.Alloc(p, e.size).0 == Some(e.offset)
    ensures Partition(E.Alloc(p, e.size).1, entries[id := e]) <==> e.size + p.page > 0
  {
    E.PagesForLeast(p.page, e.size);
    if e.size > 0 {
      PagesAfterAlloc(p, entries, id, e);
      PagesOkIs(E.Alloc(p, e.size).1, entries[id := e]);
    } else if p.total == 0 {
      WithoutPagesIff(p, entries, id, e);
    } else if e.size + p.page > 0 {
      EmptyAlloc(p, e.size);
      E.SeparatedBounds(-1, p.free, p.total);
      FirstInPool(p);
      EmptyFits(p, entries, id, e);
    } else {
      NegativeHurts(p, entries, id, e);
      HurtIsNoPartition(E.Alloc(p, e.size).1, entries[id := e], p.free[0].start - 1);
    }
  }

  lemma FirstInPool(p: E.Pool)
    requires E.Wf(p) && p.total > 0 && p.free != []
    ensures 0 <= p.free[0].start < p.free[0].End() <= p.total
  {
    E.LenPositive(-1, p.free, p.total, 0);
  }

  /** Where a granted request ends up: the entry is carved out of what evictions left. */
  lemma GrantIs(st: State, k: Key, size: int, s: Session, skip: bool) returns (mid: State)
    requires Inv(st) && AllocateOne(st, k, size, s, skip).0.New?
    ensures Inv(mid) && Trimmed(st, mid) && FitsCapacity(mid, size) && (k, s) !in mid.writing
    ensures var (off, pool) := E.Alloc(mid.pool, size);
            off.Some? && AllocateOne(st, k, size, s, skip).1 == Registered(mid, pool, Entry(k, off.value, size, Writing(s), 0), s)
  {
    mid := AllocateKeeps(st, size, multiset{});
    assert mid.writing == st.writing;
    hide *;
    GrantUnfolds(st, k, size, s, skip);
    RegisteredPool(mid, Allocate(st, size).1.pool, Entry(k, Allocate(st, size).0.value, size, Writing(s), 0), s);
  }

  lemma GrantUnfolds(st: State, k: Key, size: int, s: Session, skip: bool)
    requires AllocateOne(st, k, size, s, skip).0.New?
    ensures var (off, st1) := Allocate(st, size);
            && (k, s) !in st.writing && off.Some?
            && AllocateOne(st, k, size, s, skip).1 == Registered(st1, st1.pool, Entry(k, off.value, size, Writing(s), 0), s)
  {
    var (off, st1) := Allocate(st, size);
    hide Allocate;
    assert off.Some?;
  }

  lemma RegisteredPool(st: State, pool: E.Pool, e: Entry, s: Session)
    ensures Registered(st.(pool := pool), pool, e, s) == Registered(st, pool, e, s)
  {
  }

  /** A granted request keeps the partition if and only if its size is above minus one page. */
  lemma GrantIff(st: State, k: Key, size: int, s: Session, skip: bool)
    requires Inv(st) && AllocateOne(st, k, size, s, skip).0.New?
    ensures var st' := AllocateOne(st, k, size, s, skip).1;
            Partition(st'.pool, st'.entries) <==> size + st.pool.page > 0
  {
    var mid := GrantIs(st, k, size, s, skip);
    PoolAndIds(mid);
    hide Inv, AllocateOne, Partition, E.Alloc;
    PartitionIff(mid.pool, mid.entries, mid.nextId, Entry(k, E.Alloc(mid.pool, size).0.value, size, Writing(s), 0));
  }

  lemma PoolAndIds(st: State)
    requires Inv(st)
    ensures PagesOk(st.pool, st.entries) && FreshIds(st) && st.nextId !in st.entries
  {
  }

  // ------------------------------------------------------------ giving back

  ghost predicate Touches(p: E.Pool, s: int) { exists e :: e in p.free && (e.start == s || e.End() == s) }

  lemma GiveBackHollow(p: E.Pool, entries: map<Id, Entry>, id: Id)
    requires Partition(p, entries) && p.total == 0 && id in entries && E.PagesFor(p.page, entries[id].size) == 0
    ensures Partition(E.Free(p, entries[id].offset, entries[id].size), entries - {id})
  {
    hide E.PagesFor, E.Wf, RunOf, E.FreePages, E.Insert, E.Bisect;
    var e := entries[id];
    assert Lies(p, e);
    E.FreeWithoutPages(p, e.offset, e.size);
    HollowWithout(p, E.Free(p, e.offset, e.size), entries, id);
  }

  lemma HollowWithout(p: E.Pool, r: E.Pool, entries: map<Id, Entry>, id: Id)
    requires Partition(p, entries) && E.Wf(r) && p.total == r.total == 0 && p.page == r.page && E.FreePages(r) == {}
    ensures Partition(r, entries - {id})
  {
    hide E.PagesFor, E.Wf, RunOf, E.FreePages;
    forall x | x in entries - {id} ensures Lies(r, entries[x]) { assert Lies(p, entries[x]); }
  }

  /** Giving back an empty entry keeps the partition if and only if its place touches a free extent, or there is no page. */
  lemma GiveBackEmptyIff(p: E.Pool, entries: map<Id, Entry>, id: Id)
    requires Partition(p, entries) && id in entries && E.PagesFor(p.page, entries[id].size) == 0
    ensures Partition(E.Free(p, entries[id].offset, entries[id].size), entries - {id})
            <==> p.total == 0 || Touches(p, entries[id].offset / p.page)
  {
    var e := entries[id];
    assert Lies(p, e);
    E.FreeOfNothing(p, e.offset, e.size);
    if p.total == 0 { GiveBackHollow(p, entries, id); }
    hide E.Free, E.PagesFor;
    if p.total > 0 && E.Free(p, e.offset, e.size) == p { WithoutEmpty(p, entries, id); }
  }

  lemma WithoutEmpty(p: E.Pool, entries: map<Id, Entry>, id: Id)
    requires Partition(p, entries) && id in entries && E.PagesFor(p.page, entries[id].size) == 0
    ensures Partition(p, entries - {id})
  {
    hide E.PagesFor;
    var m := entries - {id};
    assert RunOf(p.page, entries[id]) == {};
    forall q | 0 <= q < p.total && q !in E.FreePages(p) ensures Owned(p.page, m, q) {
      assert Owned(p.page, entries, q);
      var x :| x in entries && q in RunOf(p.page, entries[x]);
      assert x in m && m[x] == entries[x];
    }
  }

  // ------------------------------------------- an empty entry can be made to break

  /** An unfinished empty entry placed at the start of the first free extent. */
  ghost predicate Empty(st: State, k: Key, s: Session) {
    && E.Wf(st.pool) && st.pool.total > 0 && st.pool.free != []
    && (k, s) in st.writing && st.writing[(k, s)] in st.entries && st.writing[(k, s)] < st.nextId
    && var e := st.entries[st.writing[(k, s)]];
       E.PagesFor(st.pool.page, e.size) == 0 && e.offset / st.pool.page == st.pool.free[0].start
  }

  lemma {:induction false} LongerThanAll(names: set<string>) returns (n: nat)
    ensures forall x :: x in names ==> |x| < n
  {
    n := 0;
    if names != {} {
      var x :| x in names;
      var m := LongerThanAll(names - {x});
      n := if m > |x| then m else |x| + 1;
    }
  }

  lemma FreshSession(writing: map<(Key, Session), Id>, k: Key) returns (s: Session)
    ensures (k, s) !in writing
  {
    var names := set w | w in writing :: w.1;
    assert forall w :: w in writing ==> w.1 in names;
    var n := LongerThanAll(names);
    s := seq(n, i => 'x');
    assert (k, s) in writing ==> (k, s).1 in names;
  }

  /** All of the pool, a write that fills the first free extent, and the empty entry given back. */
  function Breaker(st: State, k: Key, s: Session, other: Session): seq<Op>
    requires st.pool.free != []
  {
    [OpSetCapacity(PoolBytes(st.pool)), OpAlloc([k], st.pool.free[0].len * st.pool.page, other, false), OpAbort([k], s)]
  }

  lemma WholePool(st: State)
    requires E.Wf(st.pool)
    ensures SetCapacity(st, PoolBytes(st.pool)) == st.(capacity := PoolBytes(st.pool))
  {
    UsedWithin(st.pool.used, st.pool.total, st.pool.page);
    hide E.Wf, EvictOne;
    assert Shrink(st.(capacity := PoolBytes(st.pool))) == st.(capacity := PoolBytes(st.pool));
  }

  lemma UsedWithin(used: int, total: int, page: E.pos)
    requires used <= total && 0 <= total
    ensures used * page <= total * page && 0 <= total * page
  {
  }

  /** A write as long as the first extent takes exactly that extent. */
  lemma FillFirst(p: E.Pool)
    requires E.Wf(p) && p.total > 0 && p.free != []
    ensures var n := p.free[0].len * p.page;
            && n > 0 && E.PagesFor(p.page, n) == p.free[0].len && p.used + p.free[0].len <= p.total
            && E.Alloc(p, n) == (Some(p.free[0].start * p.page), p.(free := p.free[1..], used := p.used + p.free[0].len))
  {
    var len := p.free[0].len;
    FirstInPool(p);
    ExactPages(p.page, len);
    E.PagesForLeast(p.page, len * p.page);
    E.AllocIsLowestFit(p, len * p.page);
    E.RunSize(p.free[0].start, len);
    assert E.FirstFit(p.free, len, 0) == 0;
    assert p.free[..0] + p.free[1..] == p.free[1..];
  }

  lemma ExactPages(page: E.pos, len: int)
    ensures E.PagesFor(page, len * page) == len
  {
    E.DivUnique(-(len * page), page, -len);
  }

  lemma FillCapacity(st: State)
    requires E.Wf(st.pool) && st.pool.total > 0 && st.pool.free != [] && st.capacity == PoolBytes(st.pool)
    ensures FitsCapacity(st, st.pool.free[0].len * st.pool.page)
  {
    FillFirst(st.pool);
    hide E.Alloc, E.PagesFor, E.Wf;
    var p, n := st.pool, st.pool.free[0].len;
    UsedWithin(p.used + n, p.total, p.page);
    assert (p.used + n) * p.page == p.used * p.page + n * p.page;
  }

  /** The write of the breaker is granted the first extent. */
  lemma FillStep(st: State, k: Key, other: Session)
    requires E.Wf(st.pool) && st.pool.total > 0 && st.pool.free != [] && st.capacity == PoolBytes(st.pool)
    requires (k, other) !in st.writing
    ensures var n := st.pool.free[0].len * st.pool.page;
            var e := Entry(k, st.pool.free[0].start * st.pool.page, n, Writing(other), 0);
            Step(st, OpAlloc([k], n, other, false)) == Registered(st, E.Alloc(st.pool, n).1, e, other)
  {
    FillFirst(st.pool);
    FillCapacity(st);
    var n := st.pool.free[0].len * st.pool.page;
    hide FitsCapacity, E.Alloc;
    assert Allocate(st, n) == (E.Alloc(st.pool, n).0, st.(pool := E.Alloc(st.pool, n).1));
    hide Allocate;
    var one := AllocateOne(st, k, n, other, false).1;
    assert [k][1..] == [];
    assert AllocateForWrite(one, [], n, other, false).1 == one;
  }

  lemma AbortStep(st: State, k: Key, s: Session)
    requires (k, s) in st.writing && st.writing[(k, s)] in st.entries
    ensures Step(st, OpAbort([k], s)) == FreeEntry(st.(writing := st.writing - {(k, s)}), st.writing[(k, s)])
  {
    hide E.Free;
    assert [k][1..] == [];
    var one := AbortOne(st, k, s);
    assert Abort(one, [], s) == one;
  }

  /** Away from the extent it was placed at, the empty entry touches nothing free. */
  lemma FilledTouchesNot(p: E.Pool)
    requires E.Wf(p) && p.total > 0 && p.free != []
    ensures !Touches(p.(free := p.free[1..]), p.free[0].start)
  {
    forall e | e in p.free[1..] ensures e.start != p.free[0].start && e.End() != p.free[0].start {
      var j :| 0 <= j < |p.free[1..]| && p.free[1..][j] == e;
      E.ExtentsAscend(-1, p.free, p.total, 0, j + 1);
      E.LenPositive(-1, p.free, p.total, j + 1);
      E.LenPositive(-1, p.free, p.total, 0);
    }
  }

  lemma FillThenAbort(st: State, k: Key, s: Session, other: Session)
    requires Empty(st, k, s) && (k, other) !in st.writing && st.capacity == PoolBytes(st.pool)
    ensures var n := st.pool.free[0].len * st.pool.page;
            !E.Wf(Step(Step(st, OpAlloc([k], n, other, false)), OpAbort([k], s)).pool)
  {
    var p := st.pool;
    var n := p.free[0].len * p.page;
    FillFirst(p);
    FillStep(st, k, other);
    FilledTouchesNot(p);
    E.AllocIsLowestFit(p, n);
    FirstInPool(p);
    var st2 := Step(st, OpAlloc([k], n, other, false));
    hide E.Wf, E.Free, E.Alloc, E.PagesFor, Step;
    AbortStep(st2, k, s);
    var e := st.entries[st.writing[(k, s)]];
    E.FreeOfNothing(st2.pool, e.offset, e.size);
  }

  /** From any store with such an entry, two requests and an abort break the free list. */
  lemma EmptyBreaks(st: State, k: Key, s: Session, other: Session)
    requires Empty(st, k, s) && (k, other) !in st.writing
    ensures Legal(st, Breaker(st, k, s, other)) && !E.Wf(Run(st, Breaker(st, k, s, other)).pool)
  {
    hide E.Wf, E.Alloc, E.PagesFor, SetCapacity, AllocateForWrite, Abort;
    var ops := Breaker(st, k, s, other);
    WholePool(st);
    FillFirst(st.pool);
    FillThenAbort(st.(capacity := PoolBytes(st.pool)), k, s, other);
    hide Empty, Run, Legal;
    ThreeSteps(st, ops);
    LegalThree(st, ops);
  }

  lemma LegalThree(st: State, ops: seq<Op>)
    requires |ops| == 3 && ops[0].OpSetCapacity? && ops[1].OpAlloc? && ops[1].size > 0 && ops[2].OpAbort?
    ensures Legal(st, ops)
  {
    hide Step;
    var s1, s2 := ops[1..], ops[1..][1..];
    assert s1[0] == ops[1] && s2[0] == ops[2] && s2[1..] == [];
    var a := Step(st, ops[0]);
    assert Legal(Step(Step(a, ops[1]), ops[2]), s2[1..]);
    assert Legal(Step(a, ops[1]), s2);
    assert Legal(a, s1);
  }

  // --------------------------------------------------- the rest of one request

  /** A store that has been granted a negative number of pages and can only be granted more. */
  ghost predicate Worse(st: State, size: int, q: int) {
    && size + st.pool.page <= 0 && Hurt(st.pool, st.entries, q)
    && E.Spaced(st.pool.free) && FitsCapacity(st, size) && FreshIds(st)
  }

  /** A store that has been granted an empty entry and can only be granted more. */
  ghost predicate Emptied(st: State, size: int, k: Key, s: Session) {
    size <= 0 && E.PagesFor(st.pool.page, size) == 0 && Empty(st, k, s) && FitsCapacity(st, size)
  }

  /** With room for the request nothing is evicted. */
  lemma NoEviction(st: State, size: int)
    requires FitsCapacity(st, size) && E.Alloc(st.pool, size).0.Some?
    ensures Allocate(st, size) == (E.Alloc(st.pool, size).0, st.(pool := E.Alloc(st.pool, size).1))
  {
  }

  lemma WorseGrows(st: State, size: int, q: int, e: Entry, s: Session)
    requires Worse(st, size, q)
    ensures E.Alloc(st.pool, size).0.Some? && Worse(Registered(st, E.Alloc(st.pool, size).1, e, s), size, q)
  {
    var p, need := st.pool, E.PagesFor(st.pool.page, size);
    E.PagesForLeast(p.page, size);
    E.AllocOfNothing(p, size);
    var p' := E.Alloc(p, size).1;
    assert E.InRun(p'.free[0].start, p'.free[0].len, q);
    if q >= 0 { StillOwned(p, st.entries, st.nextId, e, q); }
    FitsAgain(st, p', size);
  }

  lemma WorseOne(st: State, k: Key, size: int, s: Session, skip: bool, q: int)
    requires Worse(st, size, q)
    ensures Worse(AllocateOne(st, k, size, s, skip).1, size, q)
  {
    hide Allocate, E.Alloc, E.Spaced, Hurt, FitsCapacity, AllocateOne;
    var (a, st') := AllocateOne(st, k, size, s, skip);
    WorseHasRoom(st, size, q);
    NoEviction(st, size);
    if a.New? {
      WorseGrows(st, size, q, Entry(k, E.Alloc(st.pool, size).0.value, size, Writing(s), 0), s);
      hide Worse;
      GrantUnfolds(st, k, size, s, skip);
      RegisteredPool(st, E.Alloc(st.pool, size).1, Entry(k, E.Alloc(st.pool, size).0.value, size, Writing(s), 0), s);
    } else {
      NotFull(st, k, size, s, skip);
      FitsFrame(st, st', size);
    }
  }

  lemma WorseHasRoom(st: State, size: int, q: int)
    requires Worse(st, size, q)
    ensures E.Alloc(st.pool, size).0.Some?
  {
    E.AllocOfNothing(st.pool, size);
  }

  /** With room for the request the answer is not that there is none, and the pool is touched by grants only. */
  lemma NotFull(st: State, k: Key, size: int, s: Session, skip: bool)
    requires Allocate(st, size).0.Some?
    ensures var (a, st') := AllocateOne(st, k, size, s, skip);
            !a.New? ==> st' == st.(lru := st'.lru)
  {
    hide Allocate;
  }

  lemma EmptiedOne(st: State, k: Key, size: int, s: Session, skip: bool, first: Key)
    requires Emptied(st, size, first, s)
    ensures Emptied(AllocateOne(st, k, size, s, skip).1, size, first, s)
  {
    E.SeparatedIsSpaced(st.pool.free, st.pool.total);
    E.AllocOfNothing(st.pool, size);
    EmptyAlloc(st.pool, size);
    NoEviction(st, size);
    hide Allocate, E.Alloc, E.Wf, E.Spaced, E.PagesFor;
    if AllocateOne(st, k, size, s, skip).0.New? { GrantUnfolds(st, k, size, s, skip); }
  }

  lemma {:induction false} WorseAll(st: State, ks: seq<Key>, size: int, s: Session, skip: bool, q: int)
    requires Worse(st, size, q)
    ensures Worse(AllocateForWrite(st, ks, size, s, skip).1, size, q)
    decreases |ks|
  {
    hide Worse, AllocateOne;
    if ks != [] {
      WorseOne(st, ks[0], size, s, skip, q);
      WorseAll(AllocateOne(st, ks[0], size, s, skip).1, ks[1..], size, s, skip, q);
    }
  }

  lemma {:induction false} EmptiedAll(st: State, ks: seq<Key>, size: int, s: Session, skip: bool, first: Key)
    requires Emptied(st, size, first, s)
    ensures Emptied(AllocateForWrite(st, ks, size, s, skip).1, size, first, s)
    decreases |ks|
  {
    hide Emptied, AllocateOne;
    if ks != [] {
      EmptiedOne(st, ks[0], size, s, skip, first);
      EmptiedAll(AllocateOne(st, ks[0], size, s, skip).1, ks[1..], size, s, skip, first);
    }
  }

  /** The first grant without a positive size puts the store in one of the two states. */
  lemma FirstBad(st: State, k: Key, size: int, s: Session, skip: bool)
    requires Inv(st) && st.pool.total > 0 && size <= 0 && AllocateOne(st, k, size, s, skip).0.New?
    ensures var st' := AllocateOne(st, k, size, s, skip).1;
            (exists q :: Worse(st', size, q)) || Emptied(st', size, k, s)
  {
    var mid := GrantIs(st, k, size, s, skip);
    PoolAndIds(mid);
    hide Inv, AllocateOne, Trimmed;
    var (off, pool) := E.Alloc(mid.pool, size);
    var e := Entry(k, off.value, size, Writing(s), 0);
    E.PagesForLeast(mid.pool.page, size);
    if size + mid.pool.page <= 0 {
      FirstNegative(mid, e, s);
    } else {
      FirstEmpty(mid, e, s);
    }
  }

  lemma FirstNegative(mid: State, e: Entry, s: Session)
    requires PagesOk(mid.pool, mid.entries) && FreshIds(mid) && mid.nextId !in mid.entries && mid.pool.total > 0
    requires e.size + mid.pool.page <= 0 && FitsCapacity(mid, e.size) && E.Alloc(mid.pool, e.size).0 == Some(e.offset)
    ensures mid.pool.free != []
    ensures Worse(Registered(mid, E.Alloc(mid.pool, e.size).1, e, s), e.size, mid.pool.free[0].start - 1)
  {
    E.SeparatedIsSpaced(mid.pool.free, mid.pool.total);
    E.AllocOfNothing(mid.pool, e.size);
    NegativeHurts(mid.pool, mid.entries, mid.nextId, e);
    hide FitsCapacity, E.Alloc, E.Spaced, Hurt, PagesOk;
    FitsAgain(mid, E.Alloc(mid.pool, e.size).1, e.size);
    FitsFrame(mid.(pool := E.Alloc(mid.pool, e.size).1), Registered(mid, E.Alloc(mid.pool, e.size).1, e, s), e.size);
  }

  lemma FirstEmpty(mid: State, e: Entry, s: Session)
    requires PagesOk(mid.pool, mid.entries) && mid.pool.total > 0 && e.size <= 0
    requires E.PagesFor(mid.pool.page, e.size) == 0 && FitsCapacity(mid, e.size)
    requires E.Alloc(mid.pool, e.size).0 == Some(e.offset)
    ensures Emptied(Registered(mid, E.Alloc(mid.pool, e.size).1, e, s), e.size, e.key, s)
  {
    EmptyAlloc(mid.pool, e.size);
    hide FitsCapacity, E.Alloc, E.Wf;
    FitsFrame(mid, Registered(mid, mid.pool, e, s), e.size);
  }

  lemma FitsFrame(a: State, b: State, size: int)
    requires a.pool == b.pool && a.capacity == b.capacity
    ensures FitsCapacity(a, size) == FitsCapacity(b, size)
  {
  }

  lemma {:induction false} BadGrant(st: State, ks: seq<Key>, size: int, s: Session, skip: bool)
    requires Inv(st) && st.pool.total > 0 && size <= 0 && !NoneGranted(AllocateForWrite(st, ks, size, s, skip).0)
    ensures var st' := AllocateForWrite(st, ks, size, s, skip).1;
            (exists q :: Worse(st', size, q)) || exists k :: Emptied(st', size, k, s)
    decreases |ks|
  {
    hide Inv, AllocateOne, Worse, Emptied;
    var (a, st1) := AllocateOne(st, ks[0], size, s, skip);
    NoneGrantedCons(a, AllocateForWrite(st1, ks[1..], size, s, skip).0);
    if a.New? {
      FirstBad(st, ks[0], size, s, skip);
      if q :| Worse(st1, size, q) {
        WorseAll(st1, ks[1..], size, s, skip, q);
      } else {
        EmptiedAll(st1, ks[1..], size, s, skip, ks[0]);
      }
    } else {
      AllocateOneKeeps(st, ks[0], size, s, skip);
      SamePool(st, st1);
      BadGrant(st1, ks[1..], size, s, skip);
    }
  }

  lemma SamePool(a: State, b: State)
    requires Quiet(a, b)
    ensures b.pool.total == a.pool.total
  {
  }

  ghost predicate PartitionAfter(st: State, ops: seq<Op>) {
    Partition(Run(st, ops).pool, Run(st, ops).entries)
  }

  lemma BadGrantBreaks(st: State, size: int, s: Session)
    requires (exists q :: Worse(st, size, q)) || exists k :: Emptied(st, size, k, s)
    ensures exists ops :: Legal(st, ops) && !PartitionAfter(st, ops)
  {
    if q :| Worse(st, size, q) {
      HurtIsNoPartition(st.pool, st.entries, q);
      assert Legal(st, []) && !PartitionAfter(st, []);
    } else {
      var k :| Emptied(st, size, k, s);
      var other := FreshSession(st.writing, k);
      EmptyBreaks(st, k, s, other);
      assert !PartitionAfter(st, Breaker(st, k, s, other));
    }
  }

  /** Whether a write request is followed can be told beforehand: it grants nothing without a positive size. */
  lemma EnabledIff(st: State, op: Op)
    requires Inv(st) && op.OpAlloc?
    ensures Enabled(st, op) <==>
            || op.size > 0 || !Room(Flush(st), op.size)
            || forall k :: k in op.keys ==> !Wanted(st, k, op.session, op.skip)
  {
    hide Inv, Room, Flush, Wanted, NoneGranted;
    NoneGrantedIff(st, op.keys, op.size, op.session, op.skip);
  }

  /**
   A write request is safe, in the sense that the partition survives whatever legal requests follow, if
   and only if its size is positive, or there would be no room for it after a flush, or each of its keys
   is cached or being written already.
   */
  lemma SafeIff(st: State, op: Op)
    requires Inv(st) && st.pool.total > 0 && op.OpAlloc?
    ensures (forall ops :: Legal(Step(st, op), ops) ==> PartitionAfter(Step(st, op), ops)) <==>
            || op.size > 0 || !Room(Flush(st), op.size)
            || forall k :: k in op.keys ==> !Wanted(st, k, op.session, op.skip)
  {
    hide Room, Flush, Wanted;
    EnabledIff(st, op);
    SafeIffEnabled(st, op);
  }

  lemma SafeIffEnabled(st: State, op: Op)
    requires Inv(st) && st.pool.total > 0 && op.OpAlloc?
    ensures (forall ops :: Legal(Step(st, op), ops) ==> PartitionAfter(Step(st, op), ops)) <==> Enabled(st, op)
  {
    var st' := Step(st, op);
    if Enabled(st, op) {
      StepKeeps(st, op);
      forall ops | Legal(st', ops) ensures PartitionAfter(st', ops) {
        RunKeeps(st', ops);
        PoolAndIds(Run(st', ops));
        PagesOkIs(Run(st', ops).pool, Run(st', ops).entries);
      }
    } else {
      hide Inv, Legal, PartitionAfter, Worse, Emptied;
      BadGrant(st, op.keys, op.size, op.session, op.skip);
      BadGrantBreaks(st', op.size, op.session);
    }
  }

  // ------------------------------------------------------------- two such runs

  const OTHER := Key("b", 0)

  lemma OneRequest(st: State, k: Key, size: int, s: Session)
    requires FitsCapacity(st, size) && E.Alloc(st.pool, size).0.Some? && st.writing == map[] && k !in st.index
    ensures var (off, pool) := E.Alloc(st.pool, size);
            Step(st, OpAlloc([k], size, s, true)) == Registered(st, pool, Entry(k, off.value, size, Writing(s), 0), s)
  {
    NoEviction(st, size);
    hide FitsCapacity, E.Alloc, Allocate;
    var one := AllocateOne(st, k, size, s, true).1;
    assert [k][1..] == [];
    assert AllocateForWrite(one, [], size, s, true).1 == one;
  }

  /** In a pool of one-byte pages with one extent left, a request of no byte or fewer is met there. */
  lemma BytePool(st: State, start: int, len: int, size: int)
    requires st.pool.page == 1 && st.pool.free == [E.Extent(start, len)] && len > 0 && size <= 0
    requires st.pool.used + size <= st.capacity
    ensures E.PagesFor(1, size) == size && FitsCapacity(st, size)
    ensures E.Alloc(st.pool, size) == (Some(start), st.pool.(free := [E.Extent(start + size, len - size)], used := st.pool.used + size))
  {
    E.DivUnique(-size, 1, -size);
    hide E.PagesFor;
    assert E.FirstFit(st.pool.free, size, 0) == 0;
    assert E.Carve(st.pool.free, 0, size) == [E.Extent(start + size, len - size)];
  }

  /** One used page below one free extent: a request of size minus one frees the used page. */
  lemma FreesBelow(st: State, k: Key, s: Session)
    requires st.pool == E.Pool(1, 4, [E.Extent(1, 3)], 1) && st.capacity == 4 && st.writing == map[] && k !in st.index
    requires 0 in st.entries && st.nextId == 1 && st.entries[0].offset == 0 && st.entries[0].size == 1
    ensures var st' := Step(st, OpAlloc([k], -1, s, true));
            && st'.pool.free == [E.Extent(0, 4)] && st'.leases == st.leases
            && 0 in st'.entries && st'.entries[0] == st.entries[0] && 0 in RunOf(1, st'.entries[0])
            && !Partition(st'.pool, st'.entries)
  {
    hide E.PagesFor, E.Alloc, FitsCapacity, Partition, Step, RunOf, Hurt;
    BytePool(st, 1, 3, -1);
    OneRequest(st, k, -1, s);
    var st' := Step(st, OpAlloc([k], -1, s, true));
    FirstByteHurts(st'.pool, st'.entries);
    HurtIsNoPartition(st'.pool, st'.entries, 0);
  }

  lemma FirstByteHurts(p: E.Pool, entries: map<Id, Entry>)
    requires p.page == 1 && p.free == [E.Extent(0, 4)] && 0 in entries && entries[0].offset == 0 && entries[0].size == 1
    ensures 0 in RunOf(1, entries[0]) && Hurt(p, entries, 0)
  {
    OneByteIsOnePage();
    hide E.PagesFor;
    assert RunOf(1, entries[0]) == E.Run(0, 1);
    hide RunOf;
    InOwnRun(0, 1, 0);
    InOwnRun(0, 4, 0);
    assert Owned(1, entries, 0);
  }

  lemma InOwnRun(s: int, n: int, q: int)
    requires s <= q < s + n
    ensures q in E.Run(s, n)
  {
    assert E.InRun(s, n, q);
  }

  /**
   A reachable run in which a page under a live lease is free again: one page is written and leased,
   then a request of size minus one is granted.
   */
  lemma NegativeWrite()
    ensures Run(Init(4, 1, None), FIRST) == LEASED && 1 in LEASED.leases && LEASED.entries[0].pins == 1
    ensures var st := Step(LEASED, OpAlloc([OTHER], -1, "s", true));
            && st.pool.free == [E.Extent(0, 4)] && st.leases == LEASED.leases
            && 0 in st.entries && st.entries[0] == LEASED.entries[0] && 0 in RunOf(1, st.entries[0])
            && !Partition(st.pool, st.entries)
  {
    hide Run, Step, Partition, RunOf, Init;
    FirstVersion();
    assert OTHER.hash[0] != KEY.hash[0];
    FreesBelow(LEASED, OTHER, "s");
  }

  /** In a fresh pool an empty write, a write of the whole pool and an abort break the free list. */
  lemma EmptyThenFull(st: State, k: Key, s: Session, other: Session)
    requires st.pool == E.Pool(1, 4, [E.Extent(0, 4)], 0) && E.Wf(st.pool) && st.capacity == 4
    requires st.writing == map[] && k !in st.index && s != other
    ensures var st' := Step(st, OpAlloc([k], 0, s, true));
            && Empty(st', k, s)
            && Breaker(st', k, s, other) == [OpSetCapacity(4), OpAlloc([k], 4, other, false), OpAbort([k], s)]
            && !E.Wf(Run(st', Breaker(st', k, s, other)).pool)
  {
    hide Step, Run, E.PagesFor, E.Alloc, E.Wf, FitsCapacity;
    BytePool(st, 0, 4, 0);
    OneRequest(st, k, 0, s);
    var st' := Step(st, OpAlloc([k], 0, s, true));
    assert st'.writing == map[(k, s) := st.nextId];
    hide Registered;
    EmptyBreaks(st', k, s, other);
  }

  /** A reachable run that breaks the free list: an empty write, its page given to another, an abort. */
  lemma EmptyWrite()
    ensures var st := Step(Init(4, 1, None), OpAlloc([KEY], 0, "s", true));
            && Empty(st, KEY, "s")
            && !E.Wf(Run(st, [OpSetCapacity(4), OpAlloc([KEY], 4, "t", false), OpAbort([KEY], "s")]).pool)
  {
    E.FreshWf(4, 1);
    hide Step, Run, E.Wf, Empty;
    assert "s"[0] != "t"[0];
    EmptyThenFull(Init(4, 1, None), KEY, "s", "t");
  }
}
