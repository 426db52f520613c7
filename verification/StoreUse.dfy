/**
 What requests accomplish: committed chunks are published and found again, and write requests are
 answered by what the store holds and could make room for.
 */
module StoreUse {
  import E = Extents
  import opened Store
  import opened StoreInv
  import opened StoreRuns

  // ---------------------------------------------------------------- commit

  /** The writes of session `s` that a commit of `ks` publishes. */
  ghost function Published(writing: map<(Key, Session), Id>, ks: seq<Key>, s: Session): map<Key, Id> {
    map k | k in ks && (k, s) in writing :: writing[(k, s)]
  }

  /** Publishing the first key and then the others is publishing all. */
  lemma PublishedCons(index: map<Key, Id>, writing: map<(Key, Session), Id>, ks: seq<Key>, s: Session)
    requires ks != []
    ensures var k := ks[0];
            var index1 := if (k, s) in writing then index[k := writing[(k, s)]] else index;
            index1 + Published(writing - {(k, s)}, ks[1..], s) == index + Published(writing, ks, s)
  {
    var k := ks[0];
    var p, q := Published(writing, ks, s), Published(writing - {(k, s)}, ks[1..], s);
    forall x ensures (x in q <==> x in p && x != k) && (x in q ==> p[x] == q[x]) {
      assert x in ks <==> x == k || x in ks[1..];
    }
    assert k in p <==> (k, s) in writing;
    assert k in p ==> p[k] == writing[(k, s)];
    hide Published;
    MergeCons(index, p, q, k);
  }

  lemma MergeCons(index: map<Key, Id>, p: map<Key, Id>, q: map<Key, Id>, k: Key)
    requires forall x :: (x in q <==> x in p && x != k) && (x in q ==> p[x] == q[x])
    ensures (if k in p then index[k := p[k]] else index) + q == index + p
  {
  }

  lemma CommitOneExact(st: State, k: Key, s: Session)
    requires Inv(st)
    ensures var st' := CommitOne(st, k, s);
      && st'.writing == st.writing - {(k, s)}
      && st'.index == (if (k, s) in st.writing then st.index[k := st.writing[(k, s)]] else st.index)
  {
    hide Balanced;
    if (k, s) in st.writing {
      CommitOneIs(st, k, s);
      IndexParts(st.index, k, st.writing[(k, s)]);
    } else {
      assert st.writing - {(k, s)} == st.writing;
    }
  }

  lemma IndexParts(index: map<Key, Id>, k: Key, id: Id)
    ensures (index - {k})[k := id] == index[k := id]
  {
  }

  /** After a commit the index holds exactly what it held, overridden by the session's writes. */
  lemma {:induction false} CommitExact(st: State, ks: seq<Key>, s: Session)
    requires Inv(st)
    ensures Commit(st, ks, s).index == st.index + Published(st.writing, ks, s)
    ensures forall w :: w in Commit(st, ks, s).writing <==> w in st.writing && !(w.1 == s && w.0 in ks)
    decreases |ks|
  {
    hide Inv, CommitOne, Published;
    if ks == [] {
      NothingPublished(st.writing, s);
    } else {
      var k, st1 := ks[0], CommitOne(st, ks[0], s);
      CommitOneExact(st, k, s);
      CommitOneKeeps(st, k, s);
      CommitExact(st1, ks[1..], s);
      PublishedCons(st.index, st.writing, ks, s);
      assert forall x :: x in ks <==> x == k || x in ks[1..];
    }
  }

  lemma NothingPublished(writing: map<(Key, Session), Id>, s: Session)
    ensures Published(writing, [], s) == map[]
  {
  }

  lemma {:induction false} AllHits(st: State, hashes: seq<string>, ranks: int)
    requires forall i :: 0 <= i < |hashes| ==> Hit(st, hashes[i], ranks)
    ensures Hits(st, hashes, ranks) == |hashes|
  {
    if hashes != [] { AllHits(st, hashes[1..], ranks); }
  }

  /**
   A prefix is found in full after a commit if and only if each of its chunks was cached before on
   every rank or is published by the commit.
   */
  lemma CommitThenLookup(st: State, ks: seq<Key>, s: Session, hashes: seq<string>, ranks: int)
    requires Inv(st)
    ensures Hits(Commit(st, ks, s), hashes, ranks) == |hashes| <==>
            forall i, r :: 0 <= i < |hashes| && 0 <= r < ranks ==>
              var k := Key(hashes[i], r); k in st.index || (k in ks && (k, s) in st.writing)
  {
    CommitExact(st, ks, s);
    var st' := Commit(st, ks, s);
    hide Commit, Inv;
    assert forall k :: k in st'.index <==> k in st.index || (k in ks && (k, s) in st.writing);
    HitsIsLongestPrefix(st', hashes, ranks);
    if forall i :: 0 <= i < |hashes| ==> Hit(st', hashes[i], ranks) { AllHits(st', hashes, ranks); }
  }

  // ------------------------------------------------------------------ room

  ghost predicate LeastPages(page: E.pos, nbytes: int, n: int) { (n - 1) * page < nbytes <= n * page }

  /**
   The request fits as the store is: the pages it takes keep what is in use within the capacity, and as many are
   free in a row. A request for nothing needs a listed extent only.
   */
  ghost predicate Room(st: State, nbytes: int) {
    exists n :: LeastPages(st.pool.page, nbytes, n)
      && (st.pool.used + n) * st.pool.page <= st.capacity
      && (if nbytes > 0 then exists s :: E.Run(s, n) <= E.FreePages(st.pool) else st.pool.free != [])
  }

  lemma LeastIs(page: E.pos, nbytes: int, n: int)
    ensures LeastPages(page, nbytes, n) <==> n == E.PagesFor(page, nbytes)
  {
    E.PagesForLeast(page, nbytes);
    var m := E.PagesFor(page, nbytes);
    hide E.PagesFor;
    if n < m { assert n * page <= (m - 1) * page; }
    if m < n { assert m * page <= (n - 1) * page; }
  }

  lemma FoundIff(p: E.Pool, nbytes: int)
    requires E.Wf(p)
    ensures E.Alloc(p, nbytes).0.Some? <==>
            if nbytes > 0 then exists s :: E.Run(s, E.PagesFor(p.page, nbytes)) <= E.FreePages(p) else p.free != []
  {
    if nbytes > 0 {
      E.AllocIsLowestFit(p, nbytes);
    } else {
      E.SeparatedIsSpaced(p.free, p.total);
      E.AllocOfNothing(p, nbytes);
    }
  }

  /** That is what the store tests. */
  lemma RoomIff(st: State, nbytes: int)
    requires E.Wf(st.pool)
    ensures Room(st, nbytes) <==> FitsCapacity(st, nbytes) && E.Alloc(st.pool, nbytes).0.Some?
  {
    hide LeastPages, FitsCapacity, E.Alloc, E.PagesFor, E.Wf, E.FreePages;
    var page, m := st.pool.page, E.PagesFor(st.pool.page, nbytes);
    FitsIs(st, nbytes);
    FoundIff(st.pool, nbytes);
    LeastIs(page, nbytes, m);
    if Room(st, nbytes) {
      var n :| LeastPages(page, nbytes, n) && (st.pool.used + n) * page <= st.capacity
        && (if nbytes > 0 then exists s :: E.Run(s, n) <= E.FreePages(st.pool) else st.pool.free != []);
      LeastIs(page, nbytes, n);
    }
  }

  /** Keys that are pinned, or not cached, make no difference to a flush. */
  lemma {:induction false} SkipPinned(st: State, ks: seq<Key>, rest: seq<Key>)
    requires forall k :: k in ks ==> !(Cached(st, k) && Pins(st, k) == 0)
    ensures FlushKeys(st, ks + rest) == FlushKeys(st, rest)
  {
    if ks == [] {
      assert ks + rest == rest;
    } else {
      assert (ks + rest)[1..] == ks[1..] + rest;
      SkipPinned(st, ks[1..], rest);
    }
  }

  lemma {:induction false} WithoutAt(a: seq<Key>, c: seq<Key>)
    requires c != [] && c[0] !in a
    ensures Without(a + c, c[0]) == a + c[1..]
  {
    if a == [] {
      assert a + c == c && a + c[1..] == c[1..];
    } else {
      assert (a + c)[1..] == a[1..] + c;
      WithoutAt(a[1..], c);
      ConsConcat(a, c[1..]);
    }
  }

  lemma ConsConcat(a: seq<Key>, b: seq<Key>)
    requires a != []
    ensures [a[0]] + (a[1..] + b) == a + b
  {
  }

  /** Dropping one key changes nothing for the pins of another. */
  lemma DropOthers(st: State, v: Key, k: Key)
    requires IndexOk(st) && v in st.index && k != v
    ensures Cached(Drop(st, v), k) == Cached(st, k) && Pins(Drop(st, v), k) == Pins(st, k)
  {
    hide E.Free;
  }

  lemma FlushPast(st: State, a: seq<Key>, v: Key, b: seq<Key>)
    requires IndexOk(st) && v in st.index && Pins(st, v) == 0 && v !in a
    requires forall k :: k in a ==> !(Cached(st, k) && Pins(st, k) == 0)
    ensures FlushKeys(st, a + ([v] + b)) == FlushKeys(Drop(st, v), a + b)
  {
    var st1 := Drop(st, v);
    forall k | k in a ensures !(Cached(st1, k) && Pins(st1, k) == 0) { DropOthers(st, v, k); }
    hide Drop;
    SkipPinned(st, a, [v] + b);
    SkipPinned(st1, a, b);
    assert ([v] + b)[1..] == b;
  }

  /** The order around the entry an eviction takes: everything before it is pinned. */
  lemma VictimSplit(st: State) returns (a: seq<Key>, v: Key, b: seq<Key>)
    requires LruOk(st) && EvictOne(st).0
    ensures st.lru == a + [v] + b && v in st.index && Cached(st, v) && Pins(st, v) == 0 && v !in a
    ensures EvictOne(st).1 == Drop(st, v)
    ensures forall k :: k in a ==> !(Cached(st, k) && Pins(st, k) == 0)
  {
    hide Drop;
    var j := Victim(st, 0);
    a, v, b := st.lru[..j], st.lru[j], st.lru[j + 1..];
    assert v in st.lru;
    forall k | k in a ensures !(Cached(st, k) && Pins(st, k) == 0) && k != v {
      var n :| 0 <= n < j && st.lru[n] == k;
    }
  }

  lemma ShapeParts(st: State)
    requires Inv(st)
    ensures LruOk(st) && IndexOk(st)
  {
  }

  /** Flushing after an eviction comes to the same as flushing at once. */
  lemma FlushAfterEvict(st: State)
    requires Inv(st) && EvictOne(st).0
    ensures Flush(EvictOne(st).1) == Flush(st)
  {
    hide *;
    ShapeParts(st);
    var a, v, b := VictimSplit(st);
    assert a + [v] + b == a + ([v] + b);
    FlushIs(st);
    FlushIs(Drop(st, v));
    DropOrder(st, v);
    FlushPast(st, a, v, b);
    assert ([v] + b)[1..] == b;
    WithoutAt(a, [v] + b);
  }

  lemma DropOrder(st: State, v: Key)
    requires Cached(st, v)
    ensures Drop(st, v).lru == Without(st.lru, v)
  {
  }

  lemma NothingToFlush(st: State)
    requires LruOk(st) && AllPinned(st)
    ensures Flush(st) == st
  {
    assert st.lru + [] == st.lru;
    SkipPinned(st, st.lru, []);
  }

  /** `b` has at least the room of `a`. */
  ghost predicate Roomier(a: State, b: State) {
    && b.capacity == a.capacity && b.pool.page == a.pool.page && b.pool.total == a.pool.total
    && b.pool.used <= a.pool.used && E.FreePages(a.pool) <= E.FreePages(b.pool) && E.Wf(a.pool) && E.Wf(b.pool)
  }

  lemma DropIsRoomier(st: State, k: Key)
    requires Inv(st) && k in st.index
    ensures Cached(st, k) && Roomier(st, Drop(st, k))
  {
    hide PinsOk, WritingOk, RetiredOk, LruOk;
    var e := st.entries[st.index[k]];
    assert InPool(st.pool, e);
    E.PagesForLeast(st.pool.page, e.size);
    E.FreeGivesBack(st.pool, e.offset, e.size);
  }

  lemma {:induction false} FlushIsRoomier(st: State, ks: seq<Key>)
    requires Inv(st)
    ensures Roomier(st, FlushKeys(st, ks))
    decreases |ks|
  {
    hide Balanced;
    if ks == [] {
      PoolIsWf(st);
    } else {
      var k := ks[0];
      var st1 := if Cached(st, k) && Pins(st, k) == 0 then Drop(st, k) else st;
      if Cached(st, k) && Pins(st, k) == 0 {
        DropKeeps(st, k, multiset{});
        DropIsRoomier(st, k);
      } else {
        PoolIsWf(st);
      }
      hide Drop, Inv;
      FlushIsRoomier(st1, ks[1..]);
    }
  }

  lemma PoolIsWf(st: State)
    requires Inv(st)
    ensures E.Wf(st.pool)
  {
  }

  lemma RoomGrows(a: State, b: State, nbytes: int)
    requires Roomier(a, b) && Room(a, nbytes) && (nbytes > 0 || a.pool.total > 0)
    ensures Room(b, nbytes)
  {
    hide LeastPages, E.FreePages, E.Run, E.Wf;
    var page := a.pool.page;
    var n :| LeastPages(page, nbytes, n) && (a.pool.used + n) * page <= a.capacity
      && (if nbytes > 0 then exists s :: E.Run(s, n) <= E.FreePages(a.pool) else a.pool.free != []);
    LessInUse(a.pool.used, b.pool.used, n, page);
    if nbytes > 0 {
      var s :| E.Run(s, n) <= E.FreePages(a.pool);
      assert E.Run(s, n) <= E.FreePages(b.pool);
    } else {
      FirstPage(a.pool);
      Listed(b.pool);
    }
  }

  lemma LessInUse(a: int, b: int, n: int, page: E.pos)
    requires b <= a
    ensures (b + n) * page <= (a + n) * page
  {
  }

  lemma Listed(p: E.Pool)
    ensures p.free == [] ==> E.FreePages(p) == {}
  {
  }

  lemma FirstPage(p: E.Pool)
    requires E.Wf(p) && p.total > 0 && p.free != []
    ensures p.free[0].start in E.FreePages(p)
  {
    E.LenPositive(-1, p.free, p.total, 0);
    assert E.InRun(p.free[0].start, p.free[0].len, p.free[0].start);
  }

  /** Over a pool without pages nothing can be evicted. */
  lemma NoPagesNoKeys(st: State)
    requires Inv(st) && st.pool.total <= 0
    ensures AllPinned(st) && st.index == map[] && !EvictOne(st).0
  {
    hide Balanced;
    HollowStore(st, multiset{});
  }

  /**
   Evicting one entry after the other is as good as evicting all: a request fails if and only if, after a
   flush, its pages would go beyond the capacity or not so many are free in a row.
   */
  lemma {:induction false} AllocateFailsIff(st: State, nbytes: int)
    requires Inv(st)
    ensures Allocate(st, nbytes).0.None? <==> !Room(Flush(st), nbytes)
    decreases |st.lru|
  {
    hide Balanced, FitsCapacity, E.Alloc, Flush, Room;
    EvictKeeps(st, multiset{});
    PoolIsWf(st);
    RoomIff(st, nbytes);
    if st.pool.total == 0 {
      NoPagesNoKeys(st);
      ShapeParts(st);
      NothingToFlush(st);
    } else if Room(st, nbytes) {
      FlushIsRoomier(st, st.lru);
      FlushIs(st);
      RoomGrows(st, Flush(st), nbytes);
    } else if EvictOne(st).0 {
      FlushAfterEvict(st);
      AllocateFailsIff(EvictOne(st).1, nbytes);
    } else {
      ShapeParts(st);
      NothingToFlush(st);
    }
  }

  lemma FlushIs(st: State)
    ensures Flush(st) == FlushKeys(st, st.lru)
  {
  }

  // -------------------------------------------------------- write requests

  /** Nobody caches or writes the key, as far as the request cares. */
  ghost predicate Wanted(st: State, k: Key, s: Session, skip: bool) {
    !(skip && (k in st.index || exists w :: w in st.writing && w.0 == k)) && (k, s) !in st.writing
  }

  /**
   The answer to a write request: cached already, being written, no room even after a flush, or a new
   entry, which lies in pages of its own if its size is positive.
   */
  lemma AllocateOneExact(st: State, k: Key, size: int, s: Session, skip: bool)
    requires Inv(st)
    ensures var (a, st') := AllocateOne(st, k, size, s, skip);
      && (a == Exists <==> skip && k in st.index)
      && (a == Busy <==> !(skip && k in st.index) && !Wanted(st, k, s, skip))
      && (a == Full <==> Wanted(st, k, s, skip) && !Room(Flush(st), size))
      && (a.New? ==>
            && a.id == st.nextId && a.id in st'.entries && st'.writing == st.writing[(k, s) := a.id]
            && st'.entries[a.id].key == k && st'.entries[a.id].size == size
            && st'.entries[a.id].phase == Writing(s) && (size > 0 ==> InPool(st'.pool, st'.entries[a.id])))
  {
    hide Balanced, Room, Flush;
    if Wanted(st, k, s, skip) {
      AllocateFailsIff(st, size);
      var mid := AllocateKeeps(st, size, multiset{});
      NewIsInPool(st, k, size, s, skip);
    }
  }

  lemma NewIsInPool(st: State, k: Key, size: int, s: Session, skip: bool)
    requires Inv(st)
    ensures var (a, st') := AllocateOne(st, k, size, s, skip);
            size > 0 && a.New? && a.id in st'.entries ==> InPool(st'.pool, st'.entries[a.id])
  {
    hide AllocateOne;
    AllocateOneKeeps(st, k, size, s, skip);
  }

  // ------------------------------------------- requests for several entries

  /** Stores with the same entries have the same free pages. */
  lemma SameFree(a: E.Pool, b: E.Pool, entries: map<Id, Entry>)
    requires PagesOk(a, entries) && PagesOk(b, entries) && a.page == b.page && a.total == b.total
    ensures E.FreePages(a) == E.FreePages(b) && a.used == b.used
  {
    E.SeparatedBounds(-1, a.free, a.total);
    E.SeparatedBounds(-1, b.free, b.total);
    hide E.FreePages, RunOf;
    forall q | 0 <= q < a.total ensures q in E.FreePages(a) <==> q in E.FreePages(b) {
      FreeIff(a, entries, q);
      FreeIff(b, entries, q);
    }
    InBounds(a);
    InBounds(b);
    assert E.FreePages(a) == E.FreePages(b);
  }

  lemma InBounds(p: E.Pool)
    requires E.Wf(p)
    ensures forall q :: q in E.FreePages(p) ==> 0 <= q < p.total
  {
    E.SeparatedBounds(-1, p.free, p.total);
  }

  lemma FreeIff(p: E.Pool, entries: map<Id, Entry>, q: int)
    requires PagesOk(p, entries) && 0 <= q < p.total
    ensures q in E.FreePages(p) <==> !Owned(p.page, entries, q)
  {
    hide E.FreePages, RunOf, E.Wf;
    if Owned(p.page, entries, q) {
      var id :| id in entries && q in RunOf(p.page, entries[id]);
      assert InPool(p, entries[id]);
    }
  }

  lemma PagesPart(st: State)
    requires Inv(st)
    ensures PagesOk(st.pool, st.entries)
  {
  }

  /** A change of the order of use makes no difference to the room after a flush. */
  lemma SameRoom(a: State, b: State, nbytes: int)
    requires Inv(a) && Inv(b) && b == a.(lru := b.lru) && a.pool.total > 0
    ensures Room(Flush(a), nbytes) <==> Room(Flush(b), nbytes)
  {
    hide Balanced, Room, Flush, PagesOk;
    FlushExact(a);
    FlushExact(b);
    FlushEntries(a);
    FlushEntries(b);
    PagesPart(Flush(a));
    PagesPart(Flush(b));
    SameFree(Flush(a).pool, Flush(b).pool, Flush(a).entries);
    PoolIsWf(Flush(a));
    PoolIsWf(Flush(b));
    if Room(Flush(a), nbytes) { RoomGrows(Flush(a), Flush(b), nbytes); }
    if Room(Flush(b), nbytes) { RoomGrows(Flush(b), Flush(a), nbytes); }
  }

  lemma WantedSame(a: State, b: State, k: Key, s: Session, skip: bool)
    requires a.index == b.index && a.writing == b.writing
    ensures Wanted(a, k, s, skip) == Wanted(b, k, s, skip)
  {
  }

  /** A request without room leaves no room. */
  lemma FullStaysFull(st: State, k: Key, size: int, s: Session, skip: bool)
    requires Inv(st) && AllocateOne(st, k, size, s, skip).0 == Full
    ensures var st' := AllocateOne(st, k, size, s, skip).1;
            Inv(st') && !Room(Flush(st'), size)
  {
    hide Balanced, FitsCapacity, E.Alloc, Flush, Room;
    var mid := AllocateKeeps(st, size, multiset{});
    ShapeParts(mid);
    NothingToFlush(mid);
    PoolIsWf(mid);
    RoomIff(mid, size);
  }

  lemma TouchedIs(st: State, k: Key, size: int, s: Session, skip: bool)
    requires Inv(st) && AllocateOne(st, k, size, s, skip).0 == Exists
    ensures var st' := AllocateOne(st, k, size, s, skip).1;
            Inv(st') && st' == st.(lru := st'.lru) && st.pool.total > 0
  {
    AllocateOneKeeps(st, k, size, s, skip);
    hide Balanced, Allocate;
    if st.pool.total <= 0 { NoPagesNoKeys(st); }
  }

  lemma BusyIs(st: State, k: Key, size: int, s: Session, skip: bool)
    requires AllocateOne(st, k, size, s, skip).0 == Busy
    ensures AllocateOne(st, k, size, s, skip).1 == st
  {
    hide Allocate;
  }

  /**
   A write request grants no entry if and only if there would be no room after a flush, or each of its
   keys is cached or being written already.
   */
  lemma {:induction false} NoneGrantedIff(st: State, ks: seq<Key>, size: int, s: Session, skip: bool)
    requires Inv(st)
    ensures NoneGranted(AllocateForWrite(st, ks, size, s, skip).0) <==>
            !Room(Flush(st), size) || forall k :: k in ks ==> !Wanted(st, k, s, skip)
    decreases |ks|
  {
    hide Inv, AllocateOne, Room, Flush, Wanted, NoneGranted;
    if ks == [] {
      NothingGranted();
    } else {
      var (a, st1) := AllocateOne(st, ks[0], size, s, skip);
      NoneGrantedCons(a, AllocateForWrite(st1, ks[1..], size, s, skip).0);
      AllocateOneExact(st, ks[0], size, s, skip);
      assert forall k :: k in ks <==> k == ks[0] || k in ks[1..];
      if !a.New? {
        AllocateOneKeeps(st, ks[0], size, s, skip);
        NoneGrantedIff(st1, ks[1..], size, s, skip);
        if a == Full {
          FullStaysFull(st, ks[0], size, s, skip);
        } else {
          SameAfter(st, ks[0], size, s, skip);
        }
      }
    }
  }

  lemma NothingGranted()
    ensures NoneGranted([])
  {
  }

  lemma NotWanted(st: State, k: Key, size: int, s: Session, skip: bool)
    requires AllocateOne(st, k, size, s, skip).0 == Exists || AllocateOne(st, k, size, s, skip).0 == Busy
    ensures !Wanted(st, k, s, skip)
  {
    hide Allocate;
  }

  lemma SameAfter(st: State, k: Key, size: int, s: Session, skip: bool)
    requires Inv(st) && (AllocateOne(st, k, size, s, skip).0 == Exists || AllocateOne(st, k, size, s, skip).0 == Busy)
    ensures var st' := AllocateOne(st, k, size, s, skip).1;
            && (Room(Flush(st'), size) <==> Room(Flush(st), size))
            && !Wanted(st, k, s, skip) && forall x :: Wanted(st', x, s, skip) == Wanted(st, x, s, skip)
  {
    NotWanted(st, k, size, s, skip);
    hide Inv, AllocateOne, Room, Flush, Wanted;
    var st' := AllocateOne(st, k, size, s, skip).1;
    if AllocateOne(st, k, size, s, skip).0 == Exists {
      TouchedIs(st, k, size, s, skip);
      SameRoom(st, st', size);
      forall x ensures Wanted(st', x, s, skip) == Wanted(st, x, s, skip) { WantedSame(st', st, x, s, skip); }
    } else {
      BusyIs(st, k, size, s, skip);
    }
  }
}
