/**
 Whole runs of the store: the invariant holds in every reachable state, pinned entries survive every
 operation that is not a release, and a store without leases or writers empties completely.
 */
module StoreRuns {
  import opened Wrappers
  import E = Extents
  import opened Store
  import opened StoreInv

  // --------------------------------------------------------------- eviction

  /** `b` is `a` after giving up some unpinned READY entries, and nothing else. */
  ghost predicate Trimmed(a: State, b: State) {
    && b.writing == a.writing && b.retired == a.retired && b.leases == a.leases && b.capacity == a.capacity
    && b.nextLease == a.nextLease && b.nextId == a.nextId
    && b.pool.page == a.pool.page && b.pool.total == a.pool.total
    && (forall id :: id in b.entries ==> id in a.entries && b.entries[id] == a.entries[id])
    && (forall id :: id in a.entries && id !in b.entries ==> a.entries[id].phase == Ready && a.entries[id].pins == 0)
    && (forall k :: k in b.index ==> k in a.index && b.index[k] == a.index[k])
  }

  lemma TrimmedTrans(a: State, b: State, c: State)
    requires Trimmed(a, b) && Trimmed(b, c)
    ensures Trimmed(a, c)
  {
  }

  /** Nothing is left to evict. */
  ghost predicate AllPinned(st: State) { forall k :: k in st.index ==> Pins(st, k) > 0 }

  predicate WithinCapacity(st: State) { st.pool.used * st.pool.page <= st.capacity }

  lemma DropTrims(st: State, k: Key)
    requires IndexOk(st) && k in st.index && Pins(st, k) == 0
    ensures Trimmed(st, Drop(st, k))
  {
  }

  lemma EvictKeeps(st: State, debt: multiset<Key>)
    requires Balanced(st, debt)
    ensures Balanced(EvictOne(st).1, debt) && Trimmed(st, EvictOne(st).1)
    ensures !EvictOne(st).0 ==> EvictOne(st).1 == st && AllPinned(st)
  {
    var j := Victim(st, 0);
    if j < |st.lru| {
      assert st.lru[j] in st.index;
      DropKeeps(st, st.lru[j], debt);
      DropTrims(st, st.lru[j]);
    } else {
      forall k | k in st.index ensures Pins(st, k) > 0 {
        assert k in st.lru;
        var n :| 0 <= n < |st.lru| && st.lru[n] == k;
      }
    }
  }

  /** The capacity test, by what would be in use afterwards. */
  lemma FitsIs(st: State, nbytes: int)
    ensures FitsCapacity(st, nbytes) <==> (st.pool.used + E.PagesFor(st.pool.page, nbytes)) * st.pool.page <= st.capacity
  {
    hide E.PagesFor;
  }

  lemma AllocWithin(st: State, nbytes: int)
    requires FitsCapacity(st, nbytes) && E.Alloc(st.pool, nbytes).0.Some?
    ensures WithinCapacity(st.(pool := E.Alloc(st.pool, nbytes).1))
  {
    hide FitsCapacity, E.PagesFor;
    FitsIs(st, nbytes);
  }

  /**
   Allocation gives up only unpinned READY entries, and what is in use after it is within the capacity. It
   fails only when no such entry is left and the request still does not fit, by capacity or because no extent
   is long enough.
   */
  lemma {:induction false} AllocateKeeps(st: State, nbytes: int, debt: multiset<Key>) returns (mid: State)
    requires Balanced(st, debt)
    ensures Balanced(mid, debt) && Trimmed(st, mid)
    ensures var (off, st') := Allocate(st, nbytes);
            if off.Some? then
              && E.Alloc(mid.pool, nbytes) == (off, st'.pool) && st' == mid.(pool := st'.pool)
              && FitsCapacity(mid, nbytes) && st'.pool.used * st'.pool.page <= st'.capacity == st.capacity
            else
              && st' == mid && AllPinned(mid)
              && (!FitsCapacity(mid, nbytes) || E.Alloc(mid.pool, nbytes).0.None?)
    decreases |st.lru|
  {
    hide FitsCapacity, E.Alloc;
    mid := st;
    if FitsCapacity(st, nbytes) && E.Alloc(st.pool, nbytes).0.Some? { AllocWithin(st, nbytes); }
    if !(FitsCapacity(st, nbytes) && E.Alloc(st.pool, nbytes).0.Some?) {
      EvictKeeps(st, debt);
      var (ok, st1) := EvictOne(st);
      if ok {
        mid := AllocateKeeps(st1, nbytes, debt);
        TrimmedTrans(st, st1, mid);
      }
    }
  }

  lemma {:induction false} ShrinkKeeps(st: State, debt: multiset<Key>)
    requires Balanced(st, debt)
    ensures Balanced(Shrink(st), debt) && Trimmed(st, Shrink(st))
    ensures WithinCapacity(Shrink(st)) || AllPinned(Shrink(st))
    decreases |st.lru|
  {
    if !WithinCapacity(st) {
      EvictKeeps(st, debt);
      var (ok, st1) := EvictOne(st);
      if ok {
        ShrinkKeeps(st1, debt);
        TrimmedTrans(st, st1, Shrink(st1));
        assert Shrink(st) == Shrink(st1);
      }
    }
  }

  lemma SetCapacityKeeps(st: State, bytes: int)
    requires Inv(st)
    ensures Inv(SetCapacity(st, bytes))
    ensures Trimmed(st.(capacity := SetCapacity(st, bytes).capacity), SetCapacity(st, bytes))
    ensures WithinCapacity(SetCapacity(st, bytes)) || AllPinned(SetCapacity(st, bytes))
  {
    var st1 := st.(capacity := Max(0, Min(bytes, PoolBytes(st.pool))));
    assert forall x :: PinSum(st1, x) == PinSum(st, x);
    assert Shape(st1);
    ShrinkKeeps(st1, multiset{});
  }

  /** A flush drops the given keys that are unpinned and keeps every other entry as it was. */
  lemma {:induction false} FlushKeysExact(st: State, ks: seq<Key>)
    requires Inv(st)
    ensures Inv(FlushKeys(st, ks)) && Trimmed(st, FlushKeys(st, ks))
    ensures forall k :: k in FlushKeys(st, ks).index <==> k in st.index && (k in ks ==> Pins(st, k) > 0)
    decreases |ks|
  {
    hide Balanced, Drop, Trimmed;
    if ks == [] {
      TrimmedRefl(st);
    } else {
      var k := ks[0];
      var st1 := if Cached(st, k) && Pins(st, k) == 0 then Drop(st, k) else st;
      if Cached(st, k) && Pins(st, k) == 0 {
        DropExact(st, k);
      } else {
        TrimmedRefl(st);
        InIndex(st);
      }
      FlushKeysExact(st1, ks[1..]);
      TrimmedTrans(st, st1, FlushKeys(st, ks));
      assert forall x :: x in ks <==> x == k || x in ks[1..];
    }
  }

  lemma TrimmedRefl(st: State)
    ensures Trimmed(st, st)
  {
  }

  lemma InIndex(st: State)
    requires Inv(st)
    ensures forall k :: k in st.index ==> Cached(st, k)
  {
  }

  lemma DropExact(st: State, k: Key)
    requires Inv(st) && Cached(st, k) && Pins(st, k) == 0
    ensures Inv(Drop(st, k)) && Trimmed(st, Drop(st, k))
    ensures forall x :: x in Drop(st, k).index <==> x in st.index && x != k
    ensures forall x :: x in Drop(st, k).index ==> Pins(Drop(st, k), x) == Pins(st, x)
  {
    DropKeeps(st, k, multiset{});
    DropTrims(st, k);
    hide PagesOk, PinsOk, E.Free;
  }

  ghost function Survivors(entries: map<Id, Entry>): map<Id, Entry> {
    map id | id in entries && !(entries[id].phase == Ready && entries[id].pins == 0) :: entries[id]
  }

  /** A flush leaves exactly the entries that are pinned, being written or replaced. */
  lemma FlushEntries(st: State)
    requires Inv(st)
    ensures Flush(st).entries == Survivors(st.entries)
  {
    hide *;
    FlushExact(st);
    IndexIsOk(st);
    IndexIsOk(Flush(st));
    LeftAre(st, Flush(st));
  }

  lemma IndexIsOk(st: State)
    requires Inv(st)
    ensures IndexOk(st)
  {
  }

  lemma LeftAre(st: State, f: State)
    requires IndexOk(st) && IndexOk(f) && Trimmed(st, f)
    requires forall k :: k in f.index <==> k in st.index && Pins(st, k) > 0
    ensures f.entries == Survivors(st.entries)
  {
    forall id | id in f.entries ensures !(st.entries[id].phase == Ready && st.entries[id].pins == 0) {
      if f.entries[id].phase == Ready { assert f.entries[id].key in f.index; }
    }
    assert f.entries.Keys == Survivors(st.entries).Keys;
  }

  lemma FlushExact(st: State)
    requires Inv(st)
    ensures Inv(Flush(st)) && Trimmed(st, Flush(st))
    ensures forall k :: k in Flush(st).index <==> k in st.index && Pins(st, k) > 0
  {
    FlushKeysExact(st, st.lru);
  }

  // ------------------------------------------- operations other than release

  /**
   From `a` to `b` no lease is granted or released. Every pinned entry is still there, and an entry
   that is still there keeps its key, its place in the pool and its pins; a new entry is unpinned and
   begins with a page.
   */
  ghost predicate Quiet(a: State, b: State) {
    && b.leases == a.leases && b.nextLease == a.nextLease && a.nextId <= b.nextId
    && b.pool.page == a.pool.page && b.pool.total == a.pool.total
    && (forall id :: id in a.entries && a.entries[id].pins > 0 ==> id in b.entries)
    && (forall id :: id in b.entries ==>
          if id in a.entries then Continues(a.entries[id], b.entries[id]) && a.entries[id].pins == b.entries[id].pins
          else a.nextId <= id && b.entries[id].pins == 0 && OnPage(b.pool.page, b.entries[id]))
  }

  ghost predicate SameVersion(a: Entry, b: Entry) { a.key == b.key && a.offset == b.offset && a.size == b.size }

  /** The same version, which is not being written again once it is committed and has one writer till then. */
  ghost predicate Continues(a: Entry, b: Entry) { SameVersion(a, b) && (b.phase.Writing? ==> a.phase == b.phase) }

  /** The entry begins at the beginning of a page. */
  ghost predicate OnPage(page: E.pos, e: Entry) { e.offset == e.offset / page * page }

  lemma QuietTrans(a: State, b: State, c: State)
    requires Quiet(a, b) && Quiet(b, c) && Inv(a) && Inv(b)
    ensures Quiet(a, c)
  {
  }

  /** An empty prefix, or a run of no steps. */
  lemma QuietRefl(st: State)
    ensures Quiet(st, st)
  {
  }

  lemma TrimmedIsQuiet(a: State, b: State)
    requires Trimmed(a, b)
    ensures Quiet(a, b)
  {
  }

  lemma RegisterQuiet(st: State, pool: E.Pool, e: Entry, s: Session)
    requires FreshIds(st) && e.pins == 0 && pool.page == st.pool.page && pool.total == st.pool.total
    requires OnPage(pool.page, e)
    ensures Quiet(st, Registered(st, pool, e, s))
  {
  }

  /** What fits without a positive size fits again. */
  lemma FitsAgain(st: State, pool: E.Pool, nbytes: int)
    requires nbytes <= 0 && FitsCapacity(st, nbytes)
    requires pool.page == st.pool.page && pool.used == st.pool.used + E.PagesFor(st.pool.page, nbytes)
    ensures FitsCapacity(st.(pool := pool), nbytes)
  {
    var n := E.PagesFor(st.pool.page, nbytes);
    E.PagesForLeast(st.pool.page, nbytes);
    assert n * st.pool.page <= 0;
    assert pool.used * pool.page == st.pool.used * st.pool.page + n * st.pool.page;
  }

  lemma AllocOnPage(p: E.Pool, e: Entry)
    requires E.Alloc(p, e.size).0 == Some(e.offset)
    ensures OnPage(p.page, e)
  {
    hide E.PagesFor;
    var i := E.FirstFit(p.free, E.PagesFor(p.page, e.size), 0);
    E.PageOfOffset(p.page, p.free[i].start);
  }

  lemma AllocateOneNew(st: State, k: Key, size: int, s: Session)
    requires Inv(st) && (k, s) !in st.writing
    ensures var (a, st') := AllocateOne(st, k, size, s, false);
            Quiet(st, st') && (size > 0 || !a.New? ==> Inv(st'))
  {
    hide Balanced;
    var mid := AllocateKeeps(st, size, multiset{});
    TrimmedIsQuiet(st, mid);
    var (off, st') := Allocate(st, size);
    if off.Some? {
      PoolKeepsSize(mid.pool, size);
      var e := Entry(k, off.value, size, Writing(s), 0);
      IdsAreFresh(mid);
      AllocOnPage(mid.pool, e);
      RegisterQuiet(mid, st'.pool, e, s);
      QuietTrans(st, mid, Registered(mid, st'.pool, e, s));
      assert AllocateOne(st, k, size, s, false).1 == Registered(mid, st'.pool, e, s);
      if size > 0 { RegisterKeeps(mid, k, size, s, multiset{}); }
    }
  }

  lemma IdsAreFresh(st: State)
    requires Inv(st)
    ensures FreshIds(st)
  {
  }

  lemma PoolKeepsSize(p: E.Pool, nbytes: int)
    ensures E.Alloc(p, nbytes).1.page == p.page && E.Alloc(p, nbytes).1.total == p.total
  {
  }

  /** A write request keeps the invariant, unless it is granted an entry without a positive size. */
  lemma AllocateOneKeeps(st: State, k: Key, size: int, s: Session, skip: bool)
    requires Inv(st)
    ensures var (a, st') := AllocateOne(st, k, size, s, skip);
            Quiet(st, st') && (size > 0 || !a.New? ==> Inv(st'))
  {
    hide Balanced;
    QuietRefl(st);
    if skip && k in st.index {
      TouchOneKeeps(st, k, multiset{});
    } else if !(skip && exists w :: w in st.writing && w.0 == k) && (k, s) !in st.writing {
      AllocateOneNew(st, k, size, s);
    }
  }

  predicate NoneGranted(out: seq<Status>) { forall i :: 0 <= i < |out| ==> !out[i].New? }

  lemma {:induction false} AllocateForWriteKeeps(st: State, ks: seq<Key>, size: int, s: Session, skip: bool)
    requires Inv(st) && (size > 0 || NoneGranted(AllocateForWrite(st, ks, size, s, skip).0))
    ensures Inv(AllocateForWrite(st, ks, size, s, skip).1) && Quiet(st, AllocateForWrite(st, ks, size, s, skip).1)
    decreases |ks|
  {
    hide Balanced;
    QuietRefl(st);
    if ks != [] {
      var (a, st1) := AllocateOne(st, ks[0], size, s, skip);
      var (rest, st2) := AllocateForWrite(st1, ks[1..], size, s, skip);
      NoneGrantedCons(a, rest);
      AllocateOneKeeps(st, ks[0], size, s, skip);
      AllocateForWriteKeeps(st1, ks[1..], size, s, skip);
      QuietTrans(st, st1, st2);
    }
  }

  lemma NoneGrantedCons(a: Status, rest: seq<Status>)
    ensures NoneGranted([a] + rest) <==> !a.New? && NoneGranted(rest)
  {
    var out := [a] + rest;
    assert out[0] == a && forall i :: 0 <= i < |rest| ==> out[i + 1] == rest[i];
  }

  /** Committing publishes the written version; the one it replaces is retired or dropped first. */
  lemma CommitOneIs(st: State, k: Key, s: Session)
    requires Inv(st) && (k, s) in st.writing
    ensures CommitOne(st, k, s) ==
            Publish(if k !in st.index then st else if Pins(st, k) > 0 then Retire(st, k) else Drop(st, k), k, s)
  {
    var id := st.writing[(k, s)];
    WithoutKeeps(st.lru, k);
    assert k in st.index ==> st.index[k] != id;
  }

  lemma PublishQuiet(st: State, k: Key, s: Session)
    requires (k, s) in st.writing && st.writing[(k, s)] in st.entries
    ensures Quiet(st, Publish(st, k, s))
  {
  }

  lemma DisplaceQuiet(st: State, k: Key)
    requires IndexOk(st) && k in st.index
    ensures Quiet(st, if Pins(st, k) > 0 then Retire(st, k) else Drop(st, k))
  {
  }

  lemma DisplaceKeeps(st: State, k: Key) returns (mid: State)
    requires Inv(st)
    ensures mid == if k !in st.index then st else if Pins(st, k) > 0 then Retire(st, k) else Drop(st, k)
    ensures Inv(mid) && Quiet(st, mid) && k !in mid.index && mid.writing == st.writing
  {
    mid := st;
    if k in st.index {
      DisplaceQuiet(st, k);
      if Pins(st, k) > 0 {
        RetireKeeps(st, k, multiset{});
        mid := Retire(st, k);
      } else {
        DropKeeps(st, k, multiset{});
        mid := Drop(st, k);
      }
    }
  }

  lemma WritingIsLive(st: State, k: Key, s: Session)
    requires Inv(st) && (k, s) in st.writing
    ensures st.writing[(k, s)] in st.entries
  {
  }

  lemma CommitOneKeeps(st: State, k: Key, s: Session)
    requires Inv(st)
    ensures Inv(CommitOne(st, k, s)) && Quiet(st, CommitOne(st, k, s))
  {
    hide Balanced;
    QuietRefl(st);
    if (k, s) in st.writing {
      CommitOneIs(st, k, s);
      var mid := DisplaceKeeps(st, k);
      WritingIsLive(mid, k, s);
      PublishKeeps(mid, k, s, multiset{});
      PublishQuiet(mid, k, s);
      QuietTrans(st, mid, Publish(mid, k, s));
    }
  }

  lemma {:induction false} CommitKeeps(st: State, ks: seq<Key>, s: Session)
    requires Inv(st)
    ensures Inv(Commit(st, ks, s)) && Quiet(st, Commit(st, ks, s))
    decreases |ks|
  {
    hide Balanced;
    QuietRefl(st);
    if ks != [] {
      CommitOneKeeps(st, ks[0], s);
      CommitKeeps(CommitOne(st, ks[0], s), ks[1..], s);
      QuietTrans(st, CommitOne(st, ks[0], s), Commit(CommitOne(st, ks[0], s), ks[1..], s));
    }
  }

  lemma AbortOneQuiet(st: State, k: Key, s: Session)
    requires Inv(st)
    ensures Inv(AbortOne(st, k, s)) && Quiet(st, AbortOne(st, k, s))
  {
    hide PagesOk, PinsOk;
    AbortOneKeeps(st, k, s, multiset{});
  }

  lemma {:induction false} AbortKeeps(st: State, ks: seq<Key>, s: Session)
    requires Inv(st)
    ensures Inv(Abort(st, ks, s)) && Quiet(st, Abort(st, ks, s))
    decreases |ks|
  {
    hide Balanced;
    QuietRefl(st);
    if ks != [] {
      AbortOneQuiet(st, ks[0], s);
      AbortKeeps(AbortOne(st, ks[0], s), ks[1..], s);
      QuietTrans(st, AbortOne(st, ks[0], s), Abort(AbortOne(st, ks[0], s), ks[1..], s));
    }
  }

  /** Aborting every key of a session frees all of its unfinished writes and no other entry. */
  lemma {:induction false} AbortExact(st: State, ks: seq<Key>, s: Session)
    requires Inv(st)
    ensures forall w :: w in Abort(st, ks, s).writing <==> w in st.writing && !(w.1 == s && w.0 in ks)
    ensures forall id :: id in Abort(st, ks, s).entries <==>
              id in st.entries && !(st.entries[id].phase == Writing(s) && st.entries[id].key in ks)
    decreases |ks|
  {
    hide Balanced;
    if ks != [] {
      AbortOneQuiet(st, ks[0], s);
      AbortOneExact(st, ks[0], s);
      AbortExact(AbortOne(st, ks[0], s), ks[1..], s);
      assert forall x :: x in ks <==> x == ks[0] || x in ks[1..];
    }
  }

  lemma AbortOneExact(st: State, k: Key, s: Session)
    requires Inv(st)
    ensures forall w :: w in AbortOne(st, k, s).writing <==> w in st.writing && w != (k, s)
    ensures forall id :: id in AbortOne(st, k, s).entries <==>
              id in st.entries && !(st.entries[id].phase == Writing(s) && st.entries[id].key == k)
    ensures forall id :: id in AbortOne(st, k, s).entries ==> AbortOne(st, k, s).entries[id] == st.entries[id]
  {
  }

  // ------------------------------------------------------- lookup and release

  /** A lookup finds the longest prefix of the request that is READY for every rank. */
  lemma {:induction false} HitsIsLongestPrefix(st: State, hashes: seq<string>, ranks: int)
    ensures Hits(st, hashes, ranks) <= |hashes|
    ensures forall i :: 0 <= i < Hits(st, hashes, ranks) ==> Hit(st, hashes[i], ranks)
    ensures Hits(st, hashes, ranks) < |hashes| ==> !Hit(st, hashes[Hits(st, hashes, ranks)], ranks)
  {
    if hashes != [] && Hit(st, hashes[0], ranks) { HitsIsLongestPrefix(st, hashes[1..], ranks); }
  }

  lemma {:induction false} RowsInIndex(st: State, hashes: seq<string>, ranks: int, r: int)
    requires r <= ranks && forall i :: 0 <= i < |hashes| ==> Hit(st, hashes[i], ranks)
    ensures forall k :: k in Rows(hashes, r) ==> k in st.index
    decreases if r < 0 then 0 else r
  {
    if r > 0 { RowsInIndex(st, hashes, ranks, r - 1); }
  }

  lemma {:induction false} TouchAllKeeps(st: State, ks: seq<Key>)
    requires Inv(st) && forall k :: k in ks ==> k in st.index
    ensures Inv(TouchAll(st, ks)) && TouchAll(st, ks) == st.(lru := TouchAll(st, ks).lru)
    decreases |ks|
  {
    if ks != [] {
      assert ks[0] in ks;
      TouchOneKeeps(st, ks[0], multiset{});
      TouchAllKeeps(st.(lru := Without(st.lru, ks[0]) + [ks[0]]), ks[1..]);
    }
  }

  /** Pinning a list of keys adds to each READY entry the number of times its key is listed. */
  lemma {:induction false} PinAllKeeps(st: State, ks: seq<Key>, debt: multiset<Key>)
    requires Balanced(st, debt) && forall k :: k in ks ==> k in st.index
    ensures Balanced(PinAll(st, ks), debt + multiset(ks))
    ensures PinAll(st, ks) == st.(entries := PinAll(st, ks).entries) && PinAll(st, ks).entries.Keys == st.entries.Keys
    ensures forall id :: id in st.entries ==> PinAll(st, ks).entries[id] == Pinned(st.entries[id], multiset(ks))
    decreases |ks|
  {
    hide Balanced;
    if ks == [] {
      assert debt + multiset(ks) == debt;
    } else {
      assert ks[0] in ks && ks == [ks[0]] + ks[1..];
      PinKeeps(st, ks[0], debt);
      PinOne(st, ks[0], debt);
      PinAllKeeps(Pin(st, ks[0]), ks[1..], debt + multiset{ks[0]});
      assert debt + multiset{ks[0]} + multiset(ks[1..]) == debt + multiset(ks);
    }
  }

  ghost function Pinned(e: Entry, ks: multiset<Key>): Entry {
    if e.phase == Ready then e.(pins := e.pins + ks[e.key]) else e
  }

  lemma PinOne(st: State, k: Key, debt: multiset<Key>)
    requires Balanced(st, debt) && k in st.index
    ensures Cached(st, k) && Pin(st, k).index == st.index && Pin(st, k).entries.Keys == st.entries.Keys
    ensures forall id :: id in st.entries ==> Pin(st, k).entries[id] == Pinned(st.entries[id], multiset{k})
  {
  }

  /** The rows of a hit: every key is READY. */
  lemma HitRows(st: State, hashes: seq<string>, ranks: int)
    ensures Hits(st, hashes, ranks) <= |hashes|
    ensures forall k :: k in Rows(hashes[..Hits(st, hashes, ranks)], ranks) ==> k in st.index
  {
    HitsIsLongestPrefix(st, hashes, ranks);
    RowsInIndex(st, hashes[..Hits(st, hashes, ranks)], ranks, ranks);
  }

  lemma {:induction false} RowsLength(hashes: seq<string>, ranks: nat)
    ensures |Rows(hashes, ranks)| == ranks * |hashes|
    decreases ranks
  {
    if ranks > 0 {
      RowsLength(hashes, ranks - 1);
      assert (ranks - 1) * |hashes| + |hashes| == ranks * |hashes|;
    }
  }

  /** One row per rank, each with the chunks in the order of the request. */
  lemma {:induction false} RowAt(hashes: seq<string>, ranks: nat, r: nat, i: nat)
    requires r < ranks && i < |hashes|
    ensures Has(Rows(hashes, ranks), r * |hashes| + i, Key(hashes[i], r))
    decreases ranks
  {
    RowsLength(hashes, ranks - 1);
    if r < ranks - 1 {
      RowAt(hashes, ranks - 1, r, i);
    }
  }

  ghost predicate Has<T>(s: seq<T>, at: int, x: T) { 0 <= at < |s| && s[at] == x }

  /** The keys of a list stand for the hit prefix: rank by rank, the chunks in the order of the request. */
  ghost predicate Lists(keys: seq<Key>, hashes: seq<string>, hits: nat, ranks: int)
    requires hits <= |hashes|
  {
    && |keys| == (if ranks > 0 then ranks * hits else 0)
    && forall r, i :: 0 <= r < ranks && 0 <= i < hits ==> Has(keys, r * hits + i, Key(hashes[i], r))
  }

  /** The entries of a list are the versions cached for the hit prefix, in the same order. */
  ghost predicate ListsEntries(ids: seq<Id>, index: map<Key, Id>, hashes: seq<string>, hits: nat, ranks: int)
    requires hits <= |hashes|
  {
    && |ids| == (if ranks > 0 then ranks * hits else 0)
    && forall r, i :: 0 <= r < ranks && 0 <= i < hits ==>
         Key(hashes[i], r) in index && Has(ids, r * hits + i, index[Key(hashes[i], r)])
  }

  lemma RowsList(hashes: seq<string>, hits: nat, ranks: int)
    requires hits <= |hashes|
    ensures Lists(Rows(hashes[..hits], ranks), hashes, hits, ranks)
  {
    var cut := hashes[..hits];
    if ranks > 0 {
      hide Rows, Has;
      RowsLength(cut, ranks);
      forall r, i | 0 <= r < ranks && 0 <= i < hits ensures Has(Rows(cut, ranks), r * hits + i, Key(hashes[i], r)) {
        RowAt(cut, ranks, r, i);
      }
    }
  }

  lemma IdsList(index: map<Key, Id>, keys: seq<Key>, hashes: seq<string>, hits: nat, ranks: int)
    requires hits <= |hashes| && Lists(keys, hashes, hits, ranks) && forall k :: k in keys ==> k in index
    ensures ListsEntries(IdsOf(index, keys), index, hashes, hits, ranks)
  {
    hide Has;
    forall r, i | 0 <= r < ranks && 0 <= i < hits
      ensures Key(hashes[i], r) in index && Has(IdsOf(index, keys), r * hits + i, index[Key(hashes[i], r)])
    {
      assert Has(keys, r * hits + i, Key(hashes[i], r));
      HasId(index, keys, r * hits + i, Key(hashes[i], r));
    }
  }

  lemma HasId(index: map<Key, Id>, keys: seq<Key>, at: int, k: Key)
    requires Has(keys, at, k) && forall x :: x in keys ==> x in index
    ensures k in index && Has(IdsOf(index, keys), at, index[k])
  {
    assert keys[at] in keys;
  }

  /** A lookup keeps the invariant; without a pin it changes nothing but the order of use. */
  lemma LookupKeeps(st: State, hashes: seq<string>, ranks: int, pin: bool, expires: real, owner: Session)
    requires Inv(st)
    ensures Inv(Lookup(st, hashes, ranks, pin, expires, owner).1)
    ensures !pin ==> var st' := Lookup(st, hashes, ranks, pin, expires, owner).1; st' == st.(lru := st'.lru)
    ensures !pin ==> Quiet(st, Lookup(st, hashes, ranks, pin, expires, owner).1)
  {
    hide Balanced;
    HitRows(st, hashes, ranks);
    var hits := Hits(st, hashes, ranks);
    var full := Rows(hashes[..hits], ranks);
    TouchAllKeeps(st, full);
    QuietRefl(st);
    if pin && hits > 0 {
      var st1 := TouchAll(st, full);
      PinAllKeeps(st1, full, multiset{});
      assert multiset{} + multiset(full) == multiset(full);
      GrantKeeps(PinAll(st1, full), Lease(full, expires, owner));
      assert Lookup(st, hashes, ranks, pin, expires, owner).1 == Granted(PinAll(st1, full), Lease(full, expires, owner));
    }
  }

  lemma {:induction false} UnpinAllKeeps(st: State, ks: seq<Key>)
    requires Balanced(st, multiset(ks))
    ensures Inv(UnpinAll(st, ks))
    ensures UnpinAll(st, ks).nextLease == st.nextLease && UnpinAll(st, ks).leases == st.leases
    decreases |ks|
  {
    hide Balanced;
    if ks == [] {
      assert multiset(ks) == multiset{};
    } else {
      assert ks == [ks[0]] + ks[1..];
      assert multiset(ks) == multiset(ks[1..]) + multiset{ks[0]};
      UnpinKeeps(st, ks[0], multiset(ks[1..]));
      UnpinAllKeeps(Unpin(st, ks[0]), ks[1..]);
    }
  }

  lemma ReleaseKeeps(st: State, l: nat)
    requires Inv(st)
    ensures Inv(Release(st, l).1)
    ensures Release(st, l).1.leases == st.leases - {l} && Release(st, l).1.nextLease == st.nextLease
  {
    if l in st.leases {
      RevokeKeeps(st, l);
      UnpinAllKeeps(st.(leases := st.leases - {l}), st.leases[l].keys);
    } else {
      assert st.leases - {l} == st.leases;
    }
  }

  /** Expiry releases exactly the leases that are due. */
  lemma {:induction false} ExpireKeeps(st: State, now: real, l: nat)
    requires Inv(st)
    ensures Inv(ExpireFrom(st, now, l)) && ExpireFrom(st, now, l).nextLease == st.nextLease
    ensures forall x :: x in ExpireFrom(st, now, l).leases <==> x in st.leases && !(l <= x && st.leases[x].expires <= now)
    ensures forall x :: x in ExpireFrom(st, now, l).leases ==> ExpireFrom(st, now, l).leases[x] == st.leases[x]
    decreases st.nextLease - l
  {
    hide Balanced;
    if l < st.nextLease {
      var st1 := if Expired(st, now, l) then Release(st, l).1 else st;
      if Expired(st, now, l) { ReleaseKeeps(st, l); }
      ExpireKeeps(st1, now, l + 1);
    } else {
      LeasesAreNumbered(st);
    }
  }

  lemma LeasesAreNumbered(st: State)
    requires Inv(st)
    ensures LeasesOk(st)
  {
  }
}
