/**
 The store as the server holds it: one object, updated in place. Every method leaves exactly the
 state that the corresponding function of `Store` describes.
 */
module PrefixStore {
  import opened Wrappers
  import E = Extents
  import opened Store
  import opened StoreInv
  import opened StoreRuns
  import Leases

  /** Identities in the containers are live, which is what indexing needs. */
  lemma Links(st: State, debt: multiset<Key>)
    requires Balanced(st, debt)
    ensures forall k :: k in st.index ==> st.index[k] in st.entries
    ensures forall w :: w in st.writing ==> st.writing[w] in st.entries
    ensures forall id :: id in st.retired ==> id in st.entries
    ensures PagesOk(st.pool, st.entries)
  {
  }

  lemma FirstThenRest(st: State, ks: seq<Key>, size: int, s: Session, skip: bool)
    requires ks != []
    ensures var (a, st1) := Store.AllocateOne(st, ks[0], size, s, skip);
            var rest := Store.AllocateForWrite(st1, ks[1..], size, s, skip);
            Store.AllocateForWrite(st, ks, size, s, skip) == ([a] + rest.0, rest.1)
  {
    hide Store.AllocateOne;
  }

  lemma NoneLeft(st: State, size: int, s: Session, skip: bool)
    ensures Store.AllocateForWrite(st, [], size, s, skip) == ([], st)
  {
  }

  /** Committing one key, step by step: the write is taken off the table, the old version displaced. */
  lemma CommitOneSteps(st: State, k: Key, s: Session)
    requires Inv(st)
    ensures PagesOk(st.pool, st.entries) && (k in st.index ==> st.index[k] in st.entries)
    ensures (k, s) !in st.writing ==> CommitOne(st, k, s) == st
    ensures (k, s) in st.writing ==>
      var id := st.writing[(k, s)];
      var st1 := Displace(st.(writing := st.writing - {(k, s)}), k);
      && id in st1.entries
      && CommitOne(st, k, s) == st1.(index := st1.index[k := id], lru := Without(st1.lru, k) + [k],
                                     entries := st1.entries[id := st1.entries[id].(phase := Ready)])
  {
    hide Balanced, PagesOk, E.Free;
    Links(st, multiset{});
    if (k, s) in st.writing && k in st.index { WriteIsNotReady(st, k, s); }
  }

  lemma WriteIsNotReady(st: State, k: Key, s: Session)
    requires Inv(st) && (k, s) in st.writing && k in st.index
    ensures st.index[k] != st.writing[(k, s)]
  {
  }

  // ------------------------------------------- requests without a positive size

  /**
   A store that can go on answering requests of `nbytes <= 0`: it has room for them, or nothing to evict.
   Being granted one leaves the invariant but stays in this state.
   */
  ghost predicate Serves(st: State, nbytes: int) {
    && nbytes <= 0 && E.Spaced(st.pool.free)
    && ((st.pool.free != [] && st.pool.free[0].len > E.PagesFor(st.pool.page, nbytes) && FitsCapacity(st, nbytes)) || (st.lru == [] && st.index == map[]))
  }

  lemma PoolIsSpaced(st: State)
    requires Inv(st)
    ensures E.Spaced(st.pool.free)
  {
    E.SeparatedIsSpaced(st.pool.free, st.pool.total);
  }

  /** The pool after a grant without a positive size can serve another one. */
  lemma GrantStillServes(st: State, nbytes: int)
    requires nbytes <= 0 && E.Spaced(st.pool.free) && FitsCapacity(st, nbytes) && E.Alloc(st.pool, nbytes).0.Some?
    requires st.pool.free[0].len > E.PagesFor(st.pool.page, nbytes) || (st.lru == [] && st.index == map[])
    ensures Serves(st.(pool := E.Alloc(st.pool, nbytes).1), nbytes)
  {
    E.AllocOfNothing(st.pool, nbytes);
    hide FitsCapacity, E.Alloc, E.Spaced;
    FitsAgain(st, E.Alloc(st.pool, nbytes).1, nbytes);
  }

  /** After one request the store can take the next. */
  lemma AllocateOneLeaves(st: State, k: Key, size: int, s: Session, skip: bool)
    requires Inv(st) || Serves(st, size)
    ensures var (a, st') := AllocateOne(st, k, size, s, skip);
            (Inv(st) && (size > 0 || !a.New?) ==> Inv(st')) && (Inv(st') || Serves(st', size))
  {
    assert Serves(st, size) ==> size <= 0;
    hide Inv, FitsCapacity, Serves, Allocate;
    var st' := AllocateOne(st, k, size, s, skip).1;
    if Inv(st) { AllocateOneKeeps(st, k, size, s, skip); }
    if skip && k in st.index {
      ServesFrame(st, st', size);
    } else if size <= 0 && !(skip && exists w :: w in st.writing && w.0 == k) && (k, s) !in st.writing {
      AllocateLeaves(st, size);
      AllocatedFrame(st, k, size, s);
      ServesFrame(Allocate(st, size).1, st', size);
    }
  }

  lemma AllocatedFrame(st: State, k: Key, size: int, s: Session)
    requires (k, s) !in st.writing
    ensures var st1, (a, st') := Allocate(st, size).1, AllocateOne(st, k, size, s, false);
            st'.pool == st1.pool && st'.capacity == st1.capacity && st'.index == st1.index && st'.lru == st1.lru
  {
    hide Allocate;
  }

  lemma ServesFrame(a: State, b: State, nbytes: int)
    requires b.pool == a.pool && b.capacity == a.capacity && b.index == a.index
    requires b.lru == a.lru || a.index != map[]
    ensures Serves(a, nbytes) ==> Serves(b, nbytes)
  {
  }

  lemma AllocateLeaves(st: State, nbytes: int)
    requires nbytes <= 0 && (Inv(st) || Serves(st, nbytes))
    ensures Allocate(st, nbytes).0.Some? || Serves(st, nbytes) ==> Serves(Allocate(st, nbytes).1, nbytes)
  {
    hide Balanced, E.Spaced;
    if Serves(st, nbytes) {
      E.AllocOfNothing(st.pool, nbytes);
      ServesOn(st, nbytes);
    } else if Allocate(st, nbytes).0.Some? {
      var mid := AllocateKeeps(st, nbytes, multiset{});
      PoolIsSpaced(mid);
      FirstHasPages(mid, nbytes);
      GrantStillServes(mid, nbytes);
    }
  }

  lemma ServesOn(st: State, nbytes: int)
    requires Serves(st, nbytes)
    ensures Serves(Allocate(st, nbytes).1, nbytes)
  {
    E.AllocOfNothing(st.pool, nbytes);
    if FitsCapacity(st, nbytes) && E.Alloc(st.pool, nbytes).0.Some? {
      GrantStillServes(st, nbytes);
    }
  }

  lemma FirstHasPages(st: State, nbytes: int)
    requires Inv(st) && nbytes <= 0 && E.Alloc(st.pool, nbytes).0.Some?
    ensures st.pool.free != []
    ensures st.pool.free[0].len > E.PagesFor(st.pool.page, nbytes) || (st.lru == [] && st.index == map[])
  {
    E.PagesForLeast(st.pool.page, nbytes);
    if st.pool.total == 0 { HollowStore(st, multiset{}); } else { E.LenPositive(-1, st.pool.free, st.pool.total, 0); }
  }

  lemma OneLess<K, V>(m: map<K, V>, k: K)
    requires k in m
    ensures |m - {k}| == |m| - 1
  {
    assert m.Keys == (m - {k}).Keys + {k};
  }

  class CacheStore {
    const alloc: E.ExtentAllocator
    var capacity: int
    var entries: map<Id, Entry>
    var nextId: Id
    var index: map<Key, Id>
    var lru: seq<Key>
    var writing: map<(Key, Session), Id>
    var retired: seq<Id>
    var leases: map<nat, Lease>
    var nextLease: nat

    ghost predicate Valid()
      reads this, alloc
    {
      alloc.Valid()
    }

    ghost function View(): State
      requires Valid()
      reads this, alloc
    {
      State(alloc.State(), capacity, entries, nextId, index, lru, writing, retired, leases, nextLease)
    }

    constructor (poolBytes: int, page: E.pos, capacityBytes: Option<int>)
      requires poolBytes >= 0
      ensures Valid() && fresh(alloc) && View() == Init(poolBytes, page, capacityBytes) && Inv(View())
    {
      alloc := new E.ExtentAllocator(poolBytes, page);
      var pool := (poolBytes / page) * page;
      var cap := if capacityBytes.Some? && capacityBytes.value != 0 then capacityBytes.value else pool;
      capacity := Min(cap, pool);
      entries, nextId, index, lru, writing, retired := map[], 0, map[], [], map[], [];
      leases, nextLease := map[], 1;
      new;
      InitInv(poolBytes, page, capacityBytes);
    }

    // ---------------------------------------------------------------- space

    method FreeEntry(id: Id)
      requires Valid() && id in entries && PagesOk(alloc.State(), entries)
      modifies this`entries, alloc
      ensures Valid() && View() == Store.FreeEntry(old(View()), id)
    {
      var e := entries[id];
      assert InPool(alloc.State(), e);
      E.UsedIsUnlisted(alloc.State(), e.offset, e.size);
      entries := entries - {id};
      alloc.Release(e.offset, e.size);
    }

    method Drop(k: Key)
      requires Valid() && Cached(View(), k) && PagesOk(alloc.State(), entries)
      modifies this`entries, this`index, this`lru, alloc
      ensures Valid() && View() == Store.Drop(old(View()), k)
    {
      var id := index[k];
      lru := Without(lru, k);
      index := index - {k};
      FreeEntry(id);
    }

    method EvictOne() returns (ok: bool)
      requires Valid() && (lru == [] || (Shape(View()) && PagesOk(alloc.State(), entries)))
      modifies this`entries, this`index, this`lru, alloc
      ensures Valid() && (ok, View()) == Store.EvictOne(old(View()))
    {
      ghost var st := View();
      for i := 0 to |lru|
        invariant Valid() && View() == st && Victim(st, 0) == Victim(st, i)
      {
        assert lru[i] in lru;
        if entries[index[lru[i]]].pins == 0 {
          Drop(lru[i]);
          return true;
        }
      }
      return false;
    }

    lemma EvictReady()
      requires Valid() && Inv(View())
      ensures Shape(View()) && PagesOk(alloc.State(), entries)
    {
    }

    method TryAllocate(nbytes: int) returns (offset: Option<int>)
      requires Valid() && E.Spaced(alloc.State().free)
      modifies alloc
      ensures Valid()
      ensures (offset, alloc.State()) ==
              if FitsCapacity(old(View()), nbytes) then E.Alloc(old(alloc.State()), nbytes) else (None, old(alloc.State()))
    {
      offset := None;
      var need := E.PagesFor(alloc.page, nbytes) * alloc.page;
      if alloc.usedPages * alloc.page + need <= capacity { offset := alloc.Allocate(nbytes); }
    }

    lemma NoRoomNoChange(p: E.Pool, nbytes: int)
      ensures E.Alloc(p, nbytes).0.None? ==> E.Alloc(p, nbytes).1 == p
    {
    }

    method Allocate(nbytes: int) returns (offset: Option<int>)
      requires Valid() && (Inv(View()) || Serves(View(), nbytes))
      modifies this`entries, this`index, this`lru, alloc
      ensures Valid() && (offset, View()) == Store.Allocate(old(View()), nbytes)
    {
      hide Balanced, FitsCapacity, E.Alloc, E.Wf, E.Spaced;
      ghost var result := Store.Allocate(View(), nbytes);
      while true
        invariant Valid() && (Inv(View()) || Serves(View(), nbytes)) && Store.Allocate(View(), nbytes) == result
        decreases |lru|
      {
        if Inv(View()) {
          EvictReady();
          EvictKeeps(View(), multiset{});
          PoolIsSpaced(View());
        }
        NoRoomNoChange(alloc.State(), nbytes);
        RoomIsTaken(View(), nbytes);
        offset := TryAllocate(nbytes);
        if offset.Some? { return; }
        var ok := EvictOne();
        if !ok { return None; }
      }
    }

    lemma RoomIsTaken(st: State, nbytes: int)
      ensures Serves(st, nbytes) && !(st.lru == [] && st.index == map[]) ==> E.Alloc(st.pool, nbytes).0.Some?
    {
      if Serves(st, nbytes) { E.AllocOfNothing(st.pool, nbytes); }
    }

    method SetCapacity(bytes: int)
      requires Valid() && Inv(View())
      modifies this`capacity, this`entries, this`index, this`lru, alloc
      ensures Valid() && View() == Store.SetCapacity(old(View()), bytes) && Inv(View())
    {
      hide Balanced;
      RecapKeeps(View(), Max(0, Min(bytes, PoolBytes(View().pool))));
      capacity := Max(0, Min(bytes, alloc.totalPages * alloc.page));
      ShrinkToCapacity();
    }

    lemma RecapKeeps(st: State, capacity: int)
      requires Inv(st)
      ensures Inv(st.(capacity := capacity))
    {
      assert forall x :: PinSum(st.(capacity := capacity), x) == PinSum(st, x);
    }

    method ShrinkToCapacity()
      requires Valid() && Inv(View())
      modifies this`entries, this`index, this`lru, alloc
      ensures Valid() && View() == Shrink(old(View())) && Inv(View())
    {
      hide Balanced;
      ghost var result := Shrink(View());
      var ok := true;
      while ok && alloc.usedPages * alloc.page > capacity
        invariant Valid() && Inv(View())
        invariant if ok then Shrink(View()) == result else View() == result
        decreases |lru|, ok
      {
        EvictReady();
        EvictKeeps(View(), multiset{});
        ok := EvictOne();
      }
    }

    method Flush() returns (dropped: nat)
      requires Valid() && Inv(View())
      modifies this`entries, this`index, this`lru, alloc
      ensures Valid() && View() == Store.Flush(old(View())) && Inv(View()) && dropped == |old(lru)| - |lru|
    {
      var ks := lru;
      ghost var result := Store.Flush(View());
      dropped := 0;
      for i := 0 to |ks|
        invariant Valid() && Inv(View()) && FlushKeys(View(), ks[i..]) == result
        invariant dropped == |ks| - |lru|
      {
        assert ks[i..][1..] == ks[i + 1..];
        if Cached(View(), ks[i]) && Pins(View(), ks[i]) == 0 { DropKeeps(View(), ks[i], multiset{}); }
        if ks[i] in index && entries[index[ks[i]]].pins == 0 {
          Drop(ks[i]);
          dropped := dropped + 1;
        }
      }
    }

    // --------------------------------------------------------------- lookup

    method Lookup(hashes: seq<string>, ranks: int, pin: bool, expires: real, owner: Session) returns (f: Found)
      requires Valid() && Inv(View())
      modifies this`entries, this`lru, this`leases, this`nextLease
      ensures Valid() && (f, View()) == Store.Lookup(old(View()), hashes, ranks, pin, expires, owner) && Inv(View())
      ensures f.hits <= |hashes| && ListsEntries(f.granted, index, hashes, f.hits, ranks) && (f.lease.Some? <==> pin && f.hits > 0)
    {
      hide Balanced, ListsEntries, Hits, Rows, TouchAll, PinAll, IdsOf;
      LookupKeeps(View(), hashes, ranks, pin, expires, owner);
      LookupLists(View(), hashes, ranks, pin, expires, owner);
      HitRows(View(), hashes, ranks);
      var hits := CountHits(hashes, ranks);
      var full := Rows(hashes[..hits], ranks);
      var granted := IdsOf(index, full);
      TouchAllKeeps(View(), full);
      TouchRows(full);
      if !pin || hits == 0 { return Found(hits, None, granted); }
      Links(View(), multiset{});
      PinRows(full);
      f := Found(hits, Some(nextLease), granted);
      leases := leases[nextLease := Lease(full, expires, owner)];
      nextLease := nextLease + 1;
    }

    lemma LookupLists(st: State, hashes: seq<string>, ranks: int, pin: bool, expires: real, owner: Session)
      requires Inv(st)
      ensures var f := Store.Lookup(st, hashes, ranks, pin, expires, owner).0;
              && f.hits <= |hashes| && ListsEntries(f.granted, st.index, hashes, f.hits, ranks)
              && (f.lease.Some? <==> pin && f.hits > 0)
    {
      hide Balanced, ListsEntries, Store.Lookup;
      var full, mid := Leases.LookupIs(st, hashes, ranks, pin, expires, owner);
    }

    method TouchRows(ks: seq<Key>)
      requires Valid()
      modifies this`lru
      ensures Valid() && View() == TouchAll(old(View()), ks)
    {
      ghost var result := TouchAll(View(), ks);
      for i := 0 to |ks|
        invariant Valid() && TouchAll(View(), ks[i..]) == result
      {
        assert ks[i..][1..] == ks[i + 1..];
        lru := Without(lru, ks[i]) + [ks[i]];
      }
    }

    method PinRows(ks: seq<Key>)
      requires Valid() && forall k :: k in ks ==> Cached(View(), k)
      modifies this`entries
      ensures Valid() && View() == PinAll(old(View()), ks)
    {
      ghost var result := PinAll(View(), ks);
      for i := 0 to |ks|
        invariant Valid() && PinAll(View(), ks[i..]) == result && entries.Keys == old(entries.Keys)
      {
        assert ks[i..][1..] == ks[i + 1..];
        assert ks[i] in ks;
        var id := index[ks[i]];
        entries := entries[id := entries[id].(pins := entries[id].pins + 1)];
      }
    }

    method CountHits(hashes: seq<string>, ranks: int) returns (hits: nat)
      requires Valid()
      ensures hits == Hits(View(), hashes, ranks)
    {
      hits := 0;
      while hits < |hashes|
        invariant hits <= |hashes| && Hits(View(), hashes, ranks) == hits + Hits(View(), hashes[hits..], ranks)
      {
        assert hashes[hits..][1..] == hashes[hits + 1..];
        if exists r :: 0 <= r < ranks && Key(hashes[hits], r) !in index { break; }
        hits := hits + 1;
      }
    }

    method Unpin(k: Key, ghost debt: multiset<Key>)
      requires Valid() && Balanced(View(), debt + multiset{k})
      modifies this`entries, this`retired, alloc
      ensures Valid() && View() == Store.Unpin(old(View()), k)
    {
      hide Balanced, PagesOk, Store.FreeEntry;
      Links(View(), debt + multiset{k});
      if k in index && entries[index[k]].pins > 0 {
        var id := index[k];
        entries := entries[id := entries[id].(pins := entries[id].pins - 1)];
        return;
      }
      var i := FindOld(k);
      if i < |retired| { LoosenOld(i); }
    }

    /** The first replaced entry of the key that is still pinned, if there is one. */
    method FindOld(k: Key) returns (i: nat)
      requires Valid() && forall id :: id in retired ==> id in entries
      ensures i == OldVersion(View(), k, 0) <= |retired|
    {
      i := 0;
      while i < |retired|
        invariant i <= |retired| && OldVersion(View(), k, 0) == OldVersion(View(), k, i)
      {
        assert retired[i] in retired;
        var id := retired[i];
        if entries[id].key == k && entries[id].pins > 0 { return; }
        i := i + 1;
      }
    }

    /** Take one pin from the retired entry at position `i`; free it with its last pin. */
    method LoosenOld(i: nat)
      requires Valid() && i < |retired| && retired[i] in entries && entries[retired[i]].pins > 0
      requires PagesOk(alloc.State(), entries)
      modifies this`entries, this`retired, alloc
      ensures Valid()
      ensures var st, id := old(View()), old(retired[i]);
              var st1 := WithPins(st, id, st.entries[id].pins - 1);
              View() == if st.entries[id].pins == 1 then Store.FreeEntry(st1.(retired := st.retired[..i] + st.retired[i + 1..]), id) else st1
    {
      hide PagesOk;
      var id := retired[i];
      PagesAfterUpdate(alloc.State(), entries, id, entries[id].(pins := entries[id].pins - 1));
      entries := entries[id := entries[id].(pins := entries[id].pins - 1)];
      if entries[id].pins == 0 {
        retired := retired[..i] + retired[i + 1..];
        FreeEntry(id);
      }
    }

    method Release(lid: nat) returns (found: bool)
      requires Valid() && Inv(View())
      modifies this`entries, this`retired, this`leases, alloc
      ensures Valid() && (found, View()) == Store.Release(old(View()), lid) && Inv(View())
    {
      hide Balanced, PagesOk;
      ReleaseKeeps(View(), lid);
      if lid !in leases { return false; }
      RevokeKeeps(View(), lid);
      var ks := leases[lid].keys;
      leases := leases - {lid};
      UnpinRows(ks);
      return true;
    }

    method UnpinRows(ks: seq<Key>)
      requires Valid() && Balanced(View(), multiset(ks))
      modifies this`entries, this`retired, alloc
      ensures Valid() && View() == UnpinAll(old(View()), ks)
    {
      hide Balanced, PagesOk, Store.Unpin;
      ghost var result := UnpinAll(View(), ks);
      for i := 0 to |ks|
        invariant Valid() && UnpinAll(View(), ks[i..]) == result && Balanced(View(), multiset(ks[i..]))
      {
        assert ks[i..] == [ks[i]] + ks[i + 1..];
        assert multiset(ks[i..]) == multiset(ks[i + 1..]) + multiset{ks[i]};
        UnpinKeeps(View(), ks[i], multiset(ks[i + 1..]));
        Unpin(ks[i], multiset(ks[i + 1..]));
      }
    }

    method ExpireLeases(now: real) returns (n: nat)
      requires Valid() && Inv(View())
      modifies this`entries, this`retired, this`leases, alloc
      ensures Valid() && View() == ExpireFrom(old(View()), now, 0) && Inv(View())
      ensures n == |old(leases)| - |leases|
    {
      hide Balanced, PagesOk;
      ghost var result := ExpireFrom(View(), now, 0);
      var last := nextLease;
      n := 0;
      for lid := 0 to last
        invariant Valid() && Inv(View()) && ExpireFrom(View(), now, lid) == result && nextLease == last
        invariant n == |old(leases)| - |leases|
      {
        if lid in leases && leases[lid].expires <= now {
          ReleaseKeeps(View(), lid);
          OneLess(leases, lid);
          var _ := Release(lid);
          n := n + 1;
        }
      }
    }

    // ---------------------------------------------------------------- write

    /** Serves any size; an entry without a positive size leaves the invariant, as in the source. */
    method AllocateOne(k: Key, size: int, s: Session, skip: bool) returns (a: Status)
      requires Valid() && (Inv(View()) || Serves(View(), size))
      modifies this`entries, this`index, this`lru, this`writing, this`nextId, alloc
      ensures Valid() && (a, View()) == Store.AllocateOne(old(View()), k, size, s, skip)
      ensures old(Inv(View())) && (size > 0 || !a.New?) ==> Inv(View())
    {
      hide Balanced, PagesOk, FitsCapacity, Serves, Store.Allocate;
      if Inv(View()) { AllocateOneKeeps(View(), k, size, s, skip); }
      if skip && k in index {
        lru := Without(lru, k) + [k];
        return Exists;
      }
      if skip && exists w :: w in writing && w.0 == k { return Busy; }
      if (k, s) in writing { return Busy; }
      var off := Allocate(size);
      if off.None? { return Full; }
      entries := entries[nextId := Entry(k, off.value, size, Writing(s), 0)];
      writing := writing[(k, s) := nextId];
      a := New(nextId);
      nextId := nextId + 1;
    }

    method AllocateForWrite(ks: seq<Key>, size: int, s: Session, skip: bool) returns (out: seq<Status>)
      requires Valid() && Inv(View())
      modifies this`entries, this`index, this`lru, this`writing, this`nextId, alloc
      ensures Valid() && (out, View()) == Store.AllocateForWrite(old(View()), ks, size, s, skip)
      ensures size > 0 || NoneGranted(out) ==> Inv(View())
    {
      hide Balanced, PagesOk, FitsCapacity, E.Spaced, Store.AllocateOne, Store.AllocateForWrite, Serves;
      ghost var result := Store.AllocateForWrite(View(), ks, size, s, skip);
      AllocateForWriteIf(View(), ks, size, s, skip);
      out := [];
      assert ks[0..] == ks;
      for i := 0 to |ks|
        invariant Valid() && (Inv(View()) || Serves(View(), size))
        invariant out + Store.AllocateForWrite(View(), ks[i..], size, s, skip).0 == result.0
        invariant Store.AllocateForWrite(View(), ks[i..], size, s, skip).1 == result.1
      {
        assert ks[i..][1..] == ks[i + 1..];
        FirstThenRest(View(), ks[i..], size, s, skip);
        AllocateOneLeaves(View(), ks[i], size, s, skip);
        var a := AllocateOne(ks[i], size, s, skip);
        ghost var rest := Store.AllocateForWrite(View(), ks[i + 1..], size, s, skip);
        assert out + ([a] + rest.0) == (out + [a]) + rest.0;
        out := out + [a];
      }
      assert ks[|ks|..] == [] && out + [] == out;
      NoneLeft(View(), size, s, skip);
    }

    lemma AllocateForWriteIf(st: State, ks: seq<Key>, size: int, s: Session, skip: bool)
      requires Inv(st)
      ensures var (out, st') := Store.AllocateForWrite(st, ks, size, s, skip);
              size > 0 || NoneGranted(out) ==> Inv(st')
    {
      if size > 0 || NoneGranted(Store.AllocateForWrite(st, ks, size, s, skip).0) {
        AllocateForWriteKeeps(st, ks, size, s, skip);
      }
    }

    method Displace(k: Key)
      requires Valid() && (k in index ==> index[k] in entries) && PagesOk(alloc.State(), entries)
      modifies this`entries, this`index, this`lru, this`retired, alloc
      ensures Valid() && View() == Store.Displace(old(View()), k)
    {
      hide PagesOk;
      if k in index {
        var id := index[k];
        if entries[id].pins > 0 {
          lru := Without(lru, k);
          index := index - {k};
          entries := entries[id := entries[id].(phase := Retired)];
          retired := retired + [id];
        } else {
          Drop(k);
        }
      }
    }

    method CommitOne(k: Key, s: Session) returns (done: bool)
      requires Valid() && Inv(View())
      modifies this`entries, this`index, this`lru, this`writing, this`retired, alloc
      ensures Valid() && View() == Store.CommitOne(old(View()), k, s) && Inv(View())
      ensures |writing| == |old(writing)| - (if done then 1 else 0)
    {
      hide Inv, PagesOk, E.Free, Store.Displace, Store.CommitOne;
      CommitOneKeeps(View(), k, s);
      CommitOneSteps(View(), k, s);
      if (k, s) !in writing { return false; }
      var id := writing[(k, s)];
      OneLess(writing, (k, s));
      writing := writing - {(k, s)};
      Displace(k);
      entries := entries[id := entries[id].(phase := Ready)];
      index := index[k := id];
      lru := Without(lru, k) + [k];
      return true;
    }

    method Commit(ks: seq<Key>, s: Session) returns (n: nat)
      requires Valid() && Inv(View())
      modifies this`entries, this`index, this`lru, this`writing, this`retired, alloc
      ensures Valid() && View() == Store.Commit(old(View()), ks, s) && Inv(View())
      ensures n == |old(writing)| - |writing|
    {
      hide Balanced, PagesOk;
      ghost var result := Store.Commit(View(), ks, s);
      n := 0;
      for i := 0 to |ks|
        invariant Valid() && Inv(View()) && Store.Commit(View(), ks[i..], s) == result
        invariant n == |old(writing)| - |writing|
      {
        assert ks[i..][1..] == ks[i + 1..];
        var done := CommitOne(ks[i], s);
        if done { n := n + 1; }
      }
    }

    method AbortOne(k: Key, s: Session) returns (done: bool)
      requires Valid() && Inv(View())
      modifies this`entries, this`writing, alloc
      ensures Valid() && View() == Store.AbortOne(old(View()), k, s) && Inv(View())
      ensures |writing| == |old(writing)| - (if done then 1 else 0)
    {
      hide Balanced, PagesOk;
      AbortOneKeeps(View(), k, s, multiset{});
      Links(View(), multiset{});
      done := (k, s) in writing;
      if done {
        var id := writing[(k, s)];
        OneLess(writing, (k, s));
        writing := writing - {(k, s)};
        FreeEntry(id);
      }
    }

    method Abort(ks: seq<Key>, s: Session) returns (n: nat)
      requires Valid() && Inv(View())
      modifies this`entries, this`writing, alloc
      ensures Valid() && View() == Store.Abort(old(View()), ks, s) && Inv(View())
      ensures n == |old(writing)| - |writing|
    {
      hide Balanced;
      ghost var result := Store.Abort(View(), ks, s);
      n := 0;
      for i := 0 to |ks|
        invariant Valid() && Inv(View()) && Store.Abort(View(), ks[i..], s) == result
        invariant n == |old(writing)| - |writing|
      {
        assert ks[i..][1..] == ks[i + 1..];
        var done := AbortOne(ks[i], s);
        if done { n := n + 1; }
      }
    }

    /** Abort everything a disconnected session was writing, in whatever order the dictionary lists it. */
    method DropSession(s: Session) returns (n: nat, mine: seq<Key>)
      requires Valid() && Inv(View())
      modifies this`entries, this`writing, alloc
      ensures Valid() && View() == Store.Abort(old(View()), mine, s) && Inv(View())
      ensures forall k :: k in mine <==> (k, s) in old(writing)
      ensures (forall w :: w in writing ==> w.1 != s) && n == |old(writing)| - |writing|
    {
      hide Balanced, PagesOk;
      mine := KeysOf(s);
      AbortExact(View(), mine, s);
      n := Abort(mine, s);
    }

    method KeysOf(s: Session) returns (mine: seq<Key>)
      ensures forall k :: k in mine <==> (k, s) in writing
    {
      var todo := set w | w in writing && w.1 == s;
      mine := [];
      while todo != {}
        invariant forall k :: (k, s) in writing <==> k in mine || (k, s) in todo
        invariant forall w :: w in todo ==> w.1 == s
        decreases todo
      {
        var w :| w in todo;
        mine := mine + [w.0];
        todo := todo - {w};
      }
    }
  }
}
