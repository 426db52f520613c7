/**
 What the store answers, position by position: the entries a lookup hands out and the lease it records, the statuses
 of a write request, and the versions a commit retires.
 */
module StoreAnswers {
  import opened Wrappers
  import E = Extents
  import opened Store
  import opened StoreInv
  import opened StoreRuns
  import Leases

  // ---------------------------------------------------------------- lookup

  /** The lookup finds the longest prefix of the request that is cached on every rank. */
  lemma LookupFinds(st: State, hashes: seq<string>, ranks: int, pin: bool, expires: real, owner: Session)
    ensures var f := Lookup(st, hashes, ranks, pin, expires, owner).0;
            && f.hits <= |hashes|
            && (forall i, r :: 0 <= i < f.hits && 0 <= r < ranks ==> Key(hashes[i], r) in st.index)
            && (f.hits < |hashes| ==> exists r :: 0 <= r < ranks && Key(hashes[f.hits], r) !in st.index)
  {
    hide TouchAll, PinAll, Rows, IdsOf, Hits;
    HitsIsLongestPrefix(st, hashes, ranks);
    var hits := Hits(st, hashes, ranks);
    assert forall i :: 0 <= i < hits ==> Hit(st, hashes[i], ranks);
  }

  /**
   It hands out the cached entries of that prefix in the order of the request, rank by rank. With a pin and at least one
   hit it records them under a new lease, in the same order, and pins each once for every time it is listed. Beyond that
   it changes only the order of use.
   */
  lemma LookupExact(st: State, hashes: seq<string>, ranks: int, pin: bool, expires: real, owner: Session)
      returns (keys: seq<Key>)
    requires Inv(st)
    ensures var (f, st') := Lookup(st, hashes, ranks, pin, expires, owner);
            && f.hits <= |hashes| && Lists(keys, hashes, f.hits, ranks)
            && ListsEntries(f.granted, st.index, hashes, f.hits, ranks)
            && (f.lease.Some? <==> pin && f.hits > 0)
            && (f.lease.None? ==> st' == st.(lru := st'.lru))
            && (f.lease.Some? ==>
                  && f.lease.value == st.nextLease && st.nextLease !in st.leases
                  && st' == st.(lru := st'.lru, entries := st'.entries, nextLease := st.nextLease + 1,
                                leases := st.leases[st.nextLease := Lease(keys, expires, owner)])
                  && st'.entries.Keys == st.entries.Keys
                  && forall id :: id in st.entries ==>
                       st'.entries[id] == st.entries[id].(pins := st.entries[id].pins + multiset(f.granted)[id]))
  {
    hide Balanced, Lookup, Lists, ListsEntries, PinAll, IdsOf;
    var mid;
    keys, mid := Leases.LookupIs(st, hashes, ranks, pin, expires, owner);
    NextIsNew(st);
    PinAllKeeps(mid, keys, multiset{});
    forall id | id in st.entries
      ensures Pinned(st.entries[id], multiset(keys))
              == st.entries[id].(pins := st.entries[id].pins + multiset(IdsOf(st.index, keys))[id])
    {
      Leases.CountByKey(st, keys, id);
    }
  }

  lemma NextIsNew(st: State)
    requires Inv(st)
    ensures st.nextLease !in st.leases
  {
  }

  // -------------------------------------------------------- write requests

  lemma {:induction false} AllocateForWriteConcat(st: State, a: seq<Key>, b: seq<Key>, size: int, s: Session, skip: bool)
    ensures var (x, st1) := AllocateForWrite(st, a, size, s, skip);
            var (y, st2) := AllocateForWrite(st1, b, size, s, skip);
            AllocateForWrite(st, a + b, size, s, skip) == (x + y, st2) && |x| == |a|
    decreases |a|
  {
    hide AllocateOne;
    if a == [] {
      var y := AllocateForWrite(st, b, size, s, skip).0;
      assert a + b == b && [] + y == y;
    } else {
      assert (a + b)[1..] == a[1..] + b;
      var (o, st0) := AllocateOne(st, a[0], size, s, skip);
      AllocateForWriteConcat(st0, a[1..], b, size, s, skip);
      var (x, st1) := AllocateForWrite(st0, a[1..], size, s, skip);
      var y := AllocateForWrite(st1, b, size, s, skip).0;
      assert [o] + (x + y) == [o] + x + y;
    }
  }

  lemma AllocateForOne(st: State, k: Key, size: int, s: Session, skip: bool)
    ensures var (a, st') := AllocateOne(st, k, size, s, skip);
            AllocateForWrite(st, [k], size, s, skip) == ([a], st')
  {
    hide AllocateOne;
    var (a, st') := AllocateOne(st, k, size, s, skip);
    assert [k][1..] == [] && AllocateForWrite(st', [], size, s, skip) == ([], st');
    assert [a] + [] == [a];
  }

  /** One answer per key, in the order of the keys: each as the store is after those before it. */
  lemma AnswersInOrder(st: State, ks: seq<Key>, size: int, s: Session, skip: bool, i: nat)
    requires i < |ks|
    ensures var (out, st') := AllocateForWrite(st, ks, size, s, skip);
            var before, after := AllocateForWrite(st, ks[..i], size, s, skip), AllocateForWrite(st, ks[..i + 1], size, s, skip);
            && |out| == |ks| && |before.0| == i && out[..i] == before.0
            && (out[i], after.1) == AllocateOne(before.1, ks[i], size, s, skip)
  {
    hide AllocateOne, AllocateForWrite;
    assert ks == ks[..i + 1] + ks[i + 1..] && ks[..i + 1] == ks[..i] + [ks[i]];
    AllocateForWriteConcat(st, ks[..i + 1], ks[i + 1..], size, s, skip);
    AllocateForWriteConcat(st, ks[..i], [ks[i]], size, s, skip);
    AllocateForOne(AllocateForWrite(st, ks[..i], size, s, skip).1, ks[i], size, s, skip);
    var rest := ks[i + 1..];
    AllocateForWriteConcat(AllocateForWrite(st, ks[..i + 1], size, s, skip).1, rest, [], size, s, skip);
  }

  // ---------------------------------------------------------------- commit

  /** `b` has the versions of every key but `k` that `a` has, with the same pins. */
  ghost predicate SameButFor(a: State, b: State, k: Key) {
    && (forall x :: x != k ==> (x in b.index <==> x in a.index) && Pins(b, x) == Pins(a, x))
    && (forall x :: x != k && x in a.index ==> b.index[x] == a.index[x])
  }

  lemma PublishParts(st: State, k: Key, s: Session)
    requires (k, s) in st.writing && st.writing[(k, s)] in st.entries
    ensures Publish(st, k, s).retired == st.retired && Publish(st, k, s).writing == st.writing - {(k, s)}
    ensures SameButFor(st, Publish(st, k, s), k)
  {
  }

  lemma RetireParts(st: State, k: Key)
    requires IndexOk(st) && k in st.index
    ensures Retire(st, k).retired == st.retired + [st.index[k]] && Retire(st, k).writing == st.writing
    ensures SameButFor(st, Retire(st, k), k)
  {
  }

  lemma DropParts(st: State, k: Key)
    requires IndexOk(st) && k in st.index
    ensures Drop(st, k).retired == st.retired && Drop(st, k).writing == st.writing
    ensures SameButFor(st, Drop(st, k), k)
  {
    hide E.Free;
  }

  lemma SameTrans(a: State, b: State, c: State, k: Key)
    requires SameButFor(a, b, k) && SameButFor(b, c, k)
    ensures SameButFor(a, c, k)
  {
    hide Pins;
  }

  lemma SameRefl(st: State, k: Key)
    ensures SameButFor(st, st, k)
  {
    hide Pins;
  }

  lemma CommitOneRetires(st: State, k: Key, s: Session)
    requires Inv(st)
    ensures var st' := CommitOne(st, k, s);
            && st'.retired == st.retired + (if (k, s) in st.writing && k in st.index && Pins(st, k) > 0 then [st.index[k]] else [])
            && st'.writing == st.writing - {(k, s)}
            && SameButFor(st, st', k)
  {
    hide Balanced, CommitOne, Pins, SameButFor, Drop, Retire, Publish;
    SameRefl(st, k);
    if (k, s) in st.writing {
      var mid := DisplaceKeeps(st, k);
      IndexIsOk(st);
      WriterIsThere(mid, k, s);
      CommitOneIs(st, k, s);
      PublishParts(mid, k, s);
      if k in st.index {
        if Pins(st, k) > 0 { RetireParts(st, k); } else { DropParts(st, k); }
      }
      SameTrans(st, mid, Publish(mid, k, s), k);
      assert st.retired + [] == st.retired;
    } else {
      NothingCommitted(st, k, s);
    }
  }

  lemma WriterIsThere(st: State, k: Key, s: Session)
    requires Inv(st) && (k, s) in st.writing
    ensures st.writing[(k, s)] in st.entries
  {
  }

  lemma NothingCommitted(st: State, k: Key, s: Session)
    requires (k, s) !in st.writing
    ensures CommitOne(st, k, s) == st && st.writing - {(k, s)} == st.writing && st.retired + [] == st.retired
  {
  }

  /**
   A commit puts the pinned versions it replaces behind those replaced before: an unpin finds the oldest first. Every
   other replaced version is freed.
   */
  lemma {:induction false} CommitRetires(st: State, ks: seq<Key>, s: Session)
    requires Inv(st)
    ensures var was, now := st.retired, Commit(st, ks, s).retired;
            && |was| <= |now| && now[..|was|] == was
            && forall id :: id in now[|was|..] <==>
                 exists k :: k in ks && (k, s) in st.writing && k in st.index && Pins(st, k) > 0 && st.index[k] == id
    decreases |ks|
  {
    hide Balanced, CommitOne, Pins;
    var was, now := st.retired, Commit(st, ks, s).retired;
    if ks == [] {
      assert now[|was|..] == [];
    } else {
      var k := ks[0];
      var st1 := CommitOne(st, k, s);
      CommitOneRetires(st, k, s);
      CommitOneKeeps(st, k, s);
      CommitRetires(st1, ks[1..], s);
      assert forall x :: x in ks <==> x == k || x in ks[1..];
      assert now[|was|..] == st1.retired[|was|..] + now[|st1.retired|..];
    }
  }

  // ---------------------------------------------------------------- release

  /** Unpinning takes pins away, and entries only among the replaced ones. */
  ghost predicate OnlyUnpins(a: State, b: State) {
    && b == a.(pool := b.pool, entries := b.entries, retired := b.retired)
    && (forall id :: id in b.entries ==>
          id in a.entries && b.entries[id].pins <= a.entries[id].pins && b.entries[id] == a.entries[id].(pins := b.entries[id].pins))
    && (forall id :: id in a.entries && a.entries[id].phase != Retired ==> id in b.entries)
  }

  lemma UnpinOnly(st: State, k: Key)
    requires RetiredOk(st)
    ensures OnlyUnpins(st, Unpin(st, k))
  {
    hide E.Free, OldVersion;
    var j := OldVersion(st, k, 0);
    if Pins(st, k) > 0 || j == |st.retired| {
      UnpinCurrentOnly(st, k);
    } else {
      assert st.retired[j] in st.retired;
      UnpinOldOnly(st, k, j);
    }
  }

  lemma UnpinCurrentOnly(st: State, k: Key)
    requires Pins(st, k) > 0 || OldVersion(st, k, 0) == |st.retired|
    ensures OnlyUnpins(st, Unpin(st, k))
  {
    hide E.Free, OldVersion;
  }

  lemma UnpinOldOnly(st: State, k: Key, j: nat)
    requires Pins(st, k) == 0 && j == OldVersion(st, k, 0) < |st.retired| && st.entries[st.retired[j]].phase == Retired
    ensures OnlyUnpins(st, Unpin(st, k))
  {
    hide E.Free, OldVersion;
  }

  lemma OnlyTrans(a: State, b: State, c: State)
    requires OnlyUnpins(a, b) && OnlyUnpins(b, c)
    ensures OnlyUnpins(a, c)
  {
  }

  lemma {:induction false} UnpinAllOnly(st: State, ks: seq<Key>)
    requires Balanced(st, multiset(ks))
    ensures OnlyUnpins(st, UnpinAll(st, ks))
    decreases |ks|
  {
    hide Balanced, Unpin, OnlyUnpins;
    if ks == [] {
      OnlyRefl(st);
    } else {
      RetiredPart(st, multiset(ks));
      UnpinOnly(st, ks[0]);
      assert ks == [ks[0]] + ks[1..];
      assert multiset(ks) == multiset(ks[1..]) + multiset{ks[0]};
      UnpinKeeps(st, ks[0], multiset(ks[1..]));
      UnpinAllOnly(Unpin(st, ks[0]), ks[1..]);
      OnlyTrans(st, Unpin(st, ks[0]), UnpinAll(st, ks));
    }
  }

  lemma OnlyRefl(st: State)
    ensures OnlyUnpins(st, st)
  {
  }

  lemma RetiredPart(st: State, debt: multiset<Key>)
    requires Balanced(st, debt)
    ensures RetiredOk(st)
  {
  }

  /** A release answers whether there was such a lease, takes it away, and beyond that takes away pins. */
  lemma ReleaseExact(st: State, l: nat)
    requires Inv(st)
    ensures var (found, st') := Release(st, l);
            (found <==> l in st.leases) && OnlyUnpins(st.(leases := st.leases - {l}), st')
  {
    hide Balanced, OnlyUnpins;
    if l in st.leases {
      RevokeKeeps(st, l);
      UnpinAllOnly(st.(leases := st.leases - {l}), st.leases[l].keys);
    } else {
      assert st.leases - {l} == st.leases;
      OnlyRefl(st);
    }
  }
}
