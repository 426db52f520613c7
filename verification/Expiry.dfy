/**
 Giving up several leases at once. Unpinning goes by key and takes pins from the READY version first and then
 from the replaced ones in the order they were replaced, so what an expiry frees depends only on how often the
 leases that are due name each key.
 */
module Expiry {
  import opened Wrappers
  import opened Store
  import opened StoreInv
  import opened StoreRuns
  import opened Leases

  // ---------------------------------------------------------- the order of unpinning

  /** The pins of versions of `k` listed before `v`. */
  ghost function Before(m: map<Id, Entry>, r: seq<Id>, k: Key, v: Id): nat {
    if r == [] || r[0] == v then 0 else PinsAt(m, r[0], k) + Before(m, r[1..], k, v)
  }

  /** How many unpins of its key it takes to take the last pin of version `v`. */
  ghost function Upto(st: State, v: Id): nat
    requires v in st.entries
  {
    var k := st.entries[v].key;
    st.entries[v].pins + if k in st.index && st.index[k] == v then 0 else Pins(st, k) + Before(st.entries, st.retired, k, v)
  }

  /** How often leases `l` and later that are due at `now` name `k`. */
  ghost function Due(leases: map<nat, Lease>, n: nat, now: real, l: nat, k: Key): nat
    decreases n - l
  {
    if l >= n then 0
    else (if l in leases && leases[l].expires <= now then multiset(leases[l].keys)[k] else 0) + Due(leases, n, now, l + 1, k)
  }

  lemma {:induction false} DueFrame(a: map<nat, Lease>, b: map<nat, Lease>, n: nat, now: real, l: nat, k: Key)
    requires forall x :: l <= x ==> (x in a <==> x in b) && (x in a ==> a[x] == b[x])
    ensures Due(a, n, now, l, k) == Due(b, n, now, l, k)
    decreases n - l
  {
    if l < n { DueFrame(a, b, n, now, l + 1, k); }
  }

  // ------------------------------------------------------------------ one unpin

  lemma {:induction false} BeforeFrame(a: map<Id, Entry>, b: map<Id, Entry>, r: seq<Id>, k: Key, v: Id)
    requires forall id :: id in r && id != v ==> PinsAt(a, id, k) == PinsAt(b, id, k)
    ensures Before(a, r, k, v) == Before(b, r, k, v)
  {
    if r != [] && r[0] != v {
      assert r[0] in r;
      BeforeFrame(a, b, r[1..], k, v);
    }
  }

  /** Leaving out a version that has no pin changes nothing. */
  lemma {:induction false} BeforeSkip(m: map<Id, Entry>, r: seq<Id>, j: nat, k: Key, v: Id)
    requires j < |r| && PinsAt(m, r[j], k) == 0 && r[j] != v
    ensures Before(m, r[..j] + r[j + 1..], k, v) == Before(m, r, k, v)
  {
    if j == 0 {
      assert r[..j] + r[j + 1..] == r[1..];
    } else if r[0] != v {
      assert (r[..j] + r[j + 1..])[1..] == r[1..][..j - 1] + r[1..][j..];
      BeforeSkip(m, r[1..], j - 1, k, v);
    }
  }

  /** Nothing before the first version with a pin has one. */
  lemma {:induction false} NoneBeforeFirst(m: map<Id, Entry>, r: seq<Id>, k: Key, u: Id)
    requires FirstOld(m, r, k) == Some(u)
    ensures Before(m, r, k, u) == 0
  {
    if r != [] && r[0] != u { NoneBeforeFirst(m, r[1..], k, u); }
  }

  /** The first version with a pin comes before any other, so one pin less there is one less before that. */
  lemma {:induction false} FirstComesBefore(a: map<Id, Entry>, b: map<Id, Entry>, r: seq<Id>, k: Key, u: Id, v: Id)
    requires FirstOld(a, r, k) == Some(u) && v in r && u != v && PinsAt(a, v, k) > 0 && Distinct(r)
    requires PinsAt(a, u, k) == PinsAt(b, u, k) + 1 && forall id :: id in r && id != u ==> PinsAt(a, id, k) == PinsAt(b, id, k)
    ensures Before(a, r, k, v) == Before(b, r, k, v) + 1
  {
    assert r[0] in r && forall x :: x in r <==> x == r[0] || x in r[1..];
    if r[0] == u {
      DistinctTail(r);
      BeforeFrame(a, b, r[1..], k, v);
    } else {
      DistinctTail(r);
      FirstComesBefore(a, b, r[1..], k, u, v);
    }
  }

  lemma DistinctTail(r: seq<Id>)
    requires r != [] && Distinct(r)
    ensures Distinct(r[1..]) && r[0] !in r[1..]
  {
    forall i, j | 0 <= i < j < |r[1..]| ensures r[1..][i] != r[1..][j] { assert r[i + 1] != r[j + 1]; }
  }

  /** A pinned version is the current one of its key or a replaced one. */
  lemma PinnedIsListed(st: State, v: Id)
    requires IndexOk(st) && RetiredOk(st) && WritingOk(st) && v in st.entries && st.entries[v].pins > 0
    ensures var k := st.entries[v].key; (k in st.index && st.index[k] == v) || v in st.retired
    ensures v in st.retired ==> !(st.entries[v].key in st.index && st.index[st.entries[v].key] == v)
  {
  }

  /** An unpin of another key changes nothing for `v`. */
  lemma UptoOther(st: State, k: Key, v: Id)
    requires IndexOk(st) && RetiredOk(st) && Pick(st, k).Some? && v in st.entries && st.entries[v].key != k
    ensures v in Unpin(st, k).entries && Unpin(st, k).entries[v] == st.entries[v] && Upto(Unpin(st, k), v) == Upto(st, v)
  {
    hide Unpin, Pick, OldVersion;
    var x, st' := st.entries[v].key, Unpin(st, k);
    var u := Pick(st, k).value;
    UnpinTakesPick(st, k, u);
    PinsOther(st, k, x);
    UnpinRetired(st, k);
    hide IndexOk, RetiredOk, Pins;
    BeforeFrame(st.entries, st'.entries, st.retired, x, v);
    if st'.retired != st.retired {
      var j: nat :| j < |st.retired| && st.retired[j] == u && st'.retired == st.retired[..j] + st.retired[j + 1..];
      BeforeSkip(st'.entries, st.retired, j, x, v);
    }
  }

  /** The picked version is the one that is `Upto` its own pins. */
  lemma UptoPicked(st: State, k: Key, u: Id)
    requires IndexOk(st) && RetiredOk(st) && Pick(st, k) == Some(u)
    ensures u in st.entries && st.entries[u].key == k && Upto(st, u) == st.entries[u].pins
  {
    UnpinTakesPick(st, k, u);
    PickIs(st, k);
    if Pins(st, k) == 0 { NoneBeforeFirst(st.entries, st.retired, k, u); }
  }

  /** One unpin of its key brings every other pinned version one closer. */
  lemma UptoBehind(st: State, k: Key, u: Id, v: Id)
    requires IndexOk(st) && RetiredOk(st) && WritingOk(st) && Pick(st, k) == Some(u) && v != u
    requires v in st.entries && st.entries[v].key == k && st.entries[v].pins > 0
    ensures v in Unpin(st, k).entries && Unpin(st, k).entries[v] == st.entries[v]
    ensures Upto(st, v) > 1 && Upto(Unpin(st, k), v) == Upto(st, v) - 1
  {
    UnpinTakesPick(st, k, u);
    PinnedIsListed(st, v);
    PickIs(st, k);
    UnpinRetired(st, k);
    if Pins(st, k) > 0 {
      BehindCurrent(st, k, v);
    } else {
      BehindRetired(st, k, u, v);
    }
  }

  lemma BehindCurrent(st: State, k: Key, v: Id)
    requires IndexOk(st) && RetiredOk(st) && Pins(st, k) > 0 && v != st.index[k]
    requires v in st.entries && st.entries[v].key == k && st.entries[v].pins > 0
    ensures v in Unpin(st, k).entries && Unpin(st, k).entries[v] == st.entries[v]
    ensures Upto(st, v) > 1 && Upto(Unpin(st, k), v) == Upto(st, v) - 1
  {
    BeforeFrame(st.entries, Unpin(st, k).entries, st.retired, k, v);
  }

  lemma BehindRetired(st: State, k: Key, u: Id, v: Id)
    requires IndexOk(st) && RetiredOk(st) && Pins(st, k) == 0 && FirstOld(st.entries, st.retired, k) == Some(u)
    requires Pick(st, k) == Some(u) && v != u && v in st.retired
    requires v in st.entries && st.entries[v].key == k && st.entries[v].pins > 0
    ensures v in Unpin(st, k).entries && Unpin(st, k).entries[v] == st.entries[v]
    ensures Upto(st, v) > 1 && Upto(Unpin(st, k), v) == Upto(st, v) - 1
  {
    hide Unpin, Pick, OldVersion;
    var st' := Unpin(st, k);
    UnpinTakesPick(st, k, u);
    UnpinRetired(st, k);
    NoPinsLeft(st, k);
    FirstComesBefore(st.entries, st'.entries, st.retired, k, u, v);
    hide IndexOk, RetiredOk, Pins;
    if st'.retired != st.retired {
      var j: nat :| j < |st.retired| && st.retired[j] == u && st'.retired == st.retired[..j] + st.retired[j + 1..];
      BeforeSkip(st'.entries, st.retired, j, k, v);
    }
  }

  lemma NoPinsLeft(st: State, k: Key)
    requires IndexOk(st) && RetiredOk(st) && Pins(st, k) == 0 && Pick(st, k).Some?
    ensures Pins(Unpin(st, k), k) == 0
  {
    UnpinTakesPick(st, k, Pick(st, k).value);
  }

  // ----------------------------------------------------------------- many unpins

  lemma ListsOk(st: State, debt: multiset<Key>)
    requires Balanced(st, debt)
    ensures IndexOk(st) && RetiredOk(st) && WritingOk(st)
  {
  }

  ghost predicate Pinned(st: State, v: Id) { v in st.entries && st.entries[v].pins > 0 }

  /** A version keeps a pin if and only if its key is unpinned less often than it takes to get to its last one. */
  lemma {:induction false} UnpinAllIff(st: State, ks: seq<Key>, v: Id)
    requires Balanced(st, multiset(ks)) && Pinned(st, v)
    ensures var st', k := UnpinAll(st, ks), st.entries[v].key;
            && (Pinned(st', v) <==> multiset(ks)[k] < Upto(st, v))
            && (Pinned(st', v) ==> st'.entries[v].key == k && Upto(st', v) == Upto(st, v) - multiset(ks)[k])
    decreases |ks|
  {
    hide Balanced, Unpin, Pick, Upto;
    ListsOk(st, multiset(ks));
    UptoPositive(st, v);
    if ks != [] {
      var u := UnpinHead(st, ks);
      var st1, k := Unpin(st, ks[0]), st.entries[v].key;
      hide IndexOk, RetiredOk, WritingOk;
      if ks[0] != k {
        UptoOther(st, ks[0], v);
        UnpinAllIff(st1, ks[1..], v);
      } else if u != v {
        UptoBehind(st, k, u, v);
        UnpinAllIff(st1, ks[1..], v);
      } else {
        UptoPicked(st, k, v);
        if st.entries[v].pins > 1 {
          ListsOk(st1, multiset(ks[1..]));
          UptoPicked(st1, k, v);
          UnpinAllIff(st1, ks[1..], v);
        } else {
          UnpinAllMonotone(st1, ks[1..], v);
        }
      }
    }
  }

  lemma UptoPositive(st: State, v: Id)
    requires Pinned(st, v)
    ensures Upto(st, v) > 0
  {
  }

  /** The same for all leases that are due. */
  lemma {:induction false} ExpireIff(st: State, now: real, l: nat, v: Id)
    requires Inv(st) && Pinned(st, v)
    ensures Pinned(ExpireFrom(st, now, l), v) <==> Due(st.leases, st.nextLease, now, l, st.entries[v].key) < Upto(st, v)
    decreases st.nextLease - l
  {
    hide Balanced, Upto, UnpinAll;
    UptoPositive(st, v);
    if l < st.nextLease {
      var k := st.entries[v].key;
      if Expired(st, now, l) {
        var st1 := Release(st, l).1;
        RevokeKeeps(st, l);
        ReleaseKeeps(st, l);
        UnpinAllIff(st.(leases := st.leases - {l}), st.leases[l].keys, v);
        UptoIgnoresLeases(st, st.leases - {l}, v);
        DueFrame(st.leases, st1.leases, st.nextLease, now, l + 1, k);
        if Pinned(st1, v) {
          ExpireIff(st1, now, l + 1, v);
        } else {
          ExpireMonotone(st1, now, l + 1, v);
        }
      } else {
        ExpireIff(st, now, l + 1, v);
      }
    }
  }

  lemma UptoIgnoresLeases(st: State, leases: map<nat, Lease>, v: Id)
    requires v in st.entries
    ensures Upto(st.(leases := leases), v) == Upto(st, v)
  {
  }

  /** What is gone, unpinned or of a kind stays so. */
  lemma {:induction false} ExpireMonotone(st: State, now: real, l: nat, id: Id)
    requires Inv(st)
    ensures var m := ExpireFrom(st, now, l).entries;
            id in m ==> id in st.entries && m[id].pins <= st.entries[id].pins && m[id].phase == st.entries[id].phase
    decreases st.nextLease - l
  {
    hide Balanced, UnpinAll;
    if l < st.nextLease {
      if Expired(st, now, l) {
        RevokeKeeps(st, l);
        ReleaseKeeps(st, l);
        UnpinAllMonotone(st.(leases := st.leases - {l}), st.leases[l].keys, id);
        ExpireMonotone(Release(st, l).1, now, l + 1, id);
      } else {
        ExpireMonotone(st, now, l + 1, id);
      }
    }
  }

  // ------------------------------------------------------------------ the promise

  /** What the leases that are not due at `now` were granted. */
  ghost function Kept(st: State, g: Grants, now: real): Grants { map x | x in g && !Expired(st, now, x) :: g[x] }

  lemma GrantedIsPinned(st: State, g: Grants, x: nat, j: nat)
    requires Inv(st) && Exact(st, g) && x in g && j < |g[x]|
    ensures Pinned(st, g[x][j]) && !st.entries[g[x][j]].phase.Writing?
  {
    assert Holds(st, st.leases[x].keys, g[x]);
    HeldIsCounted(g, st.nextLease, x, g[x][j]);
  }

  /** A pinned entry is there after an expiry and a flush if and only if it kept a pin. */
  lemma FlushedIff(st: State, now: real, v: Id)
    requires Inv(st) && Pinned(st, v) && !st.entries[v].phase.Writing?
    ensures v in Flush(ExpireFrom(st, now, 0)).entries <==>
            Due(st.leases, st.nextLease, now, 0, st.entries[v].key) < Upto(st, v)
  {
    hide Balanced, Upto, Flush, ExpireFrom, Due;
    var r := ExpireFrom(st, now, 0);
    ExpireKeeps(st, now, 0);
    ExpireIff(st, now, 0, v);
    ExpireMonotone(st, now, 0, v);
    if v in r.entries && r.entries[v].pins == 0 { UnpinnedIsReady(r, v); }
    FlushKeepsPinned(r, v);
  }

  /**
   After the leases that are due are given up, a flush leaves every entry granted under the others, if and only
   if for each of those entries the leases given up name its key less often than it takes to get to its last pin.
   */
  lemma ExpiryProtectsIff(st: State, g: Grants, now: real)
    requires Inv(st) && Exact(st, g)
    ensures AllThere(Flush(ExpireFrom(st, now, 0)), Kept(st, g, now)) <==>
            forall x, j :: x in g && !Expired(st, now, x) && 0 <= j < |g[x]| ==>
              g[x][j] in st.entries && Due(st.leases, st.nextLease, now, 0, st.entries[g[x][j]].key) < Upto(st, g[x][j])
  {
    hide Balanced, Upto, Flush, ExpireFrom, Due, Exact;
    forall x, j | x in g && !Expired(st, now, x) && 0 <= j < |g[x]|
      ensures Pinned(st, g[x][j])
      ensures g[x][j] in Flush(ExpireFrom(st, now, 0)).entries <==>
              Due(st.leases, st.nextLease, now, 0, st.entries[g[x][j]].key) < Upto(st, g[x][j])
    {
      GrantedIsPinned(st, g, x, j);
      FlushedIff(st, now, g[x][j]);
    }
    assert forall x :: x in Kept(st, g, now) ==> Kept(st, g, now)[x] == g[x];
  }
}
