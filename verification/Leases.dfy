/**
 What a lease protects. A lookup hands the client the very entries it found; `grants` remembers them
 per lease, which the source's `Lease` (keys only) does not. `Exact` says that every entry granted
 under a live lease is still in the pool and that each entry's pins count its live grants.

 Every operation keeps `Exact` except giving a lease up: unpinning goes by key, and picks the READY
 version if it is pinned. `ReleaseExactIff` says precisely when that keeps `Exact`, `ReleaseProtectsIff`
 precisely when every other lease keeps its entries, and `StolenPin` is a run in which one does not.
 */
module Leases {
  import opened Wrappers
  import E = Extents
  import opened Store
  import opened StoreInv
  import opened StoreRuns
  import opened StoreSteps

  type Grants = map<nat, seq<Id>>

  /** How often the leases numbered below `n` were granted entry `id`. */
  ghost function GrantsOf(g: Grants, n: nat, id: Id): nat {
    if n == 0 then 0 else GrantsOf(g, n - 1, id) + (if n - 1 in g then multiset(g[n - 1])[id] else 0)
  }

  /** Lease `l` holds one live entry of the right key for each of its keys, the same for equal keys. */
  ghost predicate Holds(st: State, keys: seq<Key>, ids: seq<Id>) {
    && |ids| == |keys|
    && (forall i :: 0 <= i < |ids| ==> ids[i] in st.entries && st.entries[ids[i]].key == keys[i])
    && (forall i, j :: 0 <= i < |ids| && 0 <= j < |ids| && keys[i] == keys[j] ==> ids[i] == ids[j])
  }

  ghost predicate AllHeld(st: State, g: Grants) {
    g.Keys == st.leases.Keys && forall l :: l in g ==> Holds(st, st.leases[l].keys, g[l])
  }

  /** Pins count grants, plus those in `debt` that are still to be unpinned. */
  ghost predicate PinsCount(st: State, g: Grants, debt: multiset<Id>) {
    forall id :: id in st.entries ==> st.entries[id].pins == GrantsOf(g, st.nextLease, id) + debt[id]
  }

  ghost predicate Exact(st: State, g: Grants) { AllHeld(st, g) && PinsCount(st, g, multiset{}) }

  // ------------------------------------------------------------ grant counts

  lemma {:induction false} GrantsFrame(a: Grants, b: Grants, n: nat, id: Id)
    requires forall l :: 0 <= l < n ==> (l in a <==> l in b) && (l in a ==> a[l] == b[l])
    ensures GrantsOf(a, n, id) == GrantsOf(b, n, id)
  {
    if n > 0 { GrantsFrame(a, b, n - 1, id); }
  }

  lemma {:induction false} GrantsRemove(g: Grants, n: nat, l: nat, id: Id)
    requires l in g && l < n
    ensures GrantsOf(g, n, id) == GrantsOf(g - {l}, n, id) + multiset(g[l])[id]
  {
    if n - 1 == l { GrantsFrame(g, g - {l}, n - 1, id); } else { GrantsRemove(g, n - 1, l, id); }
  }

  lemma {:induction false} GrantedIsLive(st: State, g: Grants, n: nat, id: Id)
    requires AllHeld(st, g) && GrantsOf(g, n, id) > 0
    ensures id in st.entries
  {
    if n - 1 in g && multiset(g[n - 1])[id] > 0 {
      assert Holds(st, st.leases[n - 1].keys, g[n - 1]);
      assert id in g[n - 1];
    } else {
      GrantedIsLive(st, g, n - 1, id);
    }
  }

  lemma {:induction false} HeldIsCounted(g: Grants, n: nat, l: nat, id: Id)
    requires l in g && l < n && id in g[l]
    ensures GrantsOf(g, n, id) > 0
  {
    if n - 1 != l { HeldIsCounted(g, n - 1, l, id); }
  }

  // ------------------------------------------ operations that leave leases be

  /** Pinned entries survive, so everything held stays held. */
  lemma QuietKeepsExact(a: State, b: State, g: Grants)
    requires Inv(a) && Exact(a, g) && Quiet(a, b)
    ensures Exact(b, g)
  {
    hide Balanced;
    LeasesAreNumbered(a);
    forall l | l in g ensures Holds(b, b.leases[l].keys, g[l]) {
      assert Holds(a, a.leases[l].keys, g[l]);
      forall i | 0 <= i < |g[l]| ensures g[l][i] in b.entries && b.entries[g[l][i]].key == b.leases[l].keys[i] {
        HeldIsCounted(g, a.nextLease, l, g[l][i]);
      }
    }
    forall id | id in b.entries ensures b.entries[id].pins == GrantsOf(g, b.nextLease, id) {
      if id !in a.entries && GrantsOf(g, a.nextLease, id) > 0 { GrantedIsLive(a, g, a.nextLease, id); }
    }
  }

  // ------------------------------------------------------------------- grant

  lemma {:induction false} CountByKey(st: State, ks: seq<Key>, id: Id)
    requires Inv(st) && id in st.entries && forall k :: k in ks ==> k in st.index
    ensures multiset(IdsOf(st.index, ks))[id] == if st.entries[id].phase == Ready then multiset(ks)[st.entries[id].key] else 0
  {
    hide Balanced;
    var ids := IdsOf(st.index, ks);
    if ks == [] {
      assert ids == [];
    } else {
      assert ks == [ks[0]] + ks[1..] && ids == [ids[0]] + ids[1..];
      assert ids[1..] == IdsOf(st.index, ks[1..]);
      assert ks[0] in ks;
      IndexFact(st, ks[0], id);
      CountByKey(st, ks[1..], id);
      assert multiset(ks) == multiset{ks[0]} + multiset(ks[1..]);
      assert multiset(ids) == multiset{ids[0]} + multiset(ids[1..]);
    }
  }

  lemma IndexFact(st: State, k: Key, id: Id)
    requires Inv(st) && k in st.index && id in st.entries
    ensures st.index[k] == id <==> st.entries[id].phase == Ready && st.entries[id].key == k
  {
  }

  lemma IdsHold(st: State, ks: seq<Key>)
    requires Inv(st) && forall k :: k in ks ==> k in st.index
    ensures Holds(st, ks, IdsOf(st.index, ks))
  {
    var ids := IdsOf(st.index, ks);
    forall i | 0 <= i < |ids| ensures ids[i] in st.entries && st.entries[ids[i]].key == ks[i] {
      assert ks[i] in ks;
    }
  }

  /** The grants after a lookup: a new lease holds exactly the entries the client was given. */
  ghost function GrantsAfterLookup(g: Grants, f: Found): Grants {
    if f.lease.Some? then g[f.lease.value := f.granted] else g
  }

  /** What a lookup hands out and records: the keys of the hit prefix, rank by rank, in the order of the request. */
  lemma LookupIs(st: State, hashes: seq<string>, ranks: int, pin: bool, expires: real, owner: Session)
      returns (full: seq<Key>, mid: State)
    requires Inv(st)
    ensures forall k :: k in full ==> k in st.index
    ensures Inv(mid) && mid == st.(lru := mid.lru)
    ensures var (f, st') := Lookup(st, hashes, ranks, pin, expires, owner);
            && f.hits <= |hashes| && Lists(full, hashes, f.hits, ranks)
            && f.granted == IdsOf(st.index, full) && ListsEntries(f.granted, st.index, hashes, f.hits, ranks)
            && (f.lease.Some? <==> pin && f.hits > 0)
            && (f.lease.None? ==> st' == mid)
            && (f.lease.Some? ==>
                  && f.lease.value == st.nextLease
                  && st' == Granted(PinAll(mid, full), Lease(full, expires, owner)))
  {
    hide Balanced;
    HitRows(st, hashes, ranks);
    full := Rows(hashes[..Hits(st, hashes, ranks)], ranks);
    RowsList(hashes, Hits(st, hashes, ranks), ranks);
    IdsList(st.index, full, hashes, Hits(st, hashes, ranks), ranks);
    hide Rows, Hits, Lists, ListsEntries;
    TouchAllKeeps(st, full);
    mid := TouchAll(st, full);
    PinAllKeeps(mid, full, multiset{});
  }

  lemma LookupKeepsExact(st: State, g: Grants, hashes: seq<string>, ranks: int, pin: bool, expires: real, owner: Session)
    requires Inv(st) && Exact(st, g)
    ensures var (f, st') := Lookup(st, hashes, ranks, pin, expires, owner);
            Exact(st', GrantsAfterLookup(g, f))
  {
    hide Balanced, Lists, ListsEntries, Lookup, PinAll;
    var full, mid := LookupIs(st, hashes, ranks, pin, expires, owner);
    var (f, st') := Lookup(st, hashes, ranks, pin, expires, owner);
    if f.lease.Some? {
      PinAllKeeps(mid, full, multiset{});
      GrantExact(st, st', g, full, Lease(full, expires, owner));
    }
  }

  /** The state after pinning `full` and recording the lease, as far as the entries are concerned. */
  ghost predicate PinnedFor(st: State, st': State, full: seq<Key>, lease: Lease) {
    && st'.leases == st.leases[st.nextLease := lease] && st'.nextLease == st.nextLease + 1
    && st'.entries.Keys == st.entries.Keys
    && forall id :: id in st.entries ==> st'.entries[id] == Pinned(st.entries[id], multiset(full))
  }

  lemma GrantHeld(st: State, st': State, g: Grants, full: seq<Key>, lease: Lease)
    requires Inv(st) && AllHeld(st, g) && PinnedFor(st, st', full, lease)
    requires lease.keys == full && forall k :: k in full ==> k in st.index
    ensures AllHeld(st', g[st.nextLease := IdsOf(st.index, full)])
  {
    hide Balanced;
    var g' := g[st.nextLease := IdsOf(st.index, full)];
    IdsHold(st, full);
    forall l | l in g' ensures Holds(st', st'.leases[l].keys, g'[l]) {
      assert l != st.nextLease ==> Holds(st, st.leases[l].keys, g[l]);
    }
  }

  lemma GrantCounted(st: State, st': State, g: Grants, full: seq<Key>, lease: Lease, id: Id)
    requires Inv(st) && PinnedFor(st, st', full, lease) && id in st.entries
    requires st.entries[id].pins == GrantsOf(g, st.nextLease, id) && forall k :: k in full ==> k in st.index
    ensures st'.entries[id].pins == GrantsOf(g[st.nextLease := IdsOf(st.index, full)], st'.nextLease, id)
  {
    hide Balanced;
    CountByKey(st, full, id);
    GrantsFrame(g, g[st.nextLease := IdsOf(st.index, full)], st.nextLease, id);
  }

  lemma GrantExact(st: State, st': State, g: Grants, full: seq<Key>, lease: Lease)
    requires Inv(st) && Exact(st, g) && PinnedFor(st, st', full, lease)
    requires lease.keys == full && forall k :: k in full ==> k in st.index
    ensures Exact(st', g[st.nextLease := IdsOf(st.index, full)])
  {
    hide Balanced, AllHeld;
    GrantHeld(st, st', g, full, lease);
    forall id | id in st.entries ensures st'.entries[id].pins == GrantsOf(g[st.nextLease := IdsOf(st.index, full)], st'.nextLease, id) {
      GrantCounted(st, st', g, full, lease, id);
    }
  }

  // ----------------------------------------------------------------- release

  /** The version that unpinning `k` takes a pin from: the READY one if pinned, else the first retired one. */
  function Pick(st: State, k: Key): Option<Id> {
    if Pins(st, k) > 0 then Some(st.index[k])
    else
      var j := OldVersion(st, k, 0);
      if j < |st.retired| then Some(st.retired[j]) else None
  }

  ghost function FirstOld(m: map<Id, Entry>, r: seq<Id>, k: Key): Option<Id> {
    if r == [] then None
    else if PinsAt(m, r[0], k) > 0 then Some(r[0])
    else FirstOld(m, r[1..], k)
  }

  lemma {:induction false} OldVersionIsFirst(st: State, k: Key, i: nat)
    requires i <= |st.retired|
    ensures var j := OldVersion(st, k, i);
            FirstOld(st.entries, st.retired[i..], k) == if j < |st.retired| then Some(st.retired[j]) else None
    decreases |st.retired| - i
  {
    if i < |st.retired| {
      assert st.retired[i..][1..] == st.retired[i + 1..];
      if PinsAt(st.entries, st.retired[i], k) == 0 { OldVersionIsFirst(st, k, i + 1); }
    }
  }

  lemma {:induction false} FirstOldFrame(a: map<Id, Entry>, b: map<Id, Entry>, r: seq<Id>, k: Key)
    requires forall id :: id in r ==> (PinsAt(a, id, k) > 0 <==> PinsAt(b, id, k) > 0)
    ensures FirstOld(a, r, k) == FirstOld(b, r, k)
  {
    if r != [] {
      assert r[0] in r;
      FirstOldFrame(a, b, r[1..], k);
    }
  }

  lemma {:induction false} FirstOldSkip(m: map<Id, Entry>, r: seq<Id>, j: nat, k: Key)
    requires j < |r| && PinsAt(m, r[j], k) == 0
    ensures FirstOld(m, r[..j] + r[j + 1..], k) == FirstOld(m, r, k)
    decreases j
  {
    if j > 0 {
      assert (r[..j] + r[j + 1..])[1..] == r[1..][..j - 1] + r[1..][j..];
      FirstOldSkip(m, r[1..], j - 1, k);
    } else {
      assert r[..j] + r[j + 1..] == r[1..];
    }
  }

  lemma PickIs(st: State, k: Key)
    ensures Pick(st, k) == if Pins(st, k) > 0 then Some(st.index[k]) else FirstOld(st.entries, st.retired, k)
  {
    assert st.retired[0..] == st.retired;
    OldVersionIsFirst(st, k, 0);
  }

  /** Unpinning a key takes one pin from the picked version and touches no other entry. */
  lemma UnpinTakesPick(st: State, k: Key, u: Id)
    requires IndexOk(st) && RetiredOk(st) && Pick(st, k) == Some(u)
    ensures u in st.entries && st.entries[u].key == k && st.entries[u].pins > 0 && !st.entries[u].phase.Writing?
    ensures var m := Unpin(st, k).entries;
            && (forall id :: id in m ==> id in st.entries)
            && (forall id :: id in st.entries && id != u ==> id in m && m[id] == st.entries[id])
            && (u in m <==> st.entries[u].pins > 1 || st.entries[u].phase == Ready)
            && (u in m ==> m[u] == st.entries[u].(pins := st.entries[u].pins - 1))
    ensures Unpin(st, k).index == st.index && Unpin(st, k).nextLease == st.nextLease && Unpin(st, k).leases == st.leases
  {
    if Pins(st, k) == 0 {
      assert st.retired[OldVersion(st, k, 0)] in st.retired;
    }
  }

  /** Unpinning one key does not change which version another key would pick. */
  lemma PickOther(st: State, k: Key, x: Key)
    requires IndexOk(st) && RetiredOk(st) && Pick(st, k).Some? && x != k
    ensures Pick(Unpin(st, k), x) == Pick(st, x)
  {
    hide Unpin, IndexOk, RetiredOk, Pins, OldVersion, Pick;
    var u, st' := Pick(st, k).value, Unpin(st, k);
    UnpinTakesPick(st, k, u);
    PickIs(st, x);
    PickIs(st', x);
    PinsOther(st, k, x);
    UnpinRetired(st, k);
    FirstOldFrame(st.entries, st'.entries, st.retired, x);
    if st'.retired != st.retired {
      var j: nat :| j < |st.retired| && st.retired[j] == u && st'.retired == st.retired[..j] + st.retired[j + 1..];
      FirstOldSkip(st'.entries, st.retired, j, x);
    }
  }

  lemma PinsOther(st: State, k: Key, x: Key)
    requires IndexOk(st) && RetiredOk(st) && Pick(st, k).Some? && x != k
    ensures Pins(Unpin(st, k), x) == Pins(st, x)
  {
    UnpinTakesPick(st, k, Pick(st, k).value);
    hide Unpin;
  }

  /** The list of replaced entries stays, or loses just the one picked. */
  lemma UnpinRetired(st: State, k: Key)
    requires Pick(st, k).Some?
    ensures var r := Unpin(st, k).retired;
            r != st.retired ==>
              Pick(st, k).value !in Unpin(st, k).entries &&
              exists j: nat :: j < |st.retired| && st.retired[j] == Pick(st, k).value && r == st.retired[..j] + st.retired[j + 1..]
  {
    var j := OldVersion(st, k, 0);
    assert Pins(st, k) == 0 ==> st.retired[j] == Pick(st, k).value;
  }

  /** A version with pins to spare is picked again. */
  lemma PickAgain(st: State, k: Key)
    requires IndexOk(st) && RetiredOk(st) && Pick(st, k).Some? && st.entries[Pick(st, k).value].pins > 1
    ensures Pick(Unpin(st, k), k) == Pick(st, k)
  {
    var u, st' := Pick(st, k).value, Unpin(st, k);
    UnpinTakesPick(st, k, u);
    PickIs(st, k);
    PickIs(st', k);
    if Pins(st, k) == 0 { FirstOldFrame(st.entries, st'.entries, st.retired, k); }
  }

  /** Unpinning would take each pin from the very version that was granted. */
  ghost predicate Targets(st: State, keys: seq<Key>, ids: seq<Id>)
    requires |ids| == |keys|
  {
    forall i :: 0 <= i < |keys| ==> Pick(st, keys[i]) == Some(ids[i])
  }

  lemma ShapeFacts(st: State, debt: multiset<Key>)
    requires Balanced(st, debt)
    ensures IndexOk(st) && RetiredOk(st)
  {
  }

  lemma MultisetHead(vs: seq<Id>)
    requires vs != []
    ensures multiset(vs) == multiset{vs[0]} + multiset(vs[1..])
    ensures forall i :: 1 <= i < |vs| ==> vs[i] in multiset(vs[1..])
  {
    assert vs == [vs[0]] + vs[1..];
    forall i | 1 <= i < |vs| ensures vs[i] in multiset(vs[1..]) { assert vs[1..][i - 1] == vs[i]; }
  }

  /** A version that is granted again, or owed again, has pins to spare and stays. */
  lemma UnpinHeadStays(st: State, g: Grants, k: Key, vs: seq<Id>, id: Id)
    requires IndexOk(st) && RetiredOk(st) && vs != [] && Pick(st, k) == Some(vs[0])
    requires PinsCount(st, g, multiset(vs)) && id in st.entries
    requires GrantsOf(g, st.nextLease, id) > 0 || id in multiset(vs[1..])
    ensures id in Unpin(st, k).entries && Unpin(st, k).entries[id].key == st.entries[id].key
  {
    UnpinTakesPick(st, k, vs[0]);
    MultisetHead(vs);
  }

  lemma UnpinHeadHeld(st: State, g: Grants, k: Key, vs: seq<Id>)
    requires IndexOk(st) && RetiredOk(st) && vs != [] && Pick(st, k) == Some(vs[0])
    requires AllHeld(st, g) && PinsCount(st, g, multiset(vs)) && LeasesOk(st)
    ensures AllHeld(Unpin(st, k), g)
  {
    hide PinsCount;
    var st1 := Unpin(st, k);
    UnpinTakesPick(st, k, vs[0]);
    forall l | l in g ensures Holds(st1, st1.leases[l].keys, g[l]) {
      assert Holds(st, st.leases[l].keys, g[l]);
      forall i | 0 <= i < |g[l]| ensures g[l][i] in st1.entries && st1.entries[g[l][i]].key == st1.leases[l].keys[i] {
        HeldIsCounted(g, st.nextLease, l, g[l][i]);
        UnpinHeadStays(st, g, k, vs, g[l][i]);
      }
    }
  }

  lemma UnpinHeadCount(st: State, g: Grants, k: Key, vs: seq<Id>)
    requires IndexOk(st) && RetiredOk(st) && vs != [] && Pick(st, k) == Some(vs[0])
    requires PinsCount(st, g, multiset(vs))
    ensures PinsCount(Unpin(st, k), g, multiset(vs[1..]))
  {
    UnpinTakesPick(st, k, vs[0]);
    MultisetHead(vs);
  }

  lemma UnpinHeadHolds(st: State, g: Grants, ks: seq<Key>, vs: seq<Id>)
    requires IndexOk(st) && RetiredOk(st) && ks != [] && Holds(st, ks, vs) && Pick(st, ks[0]) == Some(vs[0])
    requires PinsCount(st, g, multiset(vs))
    ensures Holds(Unpin(st, ks[0]), ks[1..], vs[1..])
  {
    hide PinsCount, IndexOk, RetiredOk;
    MultisetHead(vs);
    forall i | 1 <= i < |vs| ensures vs[i] in Unpin(st, ks[0]).entries && Unpin(st, ks[0]).entries[vs[i]].key == ks[i] {
      UnpinHeadStays(st, g, ks[0], vs, vs[i]);
    }
  }

  /** One unpin of a granted version keeps the books for the versions still owed. */
  lemma UnpinHeadExact(st: State, g: Grants, ks: seq<Key>, vs: seq<Id>)
    requires IndexOk(st) && RetiredOk(st) && ks != [] && Holds(st, ks, vs) && Targets(st, ks, vs)
    requires AllHeld(st, g) && PinsCount(st, g, multiset(vs)) && LeasesOk(st)
    ensures var st1 := Unpin(st, ks[0]);
            && AllHeld(st1, g) && PinsCount(st1, g, multiset(vs[1..])) && LeasesOk(st1)
            && Holds(st1, ks[1..], vs[1..])
  {
    hide AllHeld, PinsCount, IndexOk, RetiredOk;
    UnpinHeadHeld(st, g, ks[0], vs);
    UnpinHeadCount(st, g, ks[0], vs);
    UnpinHeadHolds(st, g, ks, vs);
    UnpinTakesPick(st, ks[0], vs[0]);
  }

  lemma TargetsTail(st: State, g: Grants, ks: seq<Key>, vs: seq<Id>)
    requires IndexOk(st) && RetiredOk(st) && ks != [] && Holds(st, ks, vs) && Targets(st, ks, vs)
    requires PinsCount(st, g, multiset(vs))
    ensures Targets(Unpin(st, ks[0]), ks[1..], vs[1..])
  {
    MultisetHead(vs);
    forall i | 1 <= i < |ks| ensures Pick(Unpin(st, ks[0]), ks[i]) == Some(vs[i]) {
      if ks[i] == ks[0] {
        assert vs[i] == vs[0];
        UnpinTakesPick(st, ks[0], vs[0]);
        PickAgain(st, ks[0]);
      } else {
        PickOther(st, ks[0], ks[i]);
      }
    }
  }

  lemma {:induction false} UnpinAllExact(st: State, g: Grants, ks: seq<Key>, vs: seq<Id>)
    requires Balanced(st, multiset(ks)) && Holds(st, ks, vs) && Targets(st, ks, vs)
    requires AllHeld(st, g) && PinsCount(st, g, multiset(vs)) && LeasesOk(st)
    ensures Exact(UnpinAll(st, ks), g)
    decreases |ks|
  {
    hide Balanced, AllHeld, PinsCount, Targets;
    if ks == [] {
      assert multiset(vs) == multiset{};
    } else {
      ShapeFacts(st, multiset(ks));
      UnpinHeadExact(st, g, ks, vs);
      TargetsTail(st, g, ks, vs);
      assert ks == [ks[0]] + ks[1..];
      assert multiset(ks) == multiset(ks[1..]) + multiset{ks[0]};
      UnpinKeeps(st, ks[0], multiset(ks[1..]));
      UnpinAllExact(Unpin(st, ks[0]), g, ks[1..], vs[1..]);
    }
  }

  lemma PickIgnoresLeases(st: State, leases: map<nat, Lease>, k: Key)
    ensures Pick(st.(leases := leases), k) == Pick(st, k)
  {
    PickIs(st, k);
    PickIs(st.(leases := leases), k);
  }

  /** The state and books after taking the lease off the table, before any unpin. */
  lemma Revoked(st: State, g: Grants, l: nat)
    requires Inv(st) && Exact(st, g) && l in st.leases
    ensures var st0 := st.(leases := st.leases - {l});
            && Balanced(st0, multiset(st.leases[l].keys)) && Holds(st0, st.leases[l].keys, g[l])
            && AllHeld(st0, g - {l}) && PinsCount(st0, g - {l}, multiset(g[l])) && LeasesOk(st0)
  {
    RevokeKeeps(st, l);
    LeasesAreNumbered(st);
    var st0 := st.(leases := st.leases - {l});
    assert Holds(st, st.leases[l].keys, g[l]);
    forall x | x in g - {l} ensures Holds(st0, st0.leases[x].keys, g[x]) {
      assert Holds(st, st.leases[x].keys, g[x]);
    }
    forall id | id in st.entries ensures st.entries[id].pins == GrantsOf(g - {l}, st.nextLease, id) + multiset(g[l])[id] {
      GrantsRemove(g, st.nextLease, l, id);
    }
  }

  lemma ReleaseExact(st: State, g: Grants, l: nat)
    requires Inv(st) && Exact(st, g) && l in st.leases && l in g && |g[l]| == |st.leases[l].keys|
    requires Targets(st, st.leases[l].keys, g[l])
    ensures Exact(Release(st, l).1, g - {l})
  {
    hide Balanced, AllHeld, PinsCount;
    Revoked(st, g, l);
    var st0 := st.(leases := st.leases - {l});
    forall i | 0 <= i < |g[l]| ensures Pick(st0, st.leases[l].keys[i]) == Some(g[l][i]) {
      PickIgnoresLeases(st, st0.leases, st.leases[l].keys[i]);
    }
    UnpinAllExact(st0, g - {l}, st.leases[l].keys, g[l]);
  }

  // ------------------------------------------------ the other direction

  lemma {:induction false} UnpinAllMonotone(st: State, ks: seq<Key>, id: Id)
    requires Balanced(st, multiset(ks))
    ensures var m := UnpinAll(st, ks).entries;
            id in m ==> id in st.entries && m[id].pins <= st.entries[id].pins && m[id].phase == st.entries[id].phase
    decreases |ks|
  {
    hide Balanced;
    if ks != [] {
      assert ks == [ks[0]] + ks[1..];
      assert multiset(ks) == multiset(ks[1..]) + multiset{ks[0]};
      UnpinKeeps(st, ks[0], multiset(ks[1..]));
      ShapeFacts(st, multiset(ks));
      UnpinTakesPick(st, ks[0], Pick(st, ks[0]).value);
      UnpinAllMonotone(Unpin(st, ks[0]), ks[1..], id);
    }
  }

  /** The version a listed key picks loses at least one pin. */
  lemma {:induction false} UnpinAllTakes(st: State, ks: seq<Key>, k: Key, u: Id)
    requires Balanced(st, multiset(ks)) && k in ks && Pick(st, k) == Some(u)
    ensures u in st.entries
    ensures u in UnpinAll(st, ks).entries ==> UnpinAll(st, ks).entries[u].pins < st.entries[u].pins
    decreases |ks|
  {
    hide Balanced;
    assert ks == [ks[0]] + ks[1..];
    assert multiset(ks) == multiset(ks[1..]) + multiset{ks[0]};
    UnpinKeeps(st, ks[0], multiset(ks[1..]));
    ShapeFacts(st, multiset(ks));
    UnpinTakesPick(st, ks[0], Pick(st, ks[0]).value);
    UnpinTakesPick(st, k, u);
    if ks[0] == k {
      UnpinAllMonotone(Unpin(st, k), ks[1..], u);
    } else {
      PickOther(st, ks[0], k);
      UnpinAllTakes(Unpin(st, ks[0]), ks[1..], k, u);
    }
  }

  lemma {:induction false} OwedIsPicked(st: State, ks: seq<Key>, k: Key)
    requires Balanced(st, multiset(ks)) && k in ks
    ensures Pick(st, k).Some?
  {
    hide Balanced;
    assert multiset(ks) == (multiset(ks) - multiset{k}) + multiset{k};
    UnpinKeeps(st, k, multiset(ks) - multiset{k});
  }

  lemma WrongPickBreaks(st: State, g: Grants, l: nat, i: nat)
    requires Inv(st) && Exact(st, g) && l in st.leases && i < |g[l]| == |st.leases[l].keys|
    requires Pick(st, st.leases[l].keys[i]) != Some(g[l][i])
    ensures !Exact(Release(st, l).1, g - {l})
  {
    hide Balanced;
    Revoked(st, g, l);
    var st0, keys := st.(leases := st.leases - {l}), st.leases[l].keys;
    var k := keys[i];
    PickIgnoresLeases(st, st0.leases, k);
    OwedIsPicked(st0, keys, k);
    var u := Pick(st0, k).value;
    ShapeFacts(st0, multiset(keys));
    UnpinTakesPick(st0, k, u);
    UnpinAllTakes(st0, keys, k, u);
    var st' := Release(st, l).1;
    assert multiset(g[l])[u] == 0 by {
      assert Holds(st0, keys, g[l]);
      assert u !in g[l];
    }
    assert GrantsOf(g - {l}, st.nextLease, u) == st.entries[u].pins;
    UnpinAllKeeps(st0, keys);
    if Exact(st', g - {l}) { GrantedIsLive(st', g - {l}, st'.nextLease, u); }
  }

  /**
   From exact books, giving up lease `l` leaves exact books if and only if, for every key it names,
   the version unpinning would pick is the version the lease was granted.
   */
  lemma ReleaseExactIff(st: State, g: Grants, l: nat)
    requires Inv(st) && Exact(st, g) && l in st.leases
    ensures |g[l]| == |st.leases[l].keys|
    ensures Exact(Release(st, l).1, g - {l}) <==> Targets(st, st.leases[l].keys, g[l])
  {
    hide Balanced, PinsCount;
    assert Holds(st, st.leases[l].keys, g[l]);
    if Targets(st, st.leases[l].keys, g[l]) {
      ReleaseExact(st, g, l);
    } else {
      var i :| 0 <= i < |g[l]| && Pick(st, st.leases[l].keys[i]) != Some(g[l][i]);
      WrongPickBreaks(st, g, l, i);
    }
  }

  // ------------------------------------------- what giving a lease up frees

  /** Unpinning the listed keys leaves entries of other keys alone. */
  lemma {:induction false} UnpinAllOthers(st: State, ks: seq<Key>, id: Id)
    requires Balanced(st, multiset(ks)) && id in st.entries && st.entries[id].key !in ks
    ensures id in UnpinAll(st, ks).entries && UnpinAll(st, ks).entries[id] == st.entries[id]
    decreases |ks|
  {
    hide Balanced, Unpin;
    if ks != [] {
      var v := UnpinHead(st, ks);
      assert ks[0] in ks;
      UnpinAllOthers(Unpin(st, ks[0]), ks[1..], id);
    }
  }

  /** The first of the listed keys finds a version to unpin, and the others stay owed. */
  lemma UnpinHead(st: State, ks: seq<Key>) returns (v: Id)
    requires Balanced(st, multiset(ks)) && ks != []
    ensures Balanced(Unpin(st, ks[0]), multiset(ks[1..]))
    ensures Pick(st, ks[0]) == Some(v) && v in st.entries && st.entries[v].key == ks[0] && st.entries[v].pins > 0
    ensures var m := Unpin(st, ks[0]).entries;
            && (forall id :: id in st.entries && id != v ==> id in m && m[id] == st.entries[id])
            && (st.entries[v].pins > 1 ==> v in m)
            && (v in m ==> m[v] == st.entries[v].(pins := st.entries[v].pins - 1))
    ensures forall k :: k != ks[0] ==> Pick(Unpin(st, ks[0]), k) == Pick(st, k)
    ensures st.entries[v].pins > 1 ==> Pick(Unpin(st, ks[0]), ks[0]) == Some(v)
    ensures multiset(ks) == multiset(ks[1..]) + multiset{ks[0]}
  {
    hide Balanced, Unpin;
    assert ks == [ks[0]] + ks[1..];
    assert multiset(ks) == multiset(ks[1..]) + multiset{ks[0]};
    UnpinKeeps(st, ks[0], multiset(ks[1..]));
    ShapeFacts(st, multiset(ks));
    OwedIsPicked(st, ks, ks[0]);
    v := Pick(st, ks[0]).value;
    UnpinTakesPick(st, ks[0], v);
    forall k | k != ks[0] ensures Pick(Unpin(st, ks[0]), k) == Pick(st, k) { PickOther(st, ks[0], k); }
    if st.entries[v].pins > 1 { PickAgain(st, ks[0]); }
  }

  /** As long as the picked version has a pin for every unpin of its key, no other version loses one. */
  lemma {:induction false} UnpinAllSpares(st: State, ks: seq<Key>, k: Key, u: Id, id: Id)
    requires Balanced(st, multiset(ks)) && Pick(st, k) == Some(u) && u in st.entries && st.entries[u].key == k
    requires multiset(ks)[k] <= st.entries[u].pins && id in st.entries && st.entries[id].key == k
    ensures var m := UnpinAll(st, ks).entries;
            && (id != u ==> id in m && m[id] == st.entries[id])
            && (id == u && multiset(ks)[k] < st.entries[u].pins ==>
                  id in m && m[id] == st.entries[id].(pins := st.entries[id].pins - multiset(ks)[k]))
    decreases |ks|
  {
    hide Balanced, Unpin, Pick;
    if ks == [] {
    } else if k !in ks {
      UnpinAllOthers(st, ks, id);
    } else {
      var v := UnpinHead(st, ks);
      var st1 := Unpin(st, ks[0]);
      if ks[0] != k {
        UnpinAllSpares(st1, ks[1..], k, u, id);
      } else if k in ks[1..] {
        assert multiset(ks[1..])[k] > 0;
        UnpinAllSpares(st1, ks[1..], k, u, id);
      } else if id != u || st.entries[u].pins > 1 {
        UnpinAllOthers(st1, ks[1..], id);
      }
    }
  }

  /** A version with no more pins than its key is unpinned has none left. */
  lemma {:induction false} UnpinAllDrains(st: State, ks: seq<Key>, k: Key, u: Id)
    requires Balanced(st, multiset(ks)) && Pick(st, k) == Some(u) && u in st.entries && st.entries[u].key == k
    requires 0 < st.entries[u].pins <= multiset(ks)[k]
    ensures u in UnpinAll(st, ks).entries ==> UnpinAll(st, ks).entries[u].pins == 0
    decreases |ks|
  {
    hide Balanced, Unpin, Pick;
    assert k in ks;
    var v := UnpinHead(st, ks);
    if ks[0] != k || st.entries[u].pins > 1 {
      UnpinAllDrains(Unpin(st, ks[0]), ks[1..], k, u);
    } else {
      UnpinAllMonotone(Unpin(st, ks[0]), ks[1..], u);
    }
  }

  /** A lease counts its version of a key as often as it names the key. */
  lemma {:induction false} CountSame(ks: seq<Key>, ids: seq<Id>, k: Key, u: Id)
    requires |ids| == |ks| && forall i :: 0 <= i < |ks| ==> (ks[i] == k <==> ids[i] == u)
    ensures multiset(ids)[u] == multiset(ks)[k]
    decreases |ks|
  {
    if ks != [] {
      CountSame(ks[1..], ids[1..], k, u);
      assert ks == [ks[0]] + ks[1..] && ids == [ids[0]] + ids[1..];
    }
  }

  lemma HeldCount(st: State, ks: seq<Key>, ids: seq<Id>, i: nat)
    requires Holds(st, ks, ids) && i < |ks|
    ensures multiset(ids)[ids[i]] == multiset(ks)[ks[i]]
    ensures forall u :: u in st.entries && st.entries[u].key == ks[i] && u != ids[i] ==> multiset(ids)[u] == 0
  {
    CountSame(ks, ids, ks[i], ids[i]);
  }

  lemma {:induction false} GrantedBy(g: Grants, n: nat, u: Id) returns (x: nat)
    requires GrantsOf(g, n, u) > 0
    ensures x in g && x < n && u in g[x]
  {
    if n - 1 in g && u in g[n - 1] { x := n - 1; } else { x := GrantedBy(g, n - 1, u); }
  }

  /** Entries granted under the leases in `g` are there. */
  ghost predicate AllThere(st: State, g: Grants) {
    forall x, j :: x in g && 0 <= j < |g[x]| ==> g[x][j] in st.entries
  }

  /**
   For every key the lease names, the version that is unpinned is the one it was granted, or has more
   pins than the lease names the key.
   */
  ghost predicate Spares(st: State, keys: seq<Key>, ids: seq<Id>)
    requires |ids| == |keys|
  {
    forall i :: 0 <= i < |keys| ==> SparesAt(st, keys, ids, i)
  }

  ghost predicate SparesAt(st: State, keys: seq<Key>, ids: seq<Id>, i: nat)
    requires i < |ids| == |keys|
  {
    Pick(st, keys[i]).Some? ==>
      var u := Pick(st, keys[i]).value;
      u == ids[i] || (u in st.entries && st.entries[u].pins > multiset(keys)[keys[i]])
  }

  /** An entry granted under another lease keeps a pin. */
  lemma StaysPinned(st: State, g: Grants, keys: seq<Key>, ids: seq<Id>, id: Id)
    requires Balanced(st, multiset(keys)) && Holds(st, keys, ids) && PinsCount(st, g, multiset(ids))
    requires Spares(st, keys, ids) && id in st.entries && GrantsOf(g, st.nextLease, id) > 0
    ensures id in UnpinAll(st, keys).entries && UnpinAll(st, keys).entries[id].pins > 0
  {
    hide Balanced, Pick;
    var k := st.entries[id].key;
    if k !in keys {
      UnpinAllOthers(st, keys, id);
    } else {
      var i :| 0 <= i < |keys| && keys[i] == k;
      assert SparesAt(st, keys, ids, i);
      OwedIsPicked(st, keys, k);
      var u := Pick(st, k).value;
      ShapeFacts(st, multiset(keys));
      UnpinTakesPick(st, k, u);
      HeldCount(st, keys, ids, i);
      hide Holds, Spares, GrantsOf;
      UnpinAllSpares(st, keys, k, u, id);
    }
  }

  lemma FlushKeepsPinned(st: State, id: Id)
    requires Inv(st)
    ensures id in Flush(st).entries <==> id in st.entries && (st.entries[id].pins > 0 || st.entries[id].phase != Ready)
  {
    hide Inv, Flush;
    FlushEntries(st);
  }

  lemma UnpinnedIsReady(st: State, id: Id)
    requires Inv(st) && id in st.entries && st.entries[id].pins == 0 && !st.entries[id].phase.Writing?
    ensures st.entries[id].phase == Ready
  {
  }

  /**
   A lease given up that unpins another version than its own, with no more pins than that, takes the entry
   from the leases it was granted to: they are live, and a flush frees it.
   */
  lemma PinStolen(st: State, g: Grants, l: nat, i: nat, u: Id) returns (x: nat)
    requires Inv(st) && Exact(st, g) && l in st.leases && i < |g[l]| == |st.leases[l].keys|
    requires Pick(st, st.leases[l].keys[i]) == Some(u) && u != g[l][i]
    requires u in st.entries && st.entries[u].pins <= multiset(st.leases[l].keys)[st.leases[l].keys[i]]
    ensures u !in Flush(Release(st, l).1).entries
    ensures x != l && x in Release(st, l).1.leases && x in g && u in g[x]
  {
    hide Balanced, Pick;
    Revoked(st, g, l);
    var st0, keys := st.(leases := st.leases - {l}), st.leases[l].keys;
    var k := keys[i];
    PickIgnoresLeases(st, st0.leases, k);
    ShapeFacts(st0, multiset(keys));
    UnpinTakesPick(st0, k, u);
    HeldCount(st0, keys, g[l], i);
    ReleaseKeeps(st, l);
    UnpinAllDrains(st0, keys, k, u);
    UnpinAllMonotone(st0, keys, u);
    var r := Release(st, l).1;
    if u in r.entries { UnpinnedIsReady(r, u); }
    FlushKeepsPinned(r, u);
    x := GrantedBy(g - {l}, st.nextLease, u);
  }

  lemma NothingStolen(st: State, g: Grants, l: nat)
    requires Inv(st) && Exact(st, g) && l in st.leases && |g[l]| == |st.leases[l].keys|
    requires Spares(st, st.leases[l].keys, g[l])
    ensures AllThere(Flush(Release(st, l).1), g - {l})
  {
    hide Balanced, Pick, PinsCount, Flush;
    Revoked(st, g, l);
    ReleaseKeeps(st, l);
    LeasesAreNumbered(st);
    var st0, keys, r := st.(leases := st.leases - {l}), st.leases[l].keys, Release(st, l).1;
    SparesFrame(st, st0.leases, keys, g[l]);
    hide Spares, Release;
    forall x, j | x in g - {l} && 0 <= j < |(g - {l})[x]| ensures g[x][j] in Flush(r).entries {
      var id := g[x][j];
      assert Holds(st0, st0.leases[x].keys, (g - {l})[x]);
      HeldIsCounted(g - {l}, st.nextLease, x, id);
      StaysPinned(st0, g - {l}, keys, g[l], id);
      ReleasedIs(st, l);
      FlushKeepsPinned(r, id);
    }
  }

  lemma ReleasedIs(st: State, l: nat)
    requires l in st.leases
    ensures Release(st, l).1 == UnpinAll(st.(leases := st.leases - {l}), st.leases[l].keys)
  {
  }

  lemma SparesFrame(st: State, leases: map<nat, Lease>, keys: seq<Key>, ids: seq<Id>)
    requires |ids| == |keys|
    ensures Spares(st.(leases := leases), keys, ids) == Spares(st, keys, ids)
  {
    var st0 := st.(leases := leases);
    forall i | 0 <= i < |keys| ensures SparesAt(st0, keys, ids, i) == SparesAt(st, keys, ids, i) {
      PickIgnoresLeases(st, leases, keys[i]);
    }
  }

  /**
   The promise itself: after lease `l` is given up, a flush leaves every entry granted under the other
   leases, if and only if each version unpinned is the one `l` was granted or has pins to spare.
   */
  lemma ReleaseProtectsIff(st: State, g: Grants, l: nat)
    requires Inv(st) && Exact(st, g) && l in st.leases
    ensures |g[l]| == |st.leases[l].keys|
    ensures AllThere(Flush(Release(st, l).1), g - {l}) <==> Spares(st, st.leases[l].keys, g[l])
  {
    hide Balanced, PinsCount, Flush, Pick, Release;
    assert Holds(st, st.leases[l].keys, g[l]);
    if Spares(st, st.leases[l].keys, g[l]) {
      NothingStolen(st, g, l);
    } else {
      var keys := st.leases[l].keys;
      var i :| 0 <= i < |keys| && !SparesAt(st, keys, g[l], i);
      var u := Pick(st, keys[i]).value;
      PickedIsThere(st, keys[i], u);
      var x := PinStolen(st, g, l, i, u);
      var j :| 0 <= j < |g[x]| && g[x][j] == u;
      assert x in g - {l} && (g - {l})[x] == g[x] && (g - {l})[x][j] !in Flush(Release(st, l).1).entries;
    }
  }

  lemma PickedIsThere(st: State, k: Key, u: Id)
    requires Inv(st) && Pick(st, k) == Some(u)
    ensures u in st.entries
  {
    hide Balanced;
    ShapeFacts(st, multiset{});
    UnpinTakesPick(st, k, u);
  }

  // -------------------------------------------------- a pin taken from another

  const KEY := Key("a", 0)
  const FIRST := [OpAlloc([KEY], 1, "s", true), OpCommit([KEY], "s"), OpLookup(["a"], 1, true, 0.0, "x")]
  const AGAIN := [OpAlloc([KEY], 1, "s", false), OpCommit([KEY], "s"), OpLookup(["a"], 1, true, 0.0, "y")]

  const WRITTEN := Entry(KEY, 0, 1, Writing("s"), 0)
  const LEASED := State(E.Pool(1, 4, [E.Extent(1, 3)], 1), 4, map[0 := WRITTEN.(phase := Ready, pins := 1)], 1,
                        map[KEY := 0], [KEY], map[], [], map[1 := Lease([KEY], 0.0, "x")], 2)
  const REWRITTEN := State(E.Pool(1, 4, [E.Extent(2, 2)], 2), 4,
                           map[0 := WRITTEN.(phase := Retired, pins := 1), 1 := Entry(KEY, 1, 1, Ready, 1)], 2,
                           map[KEY := 1], [KEY], map[], [0],
                           map[1 := Lease([KEY], 0.0, "x"), 2 := Lease([KEY], 0.0, "y")], 3)

  lemma OneKeyLookup(st: State, owner: Session)
    requires KEY in st.index && st.index[KEY] in st.entries && st.lru == [KEY]
    ensures var id := st.index[KEY];
            Lookup(st, ["a"], 1, true, 0.0, owner) ==
            (Found(1, Some(st.nextLease), [id]),
             Granted(st.(entries := st.entries[id := st.entries[id].(pins := st.entries[id].pins + 1)]), Lease([KEY], 0.0, owner)))
  {
    assert Hit(st, "a", 1);
    assert ["a"][1..] == [];
    assert Hits(st, ["a"], 1) == 1;
    assert ["a"][..1] == ["a"];
    assert Rows(["a"], 1) == [KEY] by { assert Rows(["a"], 0) == []; }
    assert [KEY][1..] == [];
    assert TouchAll(st, [KEY]) == st.(lru := Without(st.lru, KEY) + [KEY]) == st;
    assert PinAll(st, [KEY]) == Pin(st, KEY);
    assert IdsOf(st.index, [KEY]) == [st.index[KEY]];
  }

  lemma OneByteIsOnePage()
    ensures E.PagesFor(1, 1) == 1
  {
  }

  lemma OnePagePool(p: E.Pool, a: int, n: int)
    requires p.page == 1 && p.free == [E.Extent(a, n)] && n > 1
    ensures E.Alloc(p, 1) == (Some(a), p.(free := [E.Extent(a + 1, n - 1)], used := p.used + 1))
  {
    OneByteIsOnePage();
    hide E.PagesFor;
    assert E.FirstFit(p.free, 1, 0) == 0;
    assert E.Carve(p.free, 0, 1) == [E.Extent(a + 1, n - 1)];
  }

  lemma OnePageFits(st: State, a: int, n: int)
    requires st.pool.page == 1 && st.pool.free == [E.Extent(a, n)] && n > 1 && st.pool.used + 1 <= st.capacity
    ensures Allocate(st, 1) == (Some(a), st.(pool := st.pool.(free := [E.Extent(a + 1, n - 1)], used := st.pool.used + 1)))
  {
    OnePagePool(st.pool, a, n);
    OnePageCapacity(st);
    hide FitsCapacity;
    hide E.Alloc;
    hide EvictOne;
  }

  lemma OnePageCapacity(st: State)
    requires st.pool.page == 1 && st.pool.used + 1 <= st.capacity
    ensures FitsCapacity(st, 1)
  {
    OneByteIsOnePage();
    hide E.PagesFor;
    assert st.pool.used * 1 + E.PagesFor(1, 1) * 1 <= st.capacity;
  }

  lemma OnePageAlloc(st: State, a: int, n: int, skip: bool)
    requires st.pool.page == 1 && st.pool.free == [E.Extent(a, n)] && n > 1 && st.pool.used + 1 <= st.capacity
    requires st.writing == map[] && (skip ==> KEY !in st.index)
    ensures Step(st, OpAlloc([KEY], 1, "s", skip)) ==
            Registered(st, st.pool.(free := [E.Extent(a + 1, n - 1)], used := st.pool.used + 1), Entry(KEY, a, 1, Writing("s"), 0), "s")
  {
    OnePageFits(st, a, n);
    hide Allocate;
    var one := AllocateOne(st, KEY, 1, "s", skip).1;
    assert [KEY][1..] == [];
    assert AllocateForWrite(one, [], 1, "s", skip).1 == one;
  }

  lemma OneCommit(st: State, id: Id)
    requires st.writing == map[(KEY, "s") := id] && id in st.entries
    requires KEY in st.index ==> st.index[KEY] != id && Cached(st, KEY) && Pins(st, KEY) > 0 && st.lru == [KEY]
    requires KEY !in st.index ==> st.lru == []
    ensures var mid := if KEY in st.index then Retire(st, KEY) else st;
            Step(st, OpCommit([KEY], "s")) ==
            mid.(writing := map[], index := mid.index[KEY := id], lru := [KEY], entries := mid.entries[id := st.entries[id].(phase := Ready)])
  {
    assert [KEY][1..] == [];
    var st0 := st.(writing := st.writing - {(KEY, "s")});
    assert st0.writing == map[];
    assert Without([KEY], KEY) == [];
    assert Displace(st0, KEY) == if KEY in st.index then Retire(st0, KEY) else st0;
    var one := CommitOne(st, KEY, "s");
    assert Commit(one, [], "s") == one;
  }

  lemma RunFirst(st: State, ops: seq<Op>)
    ensures Run(st, ops) == if ops == [] then st else Run(Step(st, ops[0]), ops[1..])
  {
    hide Step;
  }

  lemma ThreeSteps(st: State, ops: seq<Op>)
    requires |ops| == 3
    ensures Run(st, ops) == Step(Step(Step(st, ops[0]), ops[1]), ops[2])
  {
    hide Step, Run;
    var a := Step(st, ops[0]);
    var b := Step(a, ops[1]);
    RunFirst(st, ops);
    RunFirst(a, ops[1..]);
    RunFirst(b, ops[1..][1..]);
    RunFirst(Step(b, ops[2]), ops[1..][1..][1..]);
  }

  // The states on the way to the two leases.
  const FILLING := State(E.Pool(1, 4, [E.Extent(1, 3)], 1), 4, map[0 := WRITTEN], 1,
                         map[], [], map[(KEY, "s") := 0], [], map[], 1)
  const CACHED := FILLING.(entries := map[0 := WRITTEN.(phase := Ready)], index := map[KEY := 0], lru := [KEY], writing := map[])
  const REFILLING := LEASED.(pool := E.Pool(1, 4, [E.Extent(2, 2)], 2), nextId := 2, writing := map[(KEY, "s") := 1],
                             entries := map[0 := WRITTEN.(phase := Ready, pins := 1), 1 := Entry(KEY, 1, 1, Writing("s"), 0)])
  const ASKED := REFILLING.(entries := map[0 := WRITTEN.(phase := Retired, pins := 1), 1 := Entry(KEY, 1, 1, Ready, 0)],
                            index := map[KEY := 1], retired := [0], writing := map[])

  lemma FillsFirst()
    ensures Step(Init(4, 1, None), FIRST[0]) == FILLING
  {
    OnePageAlloc(Init(4, 1, None), 0, 4, true);
    hide Step;
  }

  lemma CachesFirst()
    ensures Step(FILLING, FIRST[1]) == CACHED
  {
    OneCommit(FILLING, 0);
    hide Step;
    assert FILLING.entries[0 := WRITTEN.(phase := Ready)] == CACHED.entries;
    assert FILLING.index[KEY := 0] == CACHED.index;
  }

  lemma LeasesFirst()
    ensures Step(CACHED, FIRST[2]) == LEASED
  {
    OneKeyLookup(CACHED, "x");
    hide Lookup;
    var e := CACHED.entries[0];
    assert CACHED.entries[0 := e.(pins := e.pins + 1)] == LEASED.entries;
    assert CACHED.leases[1 := Lease([KEY], 0.0, "x")] == LEASED.leases;
  }

  lemma FirstVersion()
    ensures Run(Init(4, 1, None), FIRST) == LEASED
  {
    hide Run, Step, Init;
    FillsFirst();
    CachesFirst();
    LeasesFirst();
    ThreeSteps(Init(4, 1, None), FIRST);
  }

  lemma FillsSecond()
    ensures Step(LEASED, AGAIN[0]) == REFILLING
  {
    OnePageAlloc(LEASED, 1, 3, false);
    hide Step;
    assert LEASED.entries[1 := Entry(KEY, 1, 1, Writing("s"), 0)] == REFILLING.entries;
    assert LEASED.writing[(KEY, "s") := 1] == REFILLING.writing;
  }

  lemma CachesSecond()
    ensures Step(REFILLING, AGAIN[1]) == ASKED
  {
    OneCommit(REFILLING, 1);
    hide Step;
    var mid := Retire(REFILLING, KEY);
    assert mid.entries[1 := Entry(KEY, 1, 1, Ready, 0)] == ASKED.entries;
    assert mid.index[KEY := 1] == ASKED.index;
    assert mid.retired == ASKED.retired;
  }

  /** The second lease is granted entry 1. */
  lemma LeasesSecond()
    ensures Lookup(ASKED, ["a"], 1, true, 0.0, "y") == (Found(1, Some(2), [1]), REWRITTEN)
    ensures Step(ASKED, AGAIN[2]) == REWRITTEN
  {
    OneKeyLookup(ASKED, "y");
    hide Lookup;
    var e := ASKED.entries[1];
    assert ASKED.entries[1 := e.(pins := e.pins + 1)] == REWRITTEN.entries;
    assert ASKED.leases[2 := Lease([KEY], 0.0, "y")] == REWRITTEN.leases;
  }

  lemma SecondVersion()
    ensures Run(LEASED, AGAIN) == REWRITTEN && Step(Step(LEASED, AGAIN[0]), AGAIN[1]) == ASKED
    ensures Lookup(ASKED, ["a"], 1, true, 0.0, "y") == (Found(1, Some(2), [1]), REWRITTEN)
  {
    hide Run, Step, Lookup;
    FillsSecond();
    CachesSecond();
    LeasesSecond();
    ThreeSteps(LEASED, AGAIN);
  }

  /** Requests that name a positive size, and no session to drop, are always followed. */
  lemma {:induction false} PlainIsLegal(st: State, ops: seq<Op>)
    requires forall op :: op in ops ==> !op.OpDropSession? && (op.OpAlloc? ==> op.size > 0)
    ensures Legal(st, ops)
    decreases |ops|
  {
    if ops != [] {
      assert ops[0] in ops;
      PlainIsLegal(Step(st, ops[0]), ops[1..]);
    }
  }

  const GRANTED: Grants := map[1 := [0], 2 := [1]]

  lemma RewrittenInv()
    ensures Inv(REWRITTEN)
  {
    hide Run, Inv, Legal, Init;
    InitInv(4, 1, None);
    FirstVersion();
    SecondVersion();
    PlainIsLegal(Init(4, 1, None), FIRST);
    PlainIsLegal(LEASED, AGAIN);
    RunKeeps(Init(4, 1, None), FIRST);
    RunKeeps(LEASED, AGAIN);
  }

  lemma RewrittenExact()
    ensures Exact(REWRITTEN, GRANTED)
  {
    var g := GRANTED;
    assert multiset([0])[0] == 1 && multiset([0])[1] == 0 && multiset([1])[0] == 0 && multiset([1])[1] == 1;
    forall id | id in REWRITTEN.entries ensures REWRITTEN.entries[id].pins == GrantsOf(g, 3, id) {
      assert GrantsOf(g, 3, id) == GrantsOf(g, 2, id) + multiset(g[2])[id];
      assert GrantsOf(g, 2, id) == GrantsOf(g, 1, id) + multiset(g[1])[id];
      assert GrantsOf(g, 1, id) == GrantsOf(g, 0, id) == 0;
    }
  }

  /** The first lease unpins the second one's version, and leaves its own. */
  lemma RewrittenPick()
    ensures Pick(REWRITTEN, KEY) == Some(1)
    ensures REWRITTEN.entries[1].pins == 1 && multiset(REWRITTEN.leases[1].keys)[KEY] == 1
  {
    assert multiset([KEY])[KEY] == 1;
  }

  lemma OwnVersionStays()
    ensures 0 in Flush(Release(REWRITTEN, 1).1).entries
  {
    hide Inv, Exact, Pick, Balanced, Flush;
    RewrittenInv();
    RewrittenExact();
    RewrittenPick();
    Revoked(REWRITTEN, GRANTED, 1);
    var st0 := REWRITTEN.(leases := REWRITTEN.leases - {1});
    PickIgnoresLeases(REWRITTEN, st0.leases, KEY);
    UnpinAllSpares(st0, [KEY], KEY, 1, 0);
    ReleaseKeeps(REWRITTEN, 1);
    ReleasedIs(REWRITTEN, 1);
    FlushKeepsPinned(Release(REWRITTEN, 1).1, 0);
  }

  lemma TwoSteps(st: State, a: Op, b: Op)
    ensures Run(st, [a, b]) == Step(Step(st, a), b)
  {
    hide Step, Run;
    var ops := [a, b];
    RunFirst(st, ops);
    RunFirst(Step(st, a), ops[1..]);
    RunFirst(Step(Step(st, a), b), ops[1..][1..]);
  }

  /**
   A reachable run that breaks the promise: key `a` is leased, rewritten and leased again, the second lease
   being granted entry 1. Giving up the first lease takes the second one's pin, and a flush then frees entry 1.
   */
  lemma StolenPin()
    ensures Step(Step(LEASED, AGAIN[0]), AGAIN[1]) == ASKED && Lookup(ASKED, ["a"], 1, true, 0.0, "y").0 == Found(1, Some(2), [1])
    ensures Run(Run(Init(4, 1, None), FIRST), AGAIN) == REWRITTEN && 2 in REWRITTEN.leases && REWRITTEN.index[KEY] == 1
    ensures var st := Run(REWRITTEN, [OpRelease(1), OpFlush]);
            2 in st.leases && 1 !in st.entries && 0 in st.entries && 1 !in st.leases
  {
    hide Run, Lookup, Inv, Exact, Pick, Release, Flush;
    FirstVersion();
    SecondVersion();
    TwoSteps(REWRITTEN, OpRelease(1), OpFlush);
    RewrittenInv();
    RewrittenExact();
    RewrittenPick();
    var x := PinStolen(REWRITTEN, GRANTED, 1, 0, 1);
    OwnVersionStays();
    ReleaseKeeps(REWRITTEN, 1);
    FlushExact(Release(REWRITTEN, 1).1);
  }
}
