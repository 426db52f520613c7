/**
 What every operation of the store keeps: each entry sits in exactly one container, the LRU order
 lists exactly the READY keys, the entries' pages and the free pages partition the pool, and for
 every key the pins on its versions add up to the live leases that name it.
 */
module StoreInv {
  import opened Wrappers
  import E = Extents
  import opened Store

  // -------------------------------------------------------------- the parts

  ghost predicate IndexOk(st: State) {
    && (forall k :: k in st.index ==>
          && st.index[k] in st.entries && st.entries[st.index[k]].key == k && st.entries[st.index[k]].phase == Ready)
    && (forall id :: id in st.entries && st.entries[id].phase == Ready ==>
          st.entries[id].key in st.index && st.index[st.entries[id].key] == id)
  }

  ghost predicate WritingOk(st: State) {
    && (forall w :: w in st.writing ==>
          && st.writing[w] in st.entries && st.entries[st.writing[w]].key == w.0
          && st.entries[st.writing[w]].phase == Writing(w.1) && st.entries[st.writing[w]].pins == 0)
    && (forall id :: id in st.entries && st.entries[id].phase.Writing? ==>
          && (st.entries[id].key, st.entries[id].phase.owner) in st.writing
          && st.writing[(st.entries[id].key, st.entries[id].phase.owner)] == id)
  }

  ghost predicate RetiredOk(st: State) {
    && (forall id :: id in st.retired ==>
          id in st.entries && st.entries[id].phase == Retired && st.entries[id].pins > 0)
    && Distinct(st.retired)
    && (forall id :: id in st.entries && st.entries[id].phase == Retired ==> id in st.retired)
  }

  ghost predicate LruOk(st: State) {
    Distinct(st.lru) && forall k :: k in st.lru <==> k in st.index
  }

  ghost function RunOf(page: E.pos, e: Entry): set<int> {
    E.Run(e.offset / page, E.PagesFor(page, e.size))
  }

  /** An entry's pages are pages of the pool, and none of them is free. */
  ghost predicate Lies(p: E.Pool, e: Entry) {
    && 0 <= e.offset / p.page && e.offset / p.page + E.PagesFor(p.page, e.size) <= p.total
    && RunOf(p.page, e) !! E.FreePages(p)
  }

  ghost predicate InPool(p: E.Pool, e: Entry) { e.size > 0 && Lies(p, e) }

  /** Every entry has pages, and the entries' pages and the free pages partition the pool. */
  ghost predicate PagesOk(p: E.Pool, entries: map<Id, Entry>) {
    && E.Wf(p)
    && (forall id :: id in entries ==> InPool(p, entries[id]))
    && (forall a, b :: a in entries && b in entries && a != b ==> RunOf(p.page, entries[a]) !! RunOf(p.page, entries[b]))
    && (forall q :: 0 <= q < p.total && q !in E.FreePages(p) ==> Owned(p.page, entries, q))
  }

  /** Some entry holds page `q`. */
  ghost predicate Owned(page: E.pos, entries: map<Id, Entry>, q: int) {
    exists id :: id in entries && q in RunOf(page, entries[id])
  }

  ghost function RetiredPins(entries: map<Id, Entry>, retired: seq<Id>, k: Key): nat {
    if retired == [] then 0
    else
      (if retired[0] in entries && entries[retired[0]].key == k then entries[retired[0]].pins else 0)
      + RetiredPins(entries, retired[1..], k)
  }

  /** Pins on every version of `k`, current and replaced. */
  ghost function PinSum(st: State, k: Key): nat { Pins(st, k) + RetiredPins(st.entries, st.retired, k) }

  /** How often the live leases numbered below `n` name `k`. */
  ghost function LeaseCount(leases: map<nat, Lease>, n: nat, k: Key): nat {
    if n == 0 then 0
    else LeaseCount(leases, n - 1, k) + (if n - 1 in leases then multiset(leases[n - 1].keys)[k] else 0)
  }

  ghost predicate LeasesOk(st: State) { forall l :: l in st.leases ==> l < st.nextLease }

  /** Pins and leases balance, up to keys already pinned or not yet unpinned in mid-operation. */
  ghost predicate PinsOk(st: State, debt: multiset<Key>) {
    forall k :: PinSum(st, k) == LeaseCount(st.leases, st.nextLease, k) + debt[k]
  }

  ghost predicate FreshIds(st: State) { forall id :: id in st.entries ==> id < st.nextId }

  ghost predicate Shape(st: State) {
    IndexOk(st) && WritingOk(st) && RetiredOk(st) && LruOk(st) && FreshIds(st) && LeasesOk(st)
  }

  ghost predicate Balanced(st: State, debt: multiset<Key>) {
    Shape(st) && PagesOk(st.pool, st.entries) && PinsOk(st, debt)
  }

  ghost predicate Inv(st: State) { Balanced(st, multiset{}) }

  lemma {:induction false} NoLeases(n: nat, k: Key)
    ensures LeaseCount(map[], n, k) == 0
  {
    if n > 0 { NoLeases(n - 1, k); }
  }

  lemma InitInv(poolBytes: int, page: E.pos, capacity: Option<int>)
    requires poolBytes >= 0
    ensures Inv(Init(poolBytes, page, capacity))
  {
    E.FreshWf(poolBytes, page);
    var st := Init(poolBytes, page, capacity);
    assert forall q :: 0 <= q < st.pool.total ==> q in E.Run(0, st.pool.total);
    forall k ensures PinSum(st, k) == LeaseCount(st.leases, st.nextLease, k) { NoLeases(st.nextLease, k); }
  }

  // ----------------------------------------------------------- list helpers

  lemma {:induction false} WithoutKeeps(s: seq<Key>, k: Key)
    requires Distinct(s)
    ensures Distinct(Without(s, k)) && forall x :: x in Without(s, k) <==> x in s && x != k
  {
    if s != [] {
      if s[0] == k {
        assert forall x :: x in s <==> x == s[0] || x in s[1..];
        assert forall x :: x in s[1..] ==> exists i :: 1 <= i < |s| && s[i] == x;
      } else {
        WithoutKeeps(s[1..], k);
        var r := Without(s[1..], k);
        assert forall x :: x in s <==> x == s[0] || x in s[1..];
        assert s[0] !in s[1..];
        assert forall x :: x in [s[0]] + r <==> x == s[0] || x in r;
      }
    }
  }

  lemma TouchKeeps(s: seq<Key>, k: Key)
    requires Distinct(s)
    ensures Distinct(Without(s, k) + [k]) && forall x :: x in Without(s, k) + [k] <==> x in s || x == k
  {
    WithoutKeeps(s, k);
  }

  lemma {:induction false} RetiredPinsFrame(a: map<Id, Entry>, b: map<Id, Entry>, r: seq<Id>, k: Key)
    requires forall id :: id in r ==> (id in a <==> id in b) && (id in a ==> a[id].key == b[id].key && a[id].pins == b[id].pins)
    ensures RetiredPins(a, r, k) == RetiredPins(b, r, k)
  {
    if r != [] {
      assert r[0] in r;
      RetiredPinsFrame(a, b, r[1..], k);
    }
  }

  lemma {:induction false} RetiredPinsConcat(m: map<Id, Entry>, a: seq<Id>, b: seq<Id>, k: Key)
    ensures RetiredPins(m, a + b, k) == RetiredPins(m, a, k) + RetiredPins(m, b, k)
  {
    if a == [] {
      assert a + b == b;
    } else {
      assert (a + b)[1..] == a[1..] + b;
      RetiredPinsConcat(m, a[1..], b, k);
    }
  }

  ghost function PinsAt(m: map<Id, Entry>, id: Id, k: Key): nat {
    if id in m && m[id].key == k then m[id].pins else 0
  }

  lemma RetiredPinsSplit(m: map<Id, Entry>, r: seq<Id>, j: nat, k: Key)
    requires j < |r|
    ensures RetiredPins(m, r, k) == RetiredPins(m, r[..j], k) + PinsAt(m, r[j], k) + RetiredPins(m, r[j + 1..], k)
    ensures RetiredPins(m, r[..j] + r[j + 1..], k) == RetiredPins(m, r[..j], k) + RetiredPins(m, r[j + 1..], k)
  {
    assert r == r[..j] + ([r[j]] + r[j + 1..]);
    RetiredPinsConcat(m, r[..j], [r[j]] + r[j + 1..], k);
    assert ([r[j]] + r[j + 1..])[1..] == r[j + 1..];
    RetiredPinsConcat(m, r[..j], r[j + 1..], k);
  }

  lemma {:induction false} LeaseCountFrame(a: map<nat, Lease>, b: map<nat, Lease>, n: nat, k: Key)
    requires forall l :: 0 <= l < n ==> (l in a <==> l in b) && (l in a ==> a[l] == b[l])
    ensures LeaseCount(a, n, k) == LeaseCount(b, n, k)
  {
    if n > 0 { LeaseCountFrame(a, b, n - 1, k); }
  }

  lemma {:induction false} LeaseCountRemove(leases: map<nat, Lease>, n: nat, l: nat, k: Key)
    requires l in leases && l < n
    ensures LeaseCount(leases, n, k) == LeaseCount(leases - {l}, n, k) + multiset(leases[l].keys)[k]
  {
    if n - 1 == l {
      LeaseCountFrame(leases, leases - {l}, n - 1, k);
    } else {
      LeaseCountRemove(leases, n - 1, l, k);
    }
  }

  // ------------------------------------------------------------- page moves

  /** Taking an entry out of the heap and giving its pages back keeps the partition. */
  lemma PagesAfterFree(p: E.Pool, entries: map<Id, Entry>, id: Id)
    requires PagesOk(p, entries) && id in entries
    ensures PagesOk(E.Free(p, entries[id].offset, entries[id].size), entries - {id})
  {
    var e := entries[id];
    E.FreeGivesBack(p, e.offset, e.size);
    var p', m := E.Free(p, e.offset, e.size), entries - {id};
    forall x | x in m ensures InPool(p', m[x]) { assert InPool(p, entries[x]); }
    forall q | 0 <= q < p'.total && q !in E.FreePages(p') ensures Owned(p'.page, m, q) {
      assert Owned(p.page, entries, q);
      var x :| x in entries && q in RunOf(p.page, entries[x]);
      assert x in m && q in RunOf(p'.page, m[x]);
    }
  }

  /** Carving a run for a fresh entry keeps the partition. */
  lemma PagesAfterAlloc(p: E.Pool, entries: map<Id, Entry>, id: Id, e: Entry)
    requires PagesOk(p, entries) && id !in entries && e.size > 0
    requires E.Alloc(p, e.size).0 == Some(e.offset)
    ensures PagesOk(E.Alloc(p, e.size).1, entries[id := e])
  {
    hide E.Alloc, E.FreePages, E.Wf, RunOf, E.PagesFor, Owned;
    var p', m := E.Alloc(p, e.size).1, entries[id := e];
    TakenRun(p, p', e);
    RunInRange(p, e);
    forall x | x in m ensures InPool(p', m[x]) { if x != id { assert InPool(p, entries[x]); } }
    forall a, b | a in m && b in m && a != b ensures RunOf(p'.page, m[a]) !! RunOf(p'.page, m[b]) {
      if a == id { assert InPool(p, entries[b]); }
      if b == id { assert InPool(p, entries[a]); }
    }
    forall q | 0 <= q < p'.total && q !in E.FreePages(p') ensures Owned(p'.page, m, q) {
      StillOwned(p, entries, id, e, q);
    }
  }

  lemma TakenRun(p: E.Pool, p': E.Pool, e: Entry)
    requires E.Wf(p) && e.size > 0 && E.Alloc(p, e.size) == (Some(e.offset), p')
    ensures p'.page == p.page && p'.total == p.total && E.Wf(p')
    ensures RunOf(p.page, e) <= E.FreePages(p) && E.FreePages(p') == E.FreePages(p) - RunOf(p.page, e)
  {
    E.AllocIsLowestFit(p, e.size);
    hide E.Alloc;
  }

  lemma StillOwned(p: E.Pool, entries: map<Id, Entry>, id: Id, e: Entry, q: int)
    requires q in RunOf(p.page, e) || Owned(p.page, entries, q)
    requires id !in entries
    ensures Owned(p.page, entries[id := e], q)
  {
    var m := entries[id := e];
    if q in RunOf(p.page, e) {
      assert q in RunOf(p.page, m[id]);
    } else {
      var x :| x in entries && q in RunOf(p.page, entries[x]);
      assert x in m && q in RunOf(p.page, m[x]);
    }
  }

  /** A pool without pages has no entries. */
  lemma NoPagesNoEntries(p: E.Pool, entries: map<Id, Entry>)
    requires PagesOk(p, entries) && p.total <= 0
    ensures entries == map[]
  {
    hide E.Wf, E.FreePages;
    forall x | x in entries ensures false {
      assert InPool(p, entries[x]);
      E.PagesForLeast(p.page, entries[x].size);
    }
  }

  lemma HasMember(s: seq<Key>)
    ensures s != [] ==> exists k :: k in s
  {
    if s != [] { assert s[0] in s; }
  }

  /** Nor does a store over it cache anything. */
  lemma HollowStore(st: State, debt: multiset<Key>)
    requires Balanced(st, debt) && st.pool.total <= 0
    ensures st.entries == map[] && st.index == map[] && st.lru == []
  {
    NoPagesNoEntries(st.pool, st.entries);
    hide PagesOk, PinsOk;
    HasMember(st.lru);
  }

  lemma RunInRange(p: E.Pool, e: Entry)
    requires E.Wf(p) && e.size > 0 && RunOf(p.page, e) <= E.FreePages(p)
    ensures 0 <= e.offset / p.page && e.offset / p.page + E.PagesFor(p.page, e.size) <= p.total
  {
    E.PagesForLeast(p.page, e.size);
    E.SeparatedBounds(-1, p.free, p.total);
    var s, n := e.offset / p.page, E.PagesFor(p.page, e.size);
    assert s in RunOf(p.page, e) && s + n - 1 in RunOf(p.page, e);
  }

  /** Changing pins or phase of an entry moves no page. */
  lemma PagesAfterUpdate(p: E.Pool, entries: map<Id, Entry>, id: Id, e: Entry)
    requires PagesOk(p, entries) && id in entries && e.offset == entries[id].offset && e.size == entries[id].size
    ensures PagesOk(p, entries[id := e])
  {
    var m := entries[id := e];
    forall x | x in m ensures InPool(p, m[x]) { assert InPool(p, entries[x]); }
    forall q | 0 <= q < p.total && q !in E.FreePages(p) ensures Owned(p.page, m, q) {
      assert Owned(p.page, entries, q);
      var x :| x in entries && q in RunOf(p.page, entries[x]);
      assert x in m && q in RunOf(p.page, m[x]);
    }
  }

  // -------------------------------------------------------- single mutations

  lemma DropIndex(st: State, k: Key)
    requires IndexOk(st) && k in st.index
    ensures IndexOk(Drop(st, k))
  {
    hide E.Free;
  }

  lemma DropWriting(st: State, k: Key)
    requires IndexOk(st) && WritingOk(st) && k in st.index
    ensures WritingOk(Drop(st, k))
  {
    hide E.Free;
  }

  lemma DropRetired(st: State, k: Key)
    requires IndexOk(st) && RetiredOk(st) && k in st.index
    ensures RetiredOk(Drop(st, k))
  {
    hide E.Free;
  }

  lemma DropShape(st: State, k: Key)
    requires Shape(st) && k in st.index
    ensures Cached(st, k) && Shape(Drop(st, k))
  {
    WithoutKeeps(st.lru, k);
    DropIndex(st, k);
    DropWriting(st, k);
    DropRetired(st, k);
    hide E.Free, WritingOk, RetiredOk;
  }

  lemma DropPins(st: State, k: Key, x: Key)
    requires IndexOk(st) && RetiredOk(st) && k in st.index && Pins(st, k) == 0
    ensures PinSum(Drop(st, k), x) == PinSum(st, x)
  {
    hide E.Free;
    RetiredPinsFrame(st.entries, Drop(st, k).entries, st.retired, x);
  }

  lemma DropKeeps(st: State, k: Key, debt: multiset<Key>)
    requires Balanced(st, debt) && k in st.index && Pins(st, k) == 0
    ensures Balanced(Drop(st, k), debt)
  {
    DropShape(st, k);
    PagesAfterFree(st.pool, st.entries, st.index[k]);
    forall x { DropPins(st, k, x); }
  }

  lemma TouchOneKeeps(st: State, k: Key, debt: multiset<Key>)
    requires Balanced(st, debt) && k in st.index
    ensures Balanced(st.(lru := Without(st.lru, k) + [k]), debt)
  {
    TouchKeeps(st.lru, k);
    var st' := st.(lru := Without(st.lru, k) + [k]);
    assert forall x :: PinSum(st', x) == PinSum(st, x);
  }

  lemma PinShape(st: State, k: Key)
    requires Shape(st) && k in st.index
    ensures Shape(Pin(st, k))
  {
  }

  lemma PinPins(st: State, k: Key, x: Key)
    requires IndexOk(st) && RetiredOk(st) && k in st.index
    ensures PinSum(Pin(st, k), x) == PinSum(st, x) + multiset{k}[x]
  {
    RetiredPinsFrame(st.entries, Pin(st, k).entries, st.retired, x);
  }

  lemma PinKeeps(st: State, k: Key, debt: multiset<Key>)
    requires Balanced(st, debt) && k in st.index
    ensures Balanced(Pin(st, k), debt + multiset{k})
  {
    PinShape(st, k);
    PagesAfterUpdate(st.pool, st.entries, st.index[k], Pin(st, k).entries[st.index[k]]);
    forall x { PinPins(st, k, x); }
  }

  function Granted(st: State, lease: Lease): State {
    st.(leases := st.leases[st.nextLease := lease], nextLease := st.nextLease + 1)
  }

  lemma GrantCount(st: State, lease: Lease, x: Key)
    requires LeasesOk(st)
    ensures LeaseCount(Granted(st, lease).leases, Granted(st, lease).nextLease, x) ==
            LeaseCount(st.leases, st.nextLease, x) + multiset(lease.keys)[x]
    ensures PinSum(Granted(st, lease), x) == PinSum(st, x)
  {
    LeaseCountFrame(st.leases, Granted(st, lease).leases, st.nextLease, x);
  }

  lemma GrantKeeps(st: State, lease: Lease)
    requires Balanced(st, multiset(lease.keys))
    ensures Inv(Granted(st, lease))
  {
    forall x { GrantCount(st, lease, x); }
    assert Shape(Granted(st, lease)) by { GrantShape(st, lease); }
  }

  lemma GrantShape(st: State, lease: Lease)
    requires Shape(st)
    ensures Shape(Granted(st, lease))
  {
  }

  lemma RevokeKeeps(st: State, l: nat)
    requires Inv(st) && l in st.leases
    ensures Balanced(st.(leases := st.leases - {l}), multiset(st.leases[l].keys))
  {
    var st' := st.(leases := st.leases - {l});
    forall x ensures PinSum(st', x) == LeaseCount(st'.leases, st'.nextLease, x) + multiset(st.leases[l].keys)[x] {
      LeaseCountRemove(st.leases, st.nextLease, l, x);
    }
  }

  // ------------------------------------------------------------------ unpin

  lemma {:induction false} OldVersionFound(st: State, k: Key, i: nat)
    requires i <= |st.retired| && RetiredPins(st.entries, st.retired[i..], k) > 0
    ensures OldVersion(st, k, i) < |st.retired|
    decreases |st.retired| - i
  {
    assert i < |st.retired|;
    assert st.retired[i..][1..] == st.retired[i + 1..];
    if PinsAt(st.entries, st.retired[i], k) == 0 { OldVersionFound(st, k, i + 1); }
  }

  function WithPins(st: State, id: Id, pins: nat): State
    requires id in st.entries
  {
    st.(entries := st.entries[id := st.entries[id].(pins := pins)])
  }

  lemma UnpinCurrentPins(st: State, k: Key, x: Key)
    requires IndexOk(st) && RetiredOk(st) && Pins(st, k) > 0
    ensures PinSum(Unpin(st, k), x) + multiset{k}[x] == PinSum(st, x)
  {
    RetiredPinsFrame(st.entries, Unpin(st, k).entries, st.retired, x);
  }

  lemma UnpinCurrentShape(st: State, k: Key)
    requires Shape(st) && Pins(st, k) > 0
    ensures Shape(Unpin(st, k))
  {
    var st' := Unpin(st, k);
    assert IndexOk(st');
    assert WritingOk(st');
    assert RetiredOk(st');
  }

  lemma UnpinCurrentKeeps(st: State, k: Key, debt: multiset<Key>)
    requires Balanced(st, debt + multiset{k}) && Pins(st, k) > 0
    ensures Balanced(Unpin(st, k), debt)
  {
    UnpinCurrentShape(st, k);
    PagesAfterUpdate(st.pool, st.entries, st.index[k], Unpin(st, k).entries[st.index[k]]);
    forall x { UnpinCurrentPins(st, k, x); }
  }

  /** A replaced entry loses its last pin: off the list, pages back. */
  function Buried(st: State, j: nat): State
    requires j < |st.retired| && st.retired[j] in st.entries
  {
    FreeEntry(st.(retired := st.retired[..j] + st.retired[j + 1..]), st.retired[j])
  }

  lemma UnpinOldIs(st: State, k: Key, j: nat)
    requires Pins(st, k) == 0 && j == OldVersion(st, k, 0) && j < |st.retired|
    ensures var id := st.retired[j];
            Unpin(st, k) == if st.entries[id].pins == 1 then Buried(st, j) else WithPins(st, id, st.entries[id].pins - 1)
  {
    hide E.Free;
    var id := st.retired[j];
    assert st.entries[id := st.entries[id].(pins := st.entries[id].pins - 1)] - {id} == st.entries - {id};
  }

  lemma RemoveAt(r: seq<Id>, j: nat)
    requires Distinct(r) && j < |r|
    ensures Distinct(r[..j] + r[j + 1..])
    ensures forall id :: id in r[..j] + r[j + 1..] <==> id in r && id != r[j]
  {
    var s := r[..j] + r[j + 1..];
    assert forall n :: 0 <= n < |s| ==> s[n] == r[if n < j then n else n + 1];
    forall id | id in r && id != r[j] ensures id in s {
      var n :| 0 <= n < |r| && r[n] == id;
      assert s[if n < j then n else n - 1] == id;
    }
  }

  lemma BuriedRetired(st: State, j: nat)
    requires RetiredOk(st) && j < |st.retired|
    ensures RetiredOk(Buried(st, j))
  {
    hide E.Free;
    RemoveAt(st.retired, j);
  }

  lemma BuriedShape(st: State, j: nat)
    requires Shape(st) && j < |st.retired|
    ensures Shape(Buried(st, j))
  {
    hide E.Free;
    BuriedRetired(st, j);
    assert IndexOk(Buried(st, j)) && WritingOk(Buried(st, j));
  }

  lemma BuriedPins(st: State, j: nat, x: Key)
    requires IndexOk(st) && RetiredOk(st) && j < |st.retired|
    ensures PinSum(Buried(st, j), x) + PinsAt(st.entries, st.retired[j], x) == PinSum(st, x)
  {
    hide E.Free;
    var m := Buried(st, j).entries;
    RetiredPinsSplit(st.entries, st.retired, j, x);
    RetiredPinsSplit(m, st.retired, j, x);
    RetiredPinsFrame(st.entries, m, st.retired[..j], x);
    RetiredPinsFrame(st.entries, m, st.retired[j + 1..], x);
  }

  lemma BuriedKeeps(st: State, k: Key, j: nat, debt: multiset<Key>)
    requires Balanced(st, debt + multiset{k}) && j < |st.retired|
    requires st.entries[st.retired[j]].key == k && st.entries[st.retired[j]].pins == 1
    ensures Balanced(Buried(st, j), debt)
  {
    BuriedShape(st, j);
    PagesAfterFree(st.pool, st.entries, st.retired[j]);
    forall x { BuriedPins(st, j, x); }
  }

  lemma LoosenShape(st: State, j: nat, pins: nat)
    requires Shape(st) && j < |st.retired| && pins > 0
    ensures Shape(WithPins(st, st.retired[j], pins))
  {
  }

  lemma LoosenPins(st: State, j: nat, x: Key)
    requires IndexOk(st) && RetiredOk(st) && j < |st.retired|
    ensures var id := st.retired[j];
            PinSum(WithPins(st, id, st.entries[id].pins - 1), x) + multiset{st.entries[id].key}[x] == PinSum(st, x)
  {
    var id := st.retired[j];
    var m := WithPins(st, id, st.entries[id].pins - 1).entries;
    RetiredPinsSplit(st.entries, st.retired, j, x);
    RetiredPinsSplit(m, st.retired, j, x);
    RetiredPinsFrame(st.entries, m, st.retired[..j], x);
    RetiredPinsFrame(st.entries, m, st.retired[j + 1..], x);
  }

  lemma LoosenKeeps(st: State, k: Key, j: nat, debt: multiset<Key>)
    requires Balanced(st, debt + multiset{k}) && j < |st.retired|
    requires st.entries[st.retired[j]].key == k && st.entries[st.retired[j]].pins > 1
    ensures Balanced(WithPins(st, st.retired[j], st.entries[st.retired[j]].pins - 1), debt)
  {
    var id := st.retired[j];
    LoosenShape(st, j, st.entries[id].pins - 1);
    PagesAfterUpdate(st.pool, st.entries, id, st.entries[id].(pins := st.entries[id].pins - 1));
    forall x { LoosenPins(st, j, x); }
  }

  /** An unpin that is owed always finds a pinned version, so it never falls through. */
  lemma UnpinKeeps(st: State, k: Key, debt: multiset<Key>)
    requires Balanced(st, debt + multiset{k})
    ensures Pins(st, k) > 0 || OldVersion(st, k, 0) < |st.retired|
    ensures Balanced(Unpin(st, k), debt)
  {
    if Pins(st, k) > 0 {
      UnpinCurrentKeeps(st, k, debt);
    } else {
      assert PinSum(st, k) == LeaseCount(st.leases, st.nextLease, k) + (debt + multiset{k})[k];
      assert st.retired[0..] == st.retired;
      OldVersionFound(st, k, 0);
      var j := OldVersion(st, k, 0);
      UnpinOldIs(st, k, j);
      if st.entries[st.retired[j]].pins == 1 { BuriedKeeps(st, k, j, debt); } else { LoosenKeeps(st, k, j, debt); }
    }
  }

  // ------------------------------------------------------------------ write

  function Registered(st: State, pool: E.Pool, e: Entry, s: Session): State {
    st.(pool := pool, entries := st.entries[st.nextId := e], writing := st.writing[(e.key, s) := st.nextId],
        nextId := st.nextId + 1)
  }

  lemma RegisterShape(st: State, pool: E.Pool, e: Entry, s: Session)
    requires Shape(st) && (e.key, s) !in st.writing && e.phase == Writing(s) && e.pins == 0
    ensures Shape(Registered(st, pool, e, s))
  {
    RegisterWriting(st, pool, e, s);
    var st' := Registered(st, pool, e, s);
    assert IndexOk(st') && LruOk(st');
    assert RetiredOk(st');
  }

  lemma RegisterWriting(st: State, pool: E.Pool, e: Entry, s: Session)
    requires WritingOk(st) && FreshIds(st) && (e.key, s) !in st.writing && e.phase == Writing(s) && e.pins == 0
    ensures WritingOk(Registered(st, pool, e, s))
  {
  }

  lemma RegisterPins(st: State, pool: E.Pool, e: Entry, s: Session, x: Key)
    requires IndexOk(st) && RetiredOk(st) && FreshIds(st)
    ensures PinSum(Registered(st, pool, e, s), x) == PinSum(st, x)
  {
    RetiredPinsFrame(st.entries, Registered(st, pool, e, s).entries, st.retired, x);
  }

  lemma RegisterKeeps(st: State, k: Key, size: int, s: Session, debt: multiset<Key>)
    requires Balanced(st, debt) && (k, s) !in st.writing && size > 0 && E.Alloc(st.pool, size).0.Some?
    ensures var (off, pool) := E.Alloc(st.pool, size);
            Balanced(Registered(st, pool, Entry(k, off.value, size, Writing(s), 0), s), debt)
  {
    var (off, pool) := E.Alloc(st.pool, size);
    var e := Entry(k, off.value, size, Writing(s), 0);
    RegisterShape(st, pool, e, s);
    PagesAfterAlloc(st.pool, st.entries, st.nextId, e);
    forall x { RegisterPins(st, pool, e, s, x); }
  }

  function Retire(st: State, k: Key): State
    requires Cached(st, k)
  {
    var id := st.index[k];
    st.(lru := Without(st.lru, k), index := st.index - {k}, retired := st.retired + [id],
        entries := st.entries[id := st.entries[id].(phase := Retired)])
  }

  lemma RetireShape(st: State, k: Key)
    requires Shape(st) && k in st.index && Pins(st, k) > 0
    ensures Shape(Retire(st, k))
  {
    WithoutKeeps(st.lru, k);
    RetireRetired(st, k);
    RetireIndex(st, k);
    hide IndexOk, WritingOk, RetiredOk;
  }

  lemma RetireIndex(st: State, k: Key)
    requires IndexOk(st) && WritingOk(st) && k in st.index && Pins(st, k) > 0
    ensures IndexOk(Retire(st, k)) && WritingOk(Retire(st, k))
  {
    var st' := Retire(st, k);
    assert IndexOk(st');
    assert WritingOk(st');
  }

  lemma RetireRetired(st: State, k: Key)
    requires IndexOk(st) && RetiredOk(st) && k in st.index && Pins(st, k) > 0
    ensures RetiredOk(Retire(st, k))
  {
    var st' := Retire(st, k);
    assert forall n :: 0 <= n < |st.retired| ==> st'.retired[n] == st.retired[n];
    assert st'.retired[|st.retired|] == st.index[k];
  }

  lemma RetirePins(st: State, k: Key, x: Key)
    requires IndexOk(st) && RetiredOk(st) && k in st.index
    ensures PinSum(Retire(st, k), x) == PinSum(st, x)
  {
    var st', id := Retire(st, k), st.index[k];
    RetiredPinsConcat(st'.entries, st.retired, [id], x);
    RetiredPinsFrame(st.entries, st'.entries, st.retired, x);
    assert [id][1..] == [];
  }

  lemma RetireKeeps(st: State, k: Key, debt: multiset<Key>)
    requires Balanced(st, debt) && k in st.index && Pins(st, k) > 0
    ensures Balanced(Retire(st, k), debt)
  {
    RetireShape(st, k);
    PagesAfterUpdate(st.pool, st.entries, st.index[k], Retire(st, k).entries[st.index[k]]);
    forall x { RetirePins(st, k, x); }
  }

  /** Turning a finished write into the READY version of its key, once the key is out of the index. */
  function Publish(st: State, k: Key, s: Session): State
    requires (k, s) in st.writing && st.writing[(k, s)] in st.entries
  {
    var id := st.writing[(k, s)];
    st.(writing := st.writing - {(k, s)}, index := st.index[k := id], lru := st.lru + [k],
        entries := st.entries[id := st.entries[id].(phase := Ready)])
  }

  lemma PublishShape(st: State, k: Key, s: Session)
    requires Shape(st) && (k, s) in st.writing && k !in st.index
    ensures Shape(Publish(st, k, s))
  {
    var st' := Publish(st, k, s);
    PublishIndex(st, k, s);
    assert k !in st.lru;
    assert Distinct(st.lru + [k]);
    assert RetiredOk(st');
  }

  lemma PublishIndex(st: State, k: Key, s: Session)
    requires IndexOk(st) && WritingOk(st) && (k, s) in st.writing && k !in st.index
    ensures IndexOk(Publish(st, k, s)) && WritingOk(Publish(st, k, s))
  {
  }

  lemma PublishPins(st: State, k: Key, s: Session, x: Key)
    requires IndexOk(st) && WritingOk(st) && RetiredOk(st) && (k, s) in st.writing && k !in st.index
    ensures PinSum(Publish(st, k, s), x) == PinSum(st, x)
  {
    RetiredPinsFrame(st.entries, Publish(st, k, s).entries, st.retired, x);
  }

  lemma PublishKeeps(st: State, k: Key, s: Session, debt: multiset<Key>)
    requires Balanced(st, debt) && (k, s) in st.writing && k !in st.index
    ensures Balanced(Publish(st, k, s), debt)
  {
    var id := st.writing[(k, s)];
    PublishShape(st, k, s);
    PagesAfterUpdate(st.pool, st.entries, id, Publish(st, k, s).entries[id]);
    forall x { PublishPins(st, k, s, x); }
  }

  lemma AbortWriting(st: State, k: Key, s: Session)
    requires WritingOk(st) && (k, s) in st.writing
    ensures WritingOk(AbortOne(st, k, s))
  {
    hide E.Free;
  }

  lemma AbortOthers(st: State, k: Key, s: Session)
    requires IndexOk(st) && WritingOk(st) && RetiredOk(st) && (k, s) in st.writing
    ensures IndexOk(AbortOne(st, k, s)) && RetiredOk(AbortOne(st, k, s))
  {
    hide E.Free;
  }

  lemma AbortShape(st: State, k: Key, s: Session)
    requires Shape(st) && (k, s) in st.writing
    ensures Shape(AbortOne(st, k, s))
  {
    AbortWriting(st, k, s);
    AbortOthers(st, k, s);
    hide E.Free, IndexOk, WritingOk, RetiredOk;
  }

  lemma AbortPins(st: State, k: Key, s: Session, x: Key)
    requires IndexOk(st) && WritingOk(st) && RetiredOk(st) && (k, s) in st.writing
    ensures PinSum(AbortOne(st, k, s), x) == PinSum(st, x)
  {
    hide E.Free;
    RetiredPinsFrame(st.entries, AbortOne(st, k, s).entries, st.retired, x);
  }

  lemma AbortOneKeeps(st: State, k: Key, s: Session, debt: multiset<Key>)
    requires Balanced(st, debt)
    ensures Balanced(AbortOne(st, k, s), debt)
  {
    if (k, s) in st.writing {
      AbortShape(st, k, s);
      PagesAfterFree(st.pool, st.entries, st.writing[(k, s)]);
      forall x { AbortPins(st, k, s, x); }
    }
  }
}
