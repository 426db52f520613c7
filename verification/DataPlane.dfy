/**
 The store together with the pool's memory. Clients write the pages of entries they are filling with
 one-sided transfers, and read the entries a lease gave them.

 As long as every lease that is given up, released or expired, is unpinned from the versions it was
 granted, every live lease holds from grant to release the entries it was given, at the same place and
 with the bytes they had when they were committed, whoever rewrites their keys meanwhile. When every
 write request skips keys that already exist (the server's and the connector's default), no version is
 ever replaced and that condition always holds.
 */
module DataPlane {
  import opened Wrappers
  import E = Extents
  import opened Store
  import opened StoreInv
  import opened StoreRuns
  import opened StoreSteps
  import opened Leases

  // ------------------------------------------------- runs that skip existing

  ghost predicate NoRewrite(st: State) {
    && st.retired == []
    && (forall w :: w in st.writing ==> w.0 !in st.index)
    && (forall w, v :: w in st.writing && v in st.writing && w.0 == v.0 ==> w == v)
  }

  predicate SkipsExisting(op: Op) { op.OpAlloc? ==> op.skip }

  lemma TrimKeepsNoRewrite(a: State, b: State)
    requires NoRewrite(a) && Trimmed(a, b)
    ensures NoRewrite(b)
  {
  }

  lemma AllocateOneNoRewrite(st: State, k: Key, size: int, s: Session)
    requires Inv(st) && NoRewrite(st)
    ensures NoRewrite(AllocateOne(st, k, size, s, true).1)
  {
    hide Balanced, FitsCapacity, E.Alloc, E.FreePages;
    if k !in st.index && !(exists w :: w in st.writing && w.0 == k) && (k, s) !in st.writing {
      var mid := AllocateKeeps(st, size, multiset{});
      hide Inv;
      TrimKeepsNoRewrite(st, mid);
    }
  }

  lemma {:induction false} AllocateNoRewrite(st: State, ks: seq<Key>, size: int, s: Session)
    requires Inv(st) && NoRewrite(st) && (size > 0 || NoneGranted(AllocateForWrite(st, ks, size, s, true).0))
    ensures NoRewrite(AllocateForWrite(st, ks, size, s, true).1)
    decreases |ks|
  {
    hide Balanced, NoRewrite;
    if ks != [] {
      var (a, st1) := AllocateOne(st, ks[0], size, s, true);
      NoneGrantedCons(a, AllocateForWrite(st1, ks[1..], size, s, true).0);
      AllocateOneKeeps(st, ks[0], size, s, true);
      AllocateOneNoRewrite(st, ks[0], size, s);
      AllocateNoRewrite(st1, ks[1..], size, s);
    }
  }

  lemma CommitOneNoRewrite(st: State, k: Key, s: Session)
    requires Inv(st) && NoRewrite(st)
    ensures NoRewrite(CommitOne(st, k, s))
  {
    hide Balanced;
    if (k, s) in st.writing {
      CommitOneIs(st, k, s);
      WritingIsLive(st, k, s);
    }
  }

  lemma {:induction false} CommitNoRewrite(st: State, ks: seq<Key>, s: Session)
    requires Inv(st) && NoRewrite(st)
    ensures NoRewrite(Commit(st, ks, s))
    decreases |ks|
  {
    hide Balanced, NoRewrite;
    if ks != [] {
      CommitOneKeeps(st, ks[0], s);
      CommitOneNoRewrite(st, ks[0], s);
      CommitNoRewrite(CommitOne(st, ks[0], s), ks[1..], s);
    }
  }

  lemma {:induction false} AbortNoRewrite(st: State, ks: seq<Key>, s: Session)
    requires NoRewrite(st)
    ensures NoRewrite(Abort(st, ks, s))
    decreases |ks|
  {
    if ks != [] { AbortNoRewrite(AbortOne(st, ks[0], s), ks[1..], s); }
  }

  lemma {:induction false} UnpinAllNoRewrite(st: State, ks: seq<Key>)
    requires NoRewrite(st)
    ensures NoRewrite(UnpinAll(st, ks))
    decreases |ks|
  {
    if ks != [] { UnpinAllNoRewrite(Unpin(st, ks[0]), ks[1..]); }
  }

  lemma {:induction false} ExpireNoRewrite(st: State, now: real, l: nat)
    requires NoRewrite(st)
    ensures NoRewrite(ExpireFrom(st, now, l))
    decreases st.nextLease - l
  {
    if l < st.nextLease {
      ReleaseNoRewrite(st, l);
      var st1 := if Expired(st, now, l) then Release(st, l).1 else st;
      if st1.nextLease == st.nextLease { ExpireNoRewrite(st1, now, l + 1); }
    }
  }

  lemma StepNoRewrite(st: State, op: Op)
    requires Inv(st) && NoRewrite(st) && Enabled(st, op) && SkipsExisting(op)
    ensures NoRewrite(Step(st, op))
  {
    hide Balanced;
    match op
    case OpLookup(hashes, ranks, pin, expires, owner) =>
      var full, mid := LookupIs(st, hashes, ranks, pin, expires, owner);
      PinAllKeeps(mid, full, multiset{});
    case OpRelease(lid) => ReleaseNoRewrite(st, lid);
    case OpExpire(now) => ExpireNoRewrite(st, now, 0);
    case OpAlloc(keys, size, session, skip) => AllocateNoRewrite(st, keys, size, session);
    case OpCommit(keys, session) => CommitNoRewrite(st, keys, session);
    case OpAbort(keys, session) => AbortNoRewrite(st, keys, session);
    case OpDropSession(session, mine) => AbortNoRewrite(st, mine, session);
    case OpFlush => FlushExact(st); TrimKeepsNoRewrite(st, Flush(st));
    case OpSetCapacity(bytes) =>
      SetCapacityKeeps(st, bytes);
      TrimKeepsNoRewrite(st.(capacity := SetCapacity(st, bytes).capacity), SetCapacity(st, bytes));
  }

  // ------------------------------------------------------- leases in such runs

  /** Without replaced versions, unpinning always finds the granted entry. */
  lemma NoRewriteTargets(st: State, g: Grants, l: nat)
    requires Inv(st) && NoRewrite(st) && Exact(st, g) && l in st.leases
    ensures |g[l]| == |st.leases[l].keys| && Targets(st, st.leases[l].keys, g[l])
  {
    assert Holds(st, st.leases[l].keys, g[l]);
    forall i | 0 <= i < |g[l]| ensures Pick(st, st.leases[l].keys[i]) == Some(g[l][i]) {
      GrantedIsReady(st, g, l, i);
    }
  }

  lemma GrantedIsReady(st: State, g: Grants, l: nat, i: nat)
    requires Inv(st) && NoRewrite(st) && Exact(st, g) && l in st.leases && i < |g[l]|
    ensures |g[l]| == |st.leases[l].keys|
    ensures var k, id := st.leases[l].keys[i], g[l][i];
            k in st.index && st.index[k] == id && id in st.entries && st.entries[id].pins > 0
  {
    assert Holds(st, st.leases[l].keys, g[l]);
    LeasesAreNumbered(st);
    HeldIsCounted(g, st.nextLease, l, g[l][i]);
  }

  // -------------------------------------------------------- leases given up

  /** The grants still live after a step. */
  ghost function GrantsAfter(st: State, g: Grants, op: Op): Grants {
    match op
    case OpLookup(hashes, ranks, pin, expires, owner) =>
      GrantsAfterLookup(g, Lookup(st, hashes, ranks, pin, expires, owner).0)
    case _ => Remaining(g, Step(st, op))
  }

  ghost function Remaining(g: Grants, st: State): Grants { map l | l in g && l in st.leases :: g[l] }

  /** Giving up lease `l` takes each pin from the version that was granted. */
  ghost predicate Fair(st: State, g: Grants, l: nat) {
    l in st.leases && l in g && |g[l]| == |st.leases[l].keys| && Targets(st, st.leases[l].keys, g[l])
  }

  /** The same for every lease that is due, each in the state it is given up in. */
  ghost predicate ExpiryFair(st: State, g: Grants, now: real, l: nat)
    decreases st.nextLease - l
  {
    l < st.nextLease ==>
      var st' := if Expired(st, now, l) then Release(st, l).1 else st;
      && (Expired(st, now, l) ==> Fair(st, g, l))
      && (st'.nextLease == st.nextLease ==> ExpiryFair(st', if Expired(st, now, l) then g - {l} else g, now, l + 1))
  }

  ghost predicate FairStep(st: State, g: Grants, op: Op) {
    match op
    case OpRelease(l) => l in st.leases ==> Fair(st, g, l)
    case OpExpire(now) => ExpiryFair(st, g, now, 0)
    case _ => true
  }

  lemma ReleaseFairExact(st: State, g: Grants, l: nat)
    requires Inv(st) && Exact(st, g) && Fair(st, g, l)
    ensures Inv(Release(st, l).1) && Exact(Release(st, l).1, g - {l})
  {
    hide Balanced, PinsCount, AllHeld, Targets;
    ReleaseExact(st, g, l);
    ReleaseKeeps(st, l);
  }

  lemma {:induction false} ExpireFairExact(st: State, g: Grants, now: real, l: nat)
    requires Inv(st) && Exact(st, g) && ExpiryFair(st, g, now, l)
    ensures Exact(ExpireFrom(st, now, l), Remaining(g, ExpireFrom(st, now, l)))
    decreases st.nextLease - l
  {
    hide Inv, PinsCount, Fair, Release;
    ExpireKeeps(st, now, l);
    if l >= st.nextLease {
      assert Remaining(g, st) == g;
    } else if Expired(st, now, l) {
      ReleaseKeeps(st, l);
      ReleaseFairExact(st, g, l);
      ExpireFairExact(Release(st, l).1, g - {l}, now, l + 1);
      assert Remaining(g - {l}, ExpireFrom(st, now, l)) == Remaining(g, ExpireFrom(st, now, l));
    } else {
      ExpireFairExact(st, g, now, l + 1);
    }
  }

  /** Every request keeps the per-version books, if leases are given up fairly. */
  lemma StepFairExact(st: State, g: Grants, op: Op)
    requires Inv(st) && Exact(st, g) && Enabled(st, op) && FairStep(st, g, op)
    ensures Exact(Step(st, op), GrantsAfter(st, g, op))
  {
    hide Balanced, PinsCount, Fair, ExpiryFair;
    if op.OpLookup? {
      LookupKeepsExact(st, g, op.hashes, op.ranks, op.pin, op.expires, op.owner);
    } else if op.OpRelease? {
      if op.lid in st.leases {
        ReleaseFairExact(st, g, op.lid);
        ReleaseKeeps(st, op.lid);
        assert Remaining(g, Step(st, op)) == g - {op.lid};
      } else {
        assert Remaining(g, Step(st, op)) == g;
      }
    } else if op.OpExpire? {
      ExpireFairExact(st, g, op.now, 0);
    } else {
      StepKeeps(st, op);
      QuietKeepsExact(st, Step(st, op), g);
      assert Remaining(g, Step(st, op)) == g;
    }
  }

  lemma {:induction false} NoRewriteExpiry(st: State, g: Grants, now: real, l: nat)
    requires Inv(st) && NoRewrite(st) && Exact(st, g)
    ensures ExpiryFair(st, g, now, l)
    decreases st.nextLease - l
  {
    hide Balanced, PinsCount, AllHeld, NoRewrite, Targets;
    if l < st.nextLease {
      if Expired(st, now, l) {
        NoRewriteFair(st, g, l);
        ReleaseFairExact(st, g, l);
        ReleaseKeeps(st, l);
        ReleaseNoRewrite(st, l);
        NoRewriteExpiry(Release(st, l).1, g - {l}, now, l + 1);
      } else {
        NoRewriteExpiry(st, g, now, l + 1);
      }
    }
  }

  lemma ReleaseNoRewrite(st: State, l: nat)
    requires NoRewrite(st)
    ensures NoRewrite(Release(st, l).1)
  {
    if l in st.leases { UnpinAllNoRewrite(st.(leases := st.leases - {l}), st.leases[l].keys); }
  }

  lemma NoRewriteFair(st: State, g: Grants, l: nat)
    requires Inv(st) && NoRewrite(st) && Exact(st, g) && l in st.leases
    ensures Fair(st, g, l)
  {
    NoRewriteTargets(st, g, l);
  }

  /** Without replaced versions every lease is given up fairly. */
  lemma NoRewriteIsFair(st: State, g: Grants, op: Op)
    requires Inv(st) && NoRewrite(st) && Exact(st, g)
    ensures FairStep(st, g, op)
  {
    hide Balanced, PinsCount, AllHeld, NoRewrite, Targets;
    if op.OpRelease? && op.lid in st.leases {
      NoRewriteFair(st, g, op.lid);
    } else if op.OpExpire? {
      NoRewriteExpiry(st, g, op.now, 0);
    }
  }

  // ------------------------------------------------------------------- memory

  /** `mem` maps a page to its contents; `sealed` records what each entry held when it was committed. */
  datatype World = World(st: State, grants: Grants, mem: map<int, int>, sealed: map<Id, seq<int>>)

  datatype Act = Control(op: Op) | RdmaWrite(key: Key, session: Session, page: nat, value: int)

  ghost function At(mem: map<int, int>, q: int): int { if q in mem then mem[q] else 0 }

  ghost function Pages(page: E.pos, e: Entry): nat { Max(0, E.PagesFor(page, e.size)) }

  /** The pages of an entry, as a client that was given its offset reads them. */
  ghost function Content(mem: map<int, int>, page: E.pos, e: Entry): seq<int> {
    seq(Pages(page, e), j => At(mem, e.offset / page + j))
  }

  ghost predicate Sealable(st: State, id: Id) { id in st.entries && !st.entries[id].phase.Writing? }

  ghost function SealedAfter(w: World, st: State): map<Id, seq<int>> {
    map id | id in st.entries && Sealable(st, id) ::
      if id in w.sealed then w.sealed[id] else Content(w.mem, st.pool.page, st.entries[id])
  }

  ghost predicate Allowed(w: World, a: Act) {
    match a
    case Control(op) => Enabled(w.st, op) && FairStep(w.st, w.grants, op)
    case RdmaWrite(key, session, page, _) =>
      (key, session) in w.st.writing && w.st.writing[(key, session)] in w.st.entries &&
      page < E.PagesFor(w.st.pool.page, w.st.entries[w.st.writing[(key, session)]].size)
  }

  ghost function Do(w: World, a: Act): World {
    match a
    case Control(op) =>
      var st := Step(w.st, op);
      World(st, GrantsAfter(w.st, w.grants, op), w.mem, SealedAfter(w, st))
    case RdmaWrite(key, session, page, value) =>
      if (key, session) in w.st.writing && w.st.writing[(key, session)] in w.st.entries then
        w.(mem := w.mem[w.st.entries[w.st.writing[(key, session)]].offset / w.st.pool.page + page := value])
      else w
  }

  /** Every committed entry still holds the bytes it was committed with. */
  ghost predicate Intact(w: World) {
    && (forall id :: id in w.sealed <==> Sealable(w.st, id))
    && (forall id :: id in w.sealed ==> w.sealed[id] == Content(w.mem, w.st.pool.page, w.st.entries[id]))
  }

  ghost predicate Good(w: World) { Inv(w.st) && Exact(w.st, w.grants) && Intact(w) }

  // ------------------------------------------------------ entries do not move

  /** Entries that are still there keep their key and their place in the pool; lease numbers only grow. */
  ghost predicate Steady(a: State, b: State) {
    && b.pool.page == a.pool.page && a.nextLease <= b.nextLease
    && (forall id :: id in b.entries && id in a.entries ==> Continues(a.entries[id], b.entries[id]))
    && (forall id :: id in b.entries && id !in a.entries ==> a.nextId <= id && OnPage(b.pool.page, b.entries[id]))
    && a.nextId <= b.nextId
    && (forall l :: l in b.leases && l < a.nextLease ==> l in a.leases && b.leases[l] == a.leases[l])
  }

  /** Nothing but entries disappears, and what stays is the same version. */
  ghost predicate Loosened(a: State, b: State) {
    && b.pool.page == a.pool.page && b.nextLease == a.nextLease && b.nextId == a.nextId && b.leases == a.leases
    && (forall id :: id in b.entries ==> id in a.entries && Continues(a.entries[id], b.entries[id]))
  }

  lemma UnpinLoosens(st: State, k: Key)
    ensures Loosened(st, Unpin(st, k))
  {
  }

  lemma LoosenedTwice(a: State, b: State, c: State)
    requires Loosened(a, b) && Loosened(b, c)
    ensures Loosened(a, c)
  {
  }

  lemma {:induction false} UnpinAllLoosens(st: State, ks: seq<Key>)
    ensures Loosened(st, UnpinAll(st, ks))
    decreases |ks|
  {
    if ks != [] {
      hide Unpin, Loosened;
      UnpinLoosens(st, ks[0]);
      UnpinAllLoosens(Unpin(st, ks[0]), ks[1..]);
      LoosenedTwice(st, Unpin(st, ks[0]), UnpinAll(st, ks));
    }
  }

  lemma UnpinAllSteady(st: State, ks: seq<Key>)
    ensures Steady(st, UnpinAll(st, ks))
    ensures forall id :: id in UnpinAll(st, ks).entries ==> id in st.entries
    ensures UnpinAll(st, ks).leases == st.leases
  {
    hide UnpinAll;
    UnpinAllLoosens(st, ks);
  }

  lemma ReleaseSteady(st: State, l: nat)
    ensures Steady(st, Release(st, l).1) && forall id :: id in Release(st, l).1.entries ==> id in st.entries
  {
    if l in st.leases { UnpinAllSteady(st.(leases := st.leases - {l}), st.leases[l].keys); }
  }

  lemma {:induction false} ExpireSteady(st: State, now: real, l: nat)
    ensures Steady(st, ExpireFrom(st, now, l)) && forall id :: id in ExpireFrom(st, now, l).entries ==> id in st.entries
    decreases st.nextLease - l
  {
    if l < st.nextLease {
      ReleaseSteady(st, l);
      var st1 := if Expired(st, now, l) then Release(st, l).1 else st;
      if st1.nextLease == st.nextLease { ExpireSteady(st1, now, l + 1); }
    }
  }

  lemma QuietIsSteady(a: State, b: State)
    requires Quiet(a, b)
    ensures Steady(a, b)
  {
  }

  lemma StepSteady(st: State, op: Op)
    requires Inv(st) && Enabled(st, op)
    ensures Steady(st, Step(st, op))
  {
    hide Balanced;
    if op.OpLookup? {
      var full, mid := LookupIs(st, op.hashes, op.ranks, op.pin, op.expires, op.owner);
      PinAllKeeps(mid, full, multiset{});
    } else if op.OpRelease? {
      ReleaseSteady(st, op.lid);
    } else if op.OpExpire? {
      ExpireSteady(st, op.now, 0);
    } else {
      StepKeeps(st, op);
      QuietIsSteady(st, Step(st, op));
    }
  }

  // ------------------------------------------------------------ every step

  lemma ControlIntact(w: World, op: Op)
    requires Inv(w.st) && Intact(w) && Enabled(w.st, op)
    ensures Intact(Do(w, Control(op)))
  {
    hide Balanced;
    StepSteady(w.st, op);
    var w' := Do(w, Control(op));
    forall id | id in w'.sealed ensures w'.sealed[id] == Content(w'.mem, w'.st.pool.page, w'.st.entries[id]) {
      if id in w.sealed { assert SameVersion(w.st.entries[id], w'.st.entries[id]); }
    }
  }

  lemma ContentFrame(mem: map<int, int>, page: E.pos, e: Entry, q: int, value: int)
    requires q !in RunOf(page, e)
    ensures Content(mem[q := value], page, e) == Content(mem, page, e)
  {
    var a, b := Content(mem[q := value], page, e), Content(mem, page, e);
    forall j | 0 <= j < |a| ensures a[j] == b[j] {
      var r := e.offset / page + j;
      assert E.InRun(e.offset / page, E.PagesFor(page, e.size), r);
      assert r in RunOf(page, e);
      assert a[j] == At(mem[q := value], r) && b[j] == At(mem, r);
    }
  }

  lemma ApartInPool(st: State, k: Key, s: Session, id: Id)
    requires Inv(st) && (k, s) in st.writing && Sealable(st, id)
    ensures st.writing[(k, s)] in st.entries
    ensures RunOf(st.pool.page, st.entries[st.writing[(k, s)]]) !! RunOf(st.pool.page, st.entries[id])
  {
  }

  /** A write into an entry being filled touches no page of a committed entry. */
  lemma WriteElsewhere(w: World, k: Key, s: Session, page: nat, value: int, id: Id)
    requires Inv(w.st) && Allowed(w, RdmaWrite(k, s, page, value)) && Sealable(w.st, id)
    ensures Content(Do(w, RdmaWrite(k, s, page, value)).mem, w.st.pool.page, w.st.entries[id]) ==
            Content(w.mem, w.st.pool.page, w.st.entries[id])
  {
    hide Balanced, Content;
    ApartInPool(w.st, k, s, id);
    var p, into := w.st.pool.page, w.st.entries[w.st.writing[(k, s)]];
    var q := into.offset / p + page;
    assert E.InRun(into.offset / p, E.PagesFor(p, into.size), q);
    assert q in RunOf(p, into);
    ContentFrame(w.mem, p, w.st.entries[id], q, value);
  }

  lemma WriteIntact(w: World, k: Key, s: Session, page: nat, value: int)
    requires Inv(w.st) && Intact(w) && Allowed(w, RdmaWrite(k, s, page, value))
    ensures Intact(Do(w, RdmaWrite(k, s, page, value)))
  {
    hide Balanced;
    forall id | id in w.sealed { WriteElsewhere(w, k, s, page, value, id); }
  }

  lemma DoKeepsGood(w: World, a: Act)
    requires Good(w) && Allowed(w, a)
    ensures Good(Do(w, a))
  {
    hide Balanced, PinsCount, AllHeld, Intact, FairStep;
    if a.Control? {
      StepKeeps(w.st, a.op);
      StepFairExact(w.st, w.grants, a.op);
      ControlIntact(w, a.op);
    } else {
      WriteIntact(w, a.key, a.session, a.page, a.value);
    }
  }

  /** What the holder of lease `l` can read: which version it was granted, where that is and what it holds. */
  ghost predicate Reads(w: World, l: nat, i: nat, e: Entry, bytes: seq<int>) {
    && l in w.st.leases && l in w.grants && i < |w.grants[l]| == |w.st.leases[l].keys|
    && w.grants[l][i] in w.st.entries
    && SameVersion(w.st.entries[w.grants[l][i]], e) && e.key == w.st.leases[l].keys[i]
    && Content(w.mem, w.st.pool.page, w.st.entries[w.grants[l][i]]) == bytes
    && w.grants[l][i] in w.sealed && w.sealed[w.grants[l][i]] == bytes
  }

  /** A granted version is pinned, so it is in the pool and no longer being written. */
  lemma GrantedIsSealed(st: State, g: Grants, l: nat, i: nat)
    requires Inv(st) && Exact(st, g) && l in st.leases && l in g && i < |g[l]|
    ensures |g[l]| == |st.leases[l].keys| && Sealable(st, g[l][i]) && st.entries[g[l][i]].key == st.leases[l].keys[i]
  {
    assert Holds(st, st.leases[l].keys, g[l]);
    LeasesAreNumbered(st);
    HeldIsCounted(g, st.nextLease, l, g[l][i]);
  }

  lemma ReadsCommitted(w: World, l: nat, i: nat)
    requires Good(w) && l in w.st.leases && l in w.grants && i < |w.grants[l]|
    ensures w.grants[l][i] in w.st.entries
    ensures Reads(w, l, i, w.st.entries[w.grants[l][i]], Content(w.mem, w.st.pool.page, w.st.entries[w.grants[l][i]]))
  {
    GrantedIsSealed(w.st, w.grants, l, i);
  }

  lemma DoKeepsGrants(w: World, a: Act, l: nat)
    requires Good(w) && Allowed(w, a) && l in w.st.leases && l in Do(w, a).st.leases
    ensures l in w.grants && l in Do(w, a).grants && Do(w, a).grants[l] == w.grants[l]
    ensures Do(w, a).st.leases[l] == w.st.leases[l]
  {
    hide Balanced, PinsCount, Intact, FairStep;
    LeasesAreNumbered(w.st);
    if a.Control? { StepSteady(w.st, a.op); }
  }

  lemma DoKeepsReads(w: World, a: Act, l: nat, i: nat, e: Entry, bytes: seq<int>)
    requires Good(w) && Allowed(w, a) && Reads(w, l, i, e, bytes) && l in Do(w, a).st.leases
    ensures Reads(Do(w, a), l, i, e, bytes)
  {
    hide Balanced, PinsCount, AllHeld, Content, FairStep;
    DoKeepsGood(w, a);
    DoKeepsGrants(w, a, l);
    ReadsCommitted(Do(w, a), l, i);
    if a.Control? { StepSteady(w.st, a.op); }
  }

  // -------------------------------------------------------------- whole runs

  ghost function RunActs(w: World, acts: seq<Act>): World
    decreases |acts|
  {
    if acts == [] then w else RunActs(Do(w, acts[0]), acts[1..])
  }

  ghost predicate AllAllowed(w: World, acts: seq<Act>)
    decreases |acts|
  {
    acts != [] ==> Allowed(w, acts[0]) && AllAllowed(Do(w, acts[0]), acts[1..])
  }

  ghost function Start(poolBytes: int, page: E.pos, capacity: Option<int>): World {
    World(Init(poolBytes, page, capacity), map[], map[], map[])
  }

  lemma {:induction false} LeaseNotReborn(w: World, acts: seq<Act>, l: nat)
    requires Good(w) && AllAllowed(w, acts) && l < w.st.nextLease && l !in w.st.leases
    ensures l !in RunActs(w, acts).st.leases
    decreases |acts|
  {
    hide Balanced, PinsCount, AllHeld, Intact, FairStep;
    if acts != [] {
      DoKeepsGood(w, acts[0]);
      if acts[0].Control? { StepSteady(w.st, acts[0].op); }
      LeaseNotReborn(Do(w, acts[0]), acts[1..], l);
    }
  }

  /**
   From grant to release: over any run of requests and writes in which leases are given up fairly, as
   long as the lease is still live at the end, its holder reads the same version, at the same place, with
   the bytes it was committed with.
   */
  lemma {:induction false} LeasedBytesStay(w: World, acts: seq<Act>, l: nat, i: nat, e: Entry, bytes: seq<int>)
    requires Good(w) && AllAllowed(w, acts) && Reads(w, l, i, e, bytes) && l in RunActs(w, acts).st.leases
    ensures Good(RunActs(w, acts)) && Reads(RunActs(w, acts), l, i, e, bytes)
    decreases |acts|
  {
    hide Balanced, PinsCount, AllHeld, Intact, FairStep;
    if acts != [] {
      var w1 := Do(w, acts[0]);
      DoKeepsGood(w, acts[0]);
      LeasesAreNumbered(w.st);
      if acts[0].Control? { StepSteady(w.st, acts[0].op); }
      if l !in w1.st.leases { LeaseNotReborn(w1, acts[1..], l); }
      DoKeepsReads(w, acts[0], l, i, e, bytes);
      LeasedBytesStay(w1, acts[1..], l, i, e, bytes);
    }
  }

  lemma {:induction false} RunKeepsGood(w: World, acts: seq<Act>)
    requires Good(w) && AllAllowed(w, acts)
    ensures Good(RunActs(w, acts))
    decreases |acts|
  {
    hide Good, Allowed;
    if acts != [] {
      DoKeepsGood(w, acts[0]);
      RunKeepsGood(Do(w, acts[0]), acts[1..]);
    }
  }

  /** In every reachable world each live lease reads the committed bytes of entries of its own keys. */
  lemma EveryLeaseReadsCommitted(poolBytes: int, page: E.pos, capacity: Option<int>, acts: seq<Act>, l: nat, i: nat)
    requires poolBytes >= 0 && AllAllowed(Start(poolBytes, page, capacity), acts)
    requires var w := RunActs(Start(poolBytes, page, capacity), acts);
             l in w.st.leases && i < |w.st.leases[l].keys|
    ensures var w := RunActs(Start(poolBytes, page, capacity), acts);
            exists e, bytes :: Reads(w, l, i, e, bytes)
  {
    hide Balanced, PinsCount;
    StartGood(poolBytes, page, capacity);
    RunKeepsGood(Start(poolBytes, page, capacity), acts);
    var w := RunActs(Start(poolBytes, page, capacity), acts);
    assert Holds(w.st, w.st.leases[l].keys, w.grants[l]);
    ReadsCommitted(w, l, i);
  }

  lemma StartGood(poolBytes: int, page: E.pos, capacity: Option<int>)
    requires poolBytes >= 0
    ensures Good(Start(poolBytes, page, capacity)) && NoRewrite(Init(poolBytes, page, capacity))
  {
    hide Balanced;
    InitInv(poolBytes, page, capacity);
  }

  // ------------------------------------------- writers that skip existing keys

  /** Requests the server accepts, none of which rewrites a key; nothing is asked of releases. */
  ghost predicate SkipAllowed(w: World, a: Act) {
    match a
    case Control(op) => Enabled(w.st, op) && SkipsExisting(op)
    case RdmaWrite(_, _, _, _) => Allowed(w, a)
  }

  ghost predicate AllSkip(w: World, acts: seq<Act>)
    decreases |acts|
  {
    acts != [] ==> SkipAllowed(w, acts[0]) && AllSkip(Do(w, acts[0]), acts[1..])
  }

  /** Then every lease is given up fairly, so the theorems above hold without that condition. */
  lemma {:induction false} SkippingIsFair(w: World, acts: seq<Act>)
    requires Good(w) && NoRewrite(w.st) && AllSkip(w, acts)
    ensures AllAllowed(w, acts) && NoRewrite(RunActs(w, acts).st)
    decreases |acts|
  {
    hide Balanced, PinsCount, AllHeld, Intact, FairStep, NoRewrite;
    if acts != [] {
      if acts[0].Control? {
        NoRewriteIsFair(w.st, w.grants, acts[0].op);
        StepNoRewrite(w.st, acts[0].op);
      }
      DoKeepsGood(w, acts[0]);
      SkippingIsFair(Do(w, acts[0]), acts[1..]);
    }
  }

  /** From an empty store, with writers that skip, no lease ever loses what it was granted. */
  lemma SkippersKeepLeases(poolBytes: int, page: E.pos, capacity: Option<int>, before: seq<Act>, after: seq<Act>,
                           l: nat, i: nat, e: Entry, bytes: seq<int>)
    requires poolBytes >= 0 && AllSkip(Start(poolBytes, page, capacity), before)
    requires var w := RunActs(Start(poolBytes, page, capacity), before);
             AllSkip(w, after) && Reads(w, l, i, e, bytes) && l in RunActs(w, after).st.leases
    ensures Reads(RunActs(RunActs(Start(poolBytes, page, capacity), before), after), l, i, e, bytes)
  {
    hide Good, Reads, AllSkip, AllAllowed, NoRewrite, Init;
    var w0 := Start(poolBytes, page, capacity);
    StartGood(poolBytes, page, capacity);
    SkippingIsFair(w0, before);
    RunKeepsGood(w0, before);
    SkippingIsFair(RunActs(w0, before), after);
    LeasedBytesStay(RunActs(w0, before), after, l, i, e, bytes);
  }
}
