/**
 Chunks on their way through the store: the copies that `Layout` plans, into entries that the store has
 granted. The server's memory is read and written byte by byte; requests and transfers come in any order.
 */
module Transfers {
  import opened Arithmetic
  import opened Wrappers
  import E = Extents
  import opened Store
  import opened StoreInv
  import opened StoreRuns
  import opened StoreSteps
  import U = StoreUse
  import D = DataPlane
  import L = Layout

  /** `base` is the address of the pool. */
  datatype World = World(st: State, base: int, server: L.Memory)

  datatype Act =
    | Ask(op: Op)
    | Send(g: L.Geometry, t: L.Transfer, keys: seq<Key>, session: Session, workerPosts: bool, client: L.Memory)

  /** The transfer fills entries the session is writing, at the addresses it was given, and no more than their size. */
  ghost predicate Into(w: World, g: L.Geometry, t: L.Transfer, keys: seq<Key>, s: Session) {
    && |t.entries| == |t.pos| == |keys| && Distinct(keys)
    && t.first <= t.stop <= g.layers && Distinct(t.pos) && (forall i :: 0 <= i < |t.pos| ==> t.pos[i] < t.room)
    && (forall i :: 0 <= i < |keys| ==> FillsOwn(w, g, keys[i], s, t.entries[i]))
  }

  ghost predicate FillsOwn(w: World, g: L.Geometry, k: Key, s: Session, at: int) {
    && (k, s) in w.st.writing && w.st.writing[(k, s)] in w.st.entries
    && at == w.base + w.st.entries[w.st.writing[(k, s)]].offset
    && g.layers * g.layerBytes <= w.st.entries[w.st.writing[(k, s)]].size
  }

  ghost predicate Allowed(w: World, a: Act) {
    match a
    case Ask(op) => Enabled(w.st, op)
    case Send(g, t, keys, s, _, _) => Into(w, g, t, keys, s)
  }

  ghost function Do(w: World, a: Act): World
    requires Allowed(w, a)
  {
    match a
    case Ask(op) => w.(st := Step(w.st, op))
    case Send(g, t, _, _, workerPosts, client) => w.(server := L.Stored(g, t, workerPosts, client, w.server))
  }

  ghost predicate AllAllowed(w: World, acts: seq<Act>)
    decreases |acts|
  {
    acts != [] ==> Allowed(w, acts[0]) && AllAllowed(Do(w, acts[0]), acts[1..])
  }

  ghost function RunActs(w: World, acts: seq<Act>): World
    requires AllAllowed(w, acts)
    decreases |acts|
  {
    if acts == [] then w else RunActs(Do(w, acts[0]), acts[1..])
  }

  // ------------------------------------------------ entries in bytes and in pages

  ghost predicate Aligned(st: State) { forall id :: id in st.entries ==> OnPage(st.pool.page, st.entries[id]) }

  ghost predicate Good(w: World) { Inv(w.st) && Aligned(w.st) }

  lemma StepAligned(st: State, op: Op)
    requires Inv(st) && Aligned(st) && Enabled(st, op)
    ensures Aligned(Step(st, op))
  {
    hide Balanced, Step;
    D.StepSteady(st, op);
  }

  lemma DoKeeps(w: World, a: Act)
    requires Good(w) && Allowed(w, a)
    ensures Good(Do(w, a))
  {
    hide Balanced, Step, Aligned;
    if a.Ask? {
      StepKeeps(w.st, a.op);
      StepAligned(w.st, a.op);
    }
  }

  lemma {:induction false} RunKeepsGood(w: World, acts: seq<Act>)
    requires Good(w) && AllAllowed(w, acts)
    ensures Good(RunActs(w, acts))
    decreases |acts|
  {
    hide Good, Allowed, Do;
    if acts != [] {
      DoKeeps(w, acts[0]);
      RunKeepsGood(Do(w, acts[0]), acts[1..]);
    }
  }

  /** In every world that requests and transfers reach from an empty store, every entry begins with a page. */
  lemma EveryWorldIsGood(poolBytes: int, page: E.pos, capacity: Option<int>, base: int, server: L.Memory, acts: seq<Act>)
    requires poolBytes >= 0 && AllAllowed(World(Init(poolBytes, page, capacity), base, server), acts)
    ensures Good(RunActs(World(Init(poolBytes, page, capacity), base, server), acts))
  {
    hide Balanced, AllAllowed, RunActs;
    InitInv(poolBytes, page, capacity);
    RunKeepsGood(World(Init(poolBytes, page, capacity), base, server), acts);
  }

  /** Runs of pages that are apart, in order. */
  lemma RunsApart(s: int, m: int, t: int, n: int)
    requires E.Run(s, m) !! E.Run(t, n) && m >= 1 && n >= 1
    ensures s + m <= t || t + n <= s
  {
    E.FirstOfRun(s, m);
    E.FirstOfRun(t, n);
    InRunIff(s, m, t);
    InRunIff(t, n, s);
  }

  lemma InRunIff(s: int, m: int, q: int)
    ensures q in E.Run(s, m) <==> s <= q < s + m
  {
    assert s <= q < s + m ==> E.InRun(s, m, q);
  }

  lemma PagesBelow(page: E.pos, a: Entry, b: Entry)
    requires OnPage(page, a) && OnPage(page, b) && a.size > 0
    requires a.offset / page + E.PagesFor(page, a.size) <= b.offset / page
    ensures a.offset + a.size <= b.offset
  {
    var s, n, t := a.offset / page, E.PagesFor(page, a.size), b.offset / page;
    E.PagesForLeast(page, a.size);
    hide E.PagesFor;
    assert (s + n) * page <= t * page;
    assert (s + n) * page == s * page + n * page;
  }

  /** Entries with different pages have different bytes. */
  lemma BytesApart(page: E.pos, a: Entry, b: Entry)
    requires OnPage(page, a) && OnPage(page, b) && a.size > 0 && b.size > 0 && RunOf(page, a) !! RunOf(page, b)
    ensures a.offset + a.size <= b.offset || b.offset + b.size <= a.offset
  {
    E.PagesForLeast(page, a.size);
    E.PagesForLeast(page, b.size);
    RunsApart(a.offset / page, E.PagesFor(page, a.size), b.offset / page, E.PagesFor(page, b.size));
    hide E.PagesFor, OnPage, E.Run;
    if a.offset / page + E.PagesFor(page, a.size) <= b.offset / page {
      PagesBelow(page, a, b);
    } else {
      PagesBelow(page, b, a);
    }
  }

  lemma EntriesApart(st: State, x: Id, y: Id)
    requires Inv(st) && Aligned(st) && x in st.entries && y in st.entries && x != y
    ensures var a, b := st.entries[x], st.entries[y];
            a.offset + a.size <= b.offset || b.offset + b.size <= a.offset
  {
    PagesFacts(st, x, y);
    hide Inv, RunOf;
    BytesApart(st.pool.page, st.entries[x], st.entries[y]);
  }

  lemma PagesFacts(st: State, x: Id, y: Id)
    requires Inv(st) && x in st.entries && y in st.entries && x != y
    ensures st.entries[x].size > 0 && st.entries[y].size > 0
    ensures RunOf(st.pool.page, st.entries[x]) !! RunOf(st.pool.page, st.entries[y])
  {
    assert InPool(st.pool, st.entries[x]) && InPool(st.pool, st.entries[y]);
  }

  lemma WriterFacts(st: State, k: Key, s: Session)
    requires Inv(st) && (k, s) in st.writing
    ensures st.writing[(k, s)] in st.entries
    ensures st.entries[st.writing[(k, s)]].key == k && st.entries[st.writing[(k, s)]].phase == Writing(s)
  {
  }

  /** A transfer into granted entries never writes one byte for two chunks. */
  lemma IntoIsWellformed(w: World, g: L.Geometry, t: L.Transfer, keys: seq<Key>, s: Session)
    requires Good(w) && Into(w, g, t, keys, s)
    ensures L.Wellformed(g, t)
  {
    hide Inv, Aligned;
    forall i, j | 0 <= i < j < |keys| ensures L.Apart(t.entries[i], t.entries[j], g.layers * g.layerBytes) {
      assert FillsOwn(w, g, keys[i], s, t.entries[i]) && FillsOwn(w, g, keys[j], s, t.entries[j]);
      WriterFacts(w.st, keys[i], s);
      WriterFacts(w.st, keys[j], s);
      EntriesApart(w.st, w.st.writing[(keys[i], s)], w.st.writing[(keys[j], s)]);
    }
  }

  // ----------------------------------------------------- committed entries keep their bytes

  ghost predicate SameBytes(m: L.Memory, n: L.Memory, base: int, e: Entry) {
    forall a :: base + e.offset <= a < base + e.offset + e.size ==> m(a) == n(a)
  }

  lemma SameBytesTrans(l: L.Memory, m: L.Memory, n: L.Memory, base: int, e: Entry)
    requires SameBytes(l, m, base, e) && SameBytes(m, n, base, e)
    ensures SameBytes(l, n, base, e)
  {
  }

  /** The position of a key in a list that has it. */
  ghost function Index(keys: seq<Key>, k: Key): (i: nat)
    requires k in keys
    ensures i < |keys| && keys[i] == k
  {
    if keys[0] == k then 0 else 1 + Index(keys[1..], k)
  }

  /** The transfer moves byte `x` of the entry that session `s` fills for key `k`. */
  ghost predicate Covers(a: Act, k: Key, s: Session, x: nat) {
    && a.Send? && a.session == s && k in a.keys && |a.t.pos| == |a.keys| && a.g.layerBytes > 0
    && a.t.first * a.g.layerBytes <= x < a.t.stop * a.g.layerBytes
  }

  /** What the client had staged for that byte. */
  ghost function Staged(a: Act, k: Key, x: nat): int
    requires a.Send? && k in a.keys && |a.t.pos| == |a.keys| && a.g.layerBytes > 0
  {
    var i, len := Index(a.keys, k), a.g.layerBytes;
    a.client(a.t.base + x / len * a.t.room * len + a.t.pos[i] * len + x % len)
  }

  /** Session `s` is filling entry `id` for key `k`. */
  ghost predicate Fills(st: State, id: Id, k: Key, s: Session) {
    id in st.entries && (k, s) in st.writing && st.writing[(k, s)] == id
  }

  /** The layer and the place in it of a byte that is moved. */
  lemma LayerOf(x: nat, len: nat, first: nat, stop: nat)
    requires len > 0 && first * len <= x < stop * len
    ensures first <= x / len < stop && x / len * len + x % len == x
  {
    var q := x / len;
    assert x == q * len + x % len;
    if q < first { MulLe(q + 1, first, len); }
    if stop <= q { MulLe(stop, q, len); }
    assert (q + 1) * len == q * len + len;
  }

  /** A transfer puts what was staged for a byte there. */
  lemma SendLands(w: World, a: Act, id: Id, k: Key, s: Session, x: nat)
    requires Good(w) && Allowed(w, a) && Fills(w.st, id, k, s) && Covers(a, k, s, x)
    ensures Do(w, a).server(w.base + w.st.entries[id].offset + x) == Staged(a, k, x)
  {
    hide Inv, Aligned, L.Stored, L.Wellformed;
    var i, len := Index(a.keys, k), a.g.layerBytes;
    assert FillsOwn(w, a.g, a.keys[i], s, a.t.entries[i]);
    IntoIsWellformed(w, a.g, a.t, a.keys, s);
    LayerOf(x, len, a.t.first, a.t.stop);
    L.StoreLands(a.g, a.t, a.workerPosts, a.client, w.server, x / len, i, x % len);
  }

  /** A transfer leaves every byte of every entry that it does not cover. */
  lemma SendLeaves(w: World, a: Act, id: Id, x: nat)
    requires Good(w) && a.Send? && Allowed(w, a) && id in w.st.entries && x < w.st.entries[id].size
    requires forall k :: k in a.keys && Fills(w.st, id, k, a.session) ==> !Covers(a, k, a.session, x)
    ensures Do(w, a).server(w.base + w.st.entries[id].offset + x) == w.server(w.base + w.st.entries[id].offset + x)
  {
    hide Inv, Aligned, L.Stored;
    var t, len, at := a.t, a.g.layerBytes, w.base + w.st.entries[id].offset + x;
    forall i | 0 <= i < |t.entries| ensures !(t.entries[i] + t.first * len <= at < t.entries[i] + t.stop * len) {
      var k := a.keys[i];
      assert FillsOwn(w, a.g, k, a.session, t.entries[i]);
      var into := w.st.writing[(k, a.session)];
      if into == id {
        assert k in a.keys && Fills(w.st, id, k, a.session);
        assert len == 0 ==> t.stop * len == 0;
      } else {
        EntriesApart(w.st, into, id);
        MulLe(t.stop, a.g.layers, len);
      }
    }
    L.StoreSpares(a.g, t, a.workerPosts, a.client, w.server, at);
  }

  /** A transfer changes no byte of a committed entry. */
  lemma SendSpares(w: World, a: Act, id: Id)
    requires Good(w) && a.Send? && Allowed(w, a) && D.Sealable(w.st, id)
    ensures SameBytes(w.server, Do(w, a).server, w.base, w.st.entries[id])
  {
    hide Inv, Aligned, Allowed, Do;
    var e := w.st.entries[id];
    forall x | w.base + e.offset <= x < w.base + e.offset + e.size ensures w.server(x) == Do(w, a).server(x) {
      forall k | k in a.keys && Fills(w.st, id, k, a.session) ensures false { WriterFacts(w.st, k, a.session); }
      SendLeaves(w, a, id, x - w.base - e.offset);
    }
  }

  lemma DoSpares(w: World, a: Act, id: Id)
    requires Good(w) && Allowed(w, a) && D.Sealable(w.st, id) && id in Do(w, a).st.entries
    ensures D.Sealable(Do(w, a).st, id) && SameVersion(w.st.entries[id], Do(w, a).st.entries[id])
    ensures SameBytes(w.server, Do(w, a).server, w.base, w.st.entries[id]) && Do(w, a).base == w.base
  {
    hide Inv, Aligned, Step;
    if a.Ask? { D.StepSteady(w.st, a.op); } else { SendSpares(w, a, id); }
  }

  lemma IdsBelow(st: State, id: Id)
    requires Inv(st) && id in st.entries
    ensures id < st.nextId
  {
  }

  /** Numbers of entries are not used again. */
  lemma {:induction false} StillThere(w: World, acts: seq<Act>, id: Id)
    requires Good(w) && AllAllowed(w, acts) && id < w.st.nextId && id in RunActs(w, acts).st.entries
    ensures id in w.st.entries
    decreases |acts|
  {
    hide Inv, Aligned, Allowed;
    if acts != [] {
      DoKeeps(w, acts[0]);
      NumbersGrow(w, acts[0]);
      StillThere(Do(w, acts[0]), acts[1..], id);
    }
  }

  lemma NumbersGrow(w: World, a: Act)
    requires Good(w) && Allowed(w, a)
    ensures w.st.nextId <= Do(w, a).st.nextId
    ensures forall id :: id in Do(w, a).st.entries && id < w.st.nextId ==> id in w.st.entries
  {
    hide Inv, Aligned, Step;
    if a.Ask? { D.StepSteady(w.st, a.op); }
  }

  /**
   Over every run of requests and transfers, an entry that is committed at the beginning and there at the end
   is where it was and holds the same bytes.
   */
  lemma {:induction false} CommittedBytesStay(w: World, acts: seq<Act>, id: Id)
    requires Good(w) && AllAllowed(w, acts) && D.Sealable(w.st, id) && id in RunActs(w, acts).st.entries
    ensures var w' := RunActs(w, acts);
            && SameVersion(w.st.entries[id], w'.st.entries[id]) && w'.base == w.base
            && SameBytes(w.server, w'.server, w.base, w.st.entries[id])
    decreases |acts|
  {
    hide Inv, Aligned, Allowed, SameBytes;
    if acts == [] {
      SameBytesRefl(w.server, w.base, w.st.entries[id]);
    } else {
      var w1 := Do(w, acts[0]);
      IdsBelow(w.st, id);
      DoKeeps(w, acts[0]);
      NumbersGrow(w, acts[0]);
      StillThere(w1, acts[1..], id);
      DoSpares(w, acts[0], id);
      CommittedBytesStay(w1, acts[1..], id);
      SameBytesMoved(w1.server, RunActs(w, acts).server, w.base, w1.st.entries[id], w.st.entries[id]);
      SameBytesTrans(w.server, w1.server, RunActs(w, acts).server, w.base, w.st.entries[id]);
    }
  }

  lemma SameBytesRefl(m: L.Memory, base: int, e: Entry)
    ensures SameBytes(m, m, base, e)
  {
  }

  lemma SameBytesMoved(m: L.Memory, n: L.Memory, base: int, e: Entry, e': Entry)
    requires SameBytes(m, n, base, e) && e.offset == e'.offset && e.size == e'.size
    ensures SameBytes(m, n, base, e')
  {
  }

  // ------------------------------------------------------------------ end to end

  /** A commit publishes the session's entry for a listed key, in place. */
  lemma CommitSeals(st: State, ks: seq<Key>, k: Key, s: Session)
    requires Inv(st) && k in ks && (k, s) in st.writing
    ensures var id, st' := st.writing[(k, s)], Commit(st, ks, s);
            id in st.entries && D.Sealable(st', id) && SameVersion(st.entries[id], st'.entries[id])
  {
    hide Balanced;
    var id, st' := st.writing[(k, s)], Commit(st, ks, s);
    WriterFacts(st, k, s);
    U.CommitExact(st, ks, s);
    assert k in U.Published(st.writing, ks, s);
    D.StepSteady(st, OpCommit(ks, s));
    StepKeeps(st, OpCommit(ks, s));
    hide Commit, D.Steady;
    IndexedIsReady(st', k);
  }

  lemma IndexedIsReady(st: State, k: Key)
    requires Inv(st) && k in st.index
    ensures st.index[k] in st.entries && st.entries[st.index[k]].phase == Ready
  {
  }

  /** What byte `x` holds after transfers into an entry: what the last one that covers it had staged. */
  ghost function LastStaged(acts: seq<Act>, k: Key, s: Session, x: nat, before: int): int
    decreases |acts|
  {
    if acts == [] then before
    else LastStaged(acts[1..], k, s, x, if Covers(acts[0], k, s, x) then Staged(acts[0], k, x) else before)
  }

  lemma {:induction false} LastStagedIs(acts: seq<Act>, k: Key, s: Session, x: nat, before: int, n: nat)
    requires n < |acts| && Covers(acts[n], k, s, x) && forall m :: n < m < |acts| ==> !Covers(acts[m], k, s, x)
    ensures LastStaged(acts, k, s, x, before) == Staged(acts[n], k, x)
    decreases |acts|
  {
    hide Staged;
    var now := if Covers(acts[0], k, s, x) then Staged(acts[0], k, x) else before;
    if n > 0 {
      LastStagedIs(acts[1..], k, s, x, now, n - 1);
    } else {
      NoneStaged(acts[1..], k, s, x, now);
    }
  }

  lemma {:induction false} NoneStaged(acts: seq<Act>, k: Key, s: Session, x: nat, before: int)
    requires forall m :: 0 <= m < |acts| ==> !Covers(acts[m], k, s, x)
    ensures LastStaged(acts, k, s, x, before) == before
    decreases |acts|
  {
    if acts != [] { NoneStaged(acts[1..], k, s, x, before); }
  }

  /** One act does to a byte of an entry being filled what the transfer in it says, and nothing else. */
  lemma DoFills(w: World, a: Act, id: Id, k: Key, s: Session, x: nat)
    requires Good(w) && Allowed(w, a) && Fills(w.st, id, k, s) && x < w.st.entries[id].size
    ensures var at := w.base + w.st.entries[id].offset + x;
            Do(w, a).server(at) == if Covers(a, k, s, x) then Staged(a, k, x) else w.server(at)
  {
    hide Inv, Aligned, Staged, L.Stored;
    if Covers(a, k, s, x) {
      SendLands(w, a, id, k, s, x);
    } else if a.Send? {
      forall k' | k' in a.keys && Fills(w.st, id, k', a.session) ensures !Covers(a, k', a.session, x) {
        WriterFacts(w.st, k', a.session);
        WriterFacts(w.st, k, s);
      }
      SendLeaves(w, a, id, x);
    }
  }

  /** An entry that is being filled later has been filled by the same session all along. */
  lemma FilledBefore(w: World, a: Act, id: Id, k: Key, s: Session)
    requires Good(w) && Allowed(w, a) && id in w.st.entries && Fills(Do(w, a).st, id, k, s)
    ensures Fills(w.st, id, k, s) && SameVersion(w.st.entries[id], Do(w, a).st.entries[id]) && Do(w, a).base == w.base
  {
    hide Inv, Aligned, Step;
    DoKeeps(w, a);
    WriterFacts(Do(w, a).st, k, s);
    if a.Ask? {
      D.StepSteady(w.st, a.op);
      WriterIsListed(w.st, id);
    }
  }

  lemma WriterIsListed(st: State, id: Id)
    requires Inv(st) && id in st.entries && st.entries[id].phase.Writing?
    ensures Fills(st, id, st.entries[id].key, st.entries[id].phase.owner)
  {
  }

  lemma {:induction false} FilledThroughout(w: World, acts: seq<Act>, id: Id, k: Key, s: Session)
    requires Good(w) && AllAllowed(w, acts) && id in w.st.entries && Fills(RunActs(w, acts).st, id, k, s)
    ensures Fills(w.st, id, k, s)
    decreases |acts|
  {
    hide Good, Allowed, Do;
    if acts != [] {
      GoodIds(w, id);
      DoKeeps(w, acts[0]);
      NumbersGrow(w, acts[0]);
      StillThere(Do(w, acts[0]), acts[1..], id);
      FilledThroughout(Do(w, acts[0]), acts[1..], id, k, s);
      FilledBefore(w, acts[0], id, k, s);
    }
  }

  lemma GoodIds(w: World, id: Id)
    requires Good(w) && id in w.st.entries
    ensures id < w.st.nextId
  {
    hide Balanced;
    IdsBelow(w.st, id);
  }

  /**
   Over every run during which an entry is being filled, each of its bytes ends up as the last transfer that
   covers it staged it, whatever requests and transfers of others come between, or as it was.
   */
  lemma {:induction false} FilledExact(w: World, acts: seq<Act>, id: Id, k: Key, s: Session, x: nat)
    requires Good(w) && AllAllowed(w, acts) && id in w.st.entries && Fills(RunActs(w, acts).st, id, k, s)
    requires x < w.st.entries[id].size
    ensures var w', at := RunActs(w, acts), w.base + w.st.entries[id].offset + x;
            && SameVersion(w.st.entries[id], w'.st.entries[id]) && w'.base == w.base
            && w'.server(at) == LastStaged(acts, k, s, x, w.server(at))
    decreases |acts|
  {
    hide Good, Allowed, Do, Covers, Staged;
    if acts != [] {
      var w1 := Do(w, acts[0]);
      GoodIds(w, id);
      DoKeeps(w, acts[0]);
      NumbersGrow(w, acts[0]);
      StillThere(w1, acts[1..], id);
      FilledThroughout(w1, acts[1..], id, k, s);
      FilledBefore(w, acts[0], id, k, s);
      DoFills(w, acts[0], id, k, s, x);
      FilledExact(w1, acts[1..], id, k, s, x);
    }
  }

  /** A committed byte is what any client later loads from there. */
  lemma CommittedIsLoaded(w: World, acts: seq<Act>, id: Id, g: L.Geometry, u: L.Transfer, workerPosts: bool,
                          other: L.Memory, j: nat, layer: nat, b: nat)
    requires Good(w) && AllAllowed(w, acts) && D.Sealable(w.st, id) && id in RunActs(w, acts).st.entries
    requires b < g.layerBytes && layer * g.layerBytes + b < w.st.entries[id].size
    requires L.Placed(u) && u.first <= layer < u.stop && j < |u.entries|
    requires u.entries[j] == w.base + RunActs(w, acts).st.entries[id].offset
    ensures |u.pos| == |u.entries|
    ensures L.Loaded(g, u, workerPosts, other, RunActs(w, acts).server)(
              u.base + layer * u.room * g.layerBytes + u.pos[j] * g.layerBytes + b)
            == w.server(w.base + w.st.entries[id].offset + (layer * g.layerBytes + b))
  {
    hide Good, AllAllowed, RunActs, L.Placed, L.Loaded, SameBytes;
    var w', e := RunActs(w, acts), w.st.entries[id];
    CommittedBytesStay(w, acts, id);
    ByteIs(w.server, w'.server, w.base, e, layer * g.layerBytes + b);
    L.LoadReads(g, u, workerPosts, other, w'.server, layer, j, b);
  }

  /** The world after a save: requests and transfers in any order, then the commit by the session. */
  ghost function Saved(w: World, save: seq<Act>, ks: seq<Key>, s: Session): World
    requires AllAllowed(w, save)
  {
    Do(RunActs(w, save), Ask(OpCommit(ks, s)))
  }

  lemma SavedIs(w: World, save: seq<Act>, ks: seq<Key>, id: Id, k: Key, s: Session, x: nat)
    requires Good(w) && AllAllowed(w, save) && id in w.st.entries && k in ks
    requires Fills(RunActs(w, save).st, id, k, s) && x < w.st.entries[id].size
    ensures var w', e := Saved(w, save, ks, s), w.st.entries[id];
            && Good(w') && D.Sealable(w'.st, id) && w'.base == w.base && SameVersion(e, w'.st.entries[id])
            && w'.server(w.base + e.offset + x) == LastStaged(save, k, s, x, w.server(w.base + e.offset + x))
  {
    hide Inv, Aligned, Covers, Staged, AllAllowed;
    RunKeepsGood(w, save);
    FilledExact(w, save, id, k, s, x);
    CommitSeals(RunActs(w, save).st, ks, k, s);
    DoKeeps(RunActs(w, save), Ask(OpCommit(ks, s)));
  }

  /** Session `s` fills entry `id` for key `k` throughout `save` and commits it, and it survives `acts`. */
  ghost predicate Survives(w: World, save: seq<Act>, ks: seq<Key>, acts: seq<Act>, id: Id, k: Key, s: Session) {
    && Good(w) && AllAllowed(w, save) && id in w.st.entries && k in ks && Fills(RunActs(w, save).st, id, k, s)
    && AllAllowed(Saved(w, save, ks, s), acts) && id in RunActs(Saved(w, save, ks, s), acts).st.entries
  }

  /** The world after the save and the run that follows it. */
  ghost function End(w: World, save: seq<Act>, ks: seq<Key>, acts: seq<Act>, id: Id, k: Key, s: Session): World
    requires Survives(w, save, ks, acts, id, k, s)
  {
    RunActs(Saved(w, save, ks, s), acts)
  }

  /** Where the entry begins in the server's memory, and its size. */
  ghost predicate Sits(w: World, id: Id, at: int, size: int) {
    id in w.st.entries && at == w.base + w.st.entries[id].offset && size == w.st.entries[id].size
  }

  /** A load that reads byte `b` of `layer` of the entry, as chunk `j` of its own. */
  ghost predicate LoadsFrom(u: L.Transfer, j: nat, at: int, layer: nat) {
    L.Placed(u) && u.first <= layer < u.stop && j < |u.entries| == |u.pos| && u.entries[j] == at
  }

  /** What such a load puts in its staging region for that byte. */
  ghost function LoadedByte(server: L.Memory, g: L.Geometry, u: L.Transfer, workerPosts: bool, other: L.Memory,
                            j: nat, at: int, layer: nat, b: nat): int
    requires LoadsFrom(u, j, at, layer)
  {
    L.Loaded(g, u, workerPosts, other, server)(u.base + layer * u.room * g.layerBytes + u.pos[j] * g.layerBytes + b)
  }

  /** The transfer moves `layer` of the entry for key `k`. */
  ghost predicate Moves(a: Act, k: Key, s: Session, layer: nat) {
    a.Send? && a.session == s && k in a.keys && |a.t.pos| == |a.keys| && a.t.first <= layer < a.t.stop
  }

  /** What the transfer had in its staging region for byte `b` of `layer` of the entry for `k`. */
  ghost function StagedByte(a: Act, k: Key, s: Session, layer: nat, b: nat): int
    requires Moves(a, k, s, layer)
  {
    var i, len := Index(a.keys, k), a.g.layerBytes;
    a.client(a.t.base + layer * a.t.room * len + a.t.pos[i] * len + b)
  }

  /**
   From one client to another. A session fills an entry in any number of transfers, among any other requests and
   transfers, and commits it. After any further run that the entry survives, every byte that any client loads
   from it, in either mode, is the one staged by the last transfer that covered it before the commit.
   */
  lemma SavedIsLoaded(w: World, save: seq<Act>, ks: seq<Key>, acts: seq<Act>, id: Id, k: Key, s: Session,
                      at: int, size: int, g: L.Geometry, u: L.Transfer, workerPosts: bool, other: L.Memory, j: nat,
                      layer: nat, b: nat)
    requires Sits(w, id, at, size) && b < g.layerBytes && layer * g.layerBytes + b < size
    requires LoadsFrom(u, j, at, layer) && Survives(w, save, ks, acts, id, k, s)
    ensures var x := layer * g.layerBytes + b;
            LoadedByte(End(w, save, ks, acts, id, k, s).server, g, u, workerPosts, other, j, at, layer, b)
            == LastStaged(save, k, s, x, w.server(at + x))
  {
    hide Good, AllAllowed, RunActs, L.Placed, L.Loaded, Saved, LastStaged, Fills, SameVersion;
    SavedIs(w, save, ks, id, k, s, layer * g.layerBytes + b);
    var w1 := Saved(w, save, ks, s);
    CommittedBytesStay(w1, acts, id);
    SameVersionIs(w.st.entries[id], w1.st.entries[id]);
    SameVersionIs(w1.st.entries[id], RunActs(w1, acts).st.entries[id]);
    CommittedIsLoaded(w1, acts, id, g, u, workerPosts, other, j, layer, b);
  }

  lemma SameVersionIs(a: Entry, b: Entry)
    requires SameVersion(a, b)
    ensures a.offset == b.offset && a.size == b.size
  {
  }

  /**
   Layer by layer: what transfer `n` of the save staged for byte `b` of `layer` is what is loaded, if no later
   transfer of the save covers that byte.
   */
  lemma StoredIsLoaded(w: World, save: seq<Act>, n: nat, ks: seq<Key>, acts: seq<Act>, id: Id, k: Key, s: Session,
                       at: int, size: int, u: L.Transfer, workerPosts: bool, other: L.Memory, j: nat, layer: nat, b: nat)
    requires n < |save| && Moves(save[n], k, s, layer) && b < save[n].g.layerBytes
    requires forall m :: n < m < |save| ==> !Covers(save[m], k, s, layer * save[n].g.layerBytes + b)
    requires Sits(w, id, at, size) && LoadsFrom(u, j, at, layer) && Survives(w, save, ks, acts, id, k, s)
    ensures LoadedByte(End(w, save, ks, acts, id, k, s).server, save[n].g, u, workerPosts, other, j, at, layer, b)
            == StagedByte(save[n], k, s, layer, b)
  {
    hide Staged, Covers, LastStaged, Index, End, Survives, LoadedByte, LoadsFrom, StagedByte;
    var a, x := save[n], layer * save[n].g.layerBytes + b;
    StagedAt(a, k, s, layer, b);
    MovedIsInside(w, save, n, ks, acts, id, k, s, layer, b);
    SavedIsLoaded(w, save, ks, acts, id, k, s, at, size, a.g, u, workerPosts, other, j, layer, b);
    LastStagedIs(save, k, s, x, w.server(at + x), n);
  }

  lemma MovedIsInside(w: World, save: seq<Act>, n: nat, ks: seq<Key>, acts: seq<Act>, id: Id, k: Key, s: Session,
                      layer: nat, b: nat)
    requires Survives(w, save, ks, acts, id, k, s)
    requires n < |save| && Moves(save[n], k, s, layer) && b < save[n].g.layerBytes
    ensures id in w.st.entries && layer * save[n].g.layerBytes + b < w.st.entries[id].size
  {
    hide Good, AllAllowed, RunActs, Fills, Moves;
    InsideAt(w, save, n, id, k, s, layer, b);
  }

  /** A transfer stays within the size of the entry it fills. */
  lemma {:induction false} InsideAt(w: World, save: seq<Act>, n: nat, id: Id, k: Key, s: Session, layer: nat, b: nat)
    requires Good(w) && AllAllowed(w, save) && id in w.st.entries && Fills(RunActs(w, save).st, id, k, s)
    requires n < |save| && Moves(save[n], k, s, layer) && b < save[n].g.layerBytes
    ensures layer * save[n].g.layerBytes + b < w.st.entries[id].size
    decreases |save|
  {
    hide Good, Allowed, Do, Moves;
    FilledThroughout(w, save, id, k, s);
    if n == 0 {
      FitsNow(w, save[0], id, k, s, layer, b);
    } else {
      var w1 := Do(w, save[0]);
      GoodIds(w, id);
      DoKeeps(w, save[0]);
      NumbersGrow(w, save[0]);
      StillThere(w1, save[1..], id);
      FilledThroughout(w1, save[1..], id, k, s);
      FilledBefore(w, save[0], id, k, s);
      InsideAt(w1, save[1..], n - 1, id, k, s, layer, b);
    }
  }

  lemma FitsNow(w: World, a: Act, id: Id, k: Key, s: Session, layer: nat, b: nat)
    requires Allowed(w, a) && Fills(w.st, id, k, s) && Moves(a, k, s, layer) && b < a.g.layerBytes
    ensures layer * a.g.layerBytes + b < w.st.entries[id].size
  {
    var i := Index(a.keys, k);
    assert FillsOwn(w, a.g, a.keys[i], s, a.t.entries[i]);
    L.InsideEntry(layer, a.g.layers, a.g.layerBytes);
  }

  lemma StagedAt(a: Act, k: Key, s: Session, layer: nat, b: nat)
    requires Moves(a, k, s, layer) && b < a.g.layerBytes
    ensures Covers(a, k, s, layer * a.g.layerBytes + b)
    ensures Staged(a, k, layer * a.g.layerBytes + b) == StagedByte(a, k, s, layer, b)
  {
    var len := a.g.layerBytes;
    SplitAt(b, layer, len);
    MulLe(a.t.first, layer, len);
    L.InsideEntry(layer, a.t.stop, len);
  }

  lemma ByteIs(m: L.Memory, n: L.Memory, base: int, e: Entry, x: int)
    requires SameBytes(m, n, base, e) && 0 <= x < e.size
    ensures m(base + e.offset + x) == n(base + e.offset + x)
  {
  }
}
