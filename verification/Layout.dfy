/**
 Where cached chunks lie and which copies move them. On the server a chunk is one entry, layer after
 layer. On the client a staging region is laid out layer by layer, each layer holding that layer of
 every chunk. Addresses are unbounded.
 */
module Layout {
  import opened Arithmetic

  datatype Geometry = Geometry(layers: nat, layerBytes: nat)

  /** A transfer: entry `i` pairs with position `pos[i]` of a staging region for `room` chunks. */
  datatype Transfer = Transfer(base: int, room: nat, pos: seq<nat>, entries: seq<int>, first: nat, stop: nat)

  datatype Op = Op(local: int, remote: int, len: nat)

  function StagingAt(g: Geometry, t: Transfer, layer: nat, i: nat): int
    requires i < |t.pos|
  {
    t.base + (layer * t.room + t.pos[i]) * g.layerBytes
  }

  function EntryAt(g: Geometry, t: Transfer, layer: nat, i: nat): int
    requires i < |t.entries|
  {
    t.entries[i] + layer * g.layerBytes
  }

  function OpAt(g: Geometry, t: Transfer, layer: nat, i: nat, stagingIsLocal: bool): Op
    requires i < |t.pos| == |t.entries|
  {
    var s, e := StagingAt(g, t, layer, i), EntryAt(g, t, layer, i);
    if stagingIsLocal then Op(s, e, g.layerBytes) else Op(e, s, g.layerBytes)
  }

  /** The whole plan for `count` layers: copy `k` is entry `k % n` of the layer `k / n` after the first. */
  function Plan(g: Geometry, t: Transfer, count: nat, stagingIsLocal: bool): seq<Op>
    requires |t.pos| == |t.entries|
  {
    var n := |t.entries|;
    if n == 0 then [] else seq(count * n, k requires 0 <= k => OpAt(g, t, t.first + k / n, k % n, stagingIsLocal))
  }

  /** The copies of one layer, in the order of the entries. */
  function LayerOps(g: Geometry, t: Transfer, layer: nat, stagingIsLocal: bool): (ops: seq<Op>)
    requires |t.pos| == |t.entries|
    ensures |ops| == |t.entries|
  {
    seq(|t.entries|, i requires 0 <= i < |t.entries| => OpAt(g, t, layer, i, stagingIsLocal))
  }

  lemma StagingIs(g: Geometry, t: Transfer, layer: nat, i: nat)
    requires i < |t.pos|
    ensures StagingAt(g, t, layer, i) == t.base + layer * t.room * g.layerBytes + t.pos[i] * g.layerBytes
  {
  }

  /** Where the copies of a plan lie: an op for the chunk at position `c`, between its entry and the staging region. */
  ghost predicate Joins(o: Op, staging: int, entry: int, len: nat, stagingIsLocal: bool) {
    o.len == len && o.local == (if stagingIsLocal then staging else entry)
    && o.remote == (if stagingIsLocal then entry else staging)
  }

  /**
   Copies are ordered layer by layer: cutting the plan every `n` copies gives one group per layer, in the order of the
   entries. In the staging region one layer of all chunks is contiguous, chunk after chunk.
   */
  lemma LayerByLayer(g: Geometry, t: Transfer, count: nat, stagingIsLocal: bool, i: nat)
    requires |t.pos| == |t.entries| && i < count
    ensures var n, plan, layer := |t.entries|, Plan(g, t, count, stagingIsLocal), t.first + i;
      && |plan| == count * n && 0 <= i * n <= (i + 1) * n <= |plan|
      && plan[i * n..(i + 1) * n] == LayerOps(g, t, layer, stagingIsLocal)
      && forall j :: 0 <= j < n ==>
           Joins(LayerOps(g, t, layer, stagingIsLocal)[j],
                 t.base + layer * t.room * g.layerBytes + t.pos[j] * g.layerBytes,
                 t.entries[j] + layer * g.layerBytes, g.layerBytes, stagingIsLocal)
  {
    forall j | 0 <= j < |t.pos|
      ensures StagingAt(g, t, t.first + i, j) == t.base + (t.first + i) * t.room * g.layerBytes + t.pos[j] * g.layerBytes
    {
      StagingIs(g, t, t.first + i, j);
    }
    CutIsLayer(g, t, count, stagingIsLocal, i);
  }

  lemma CutIsLayer(g: Geometry, t: Transfer, count: nat, stagingIsLocal: bool, i: nat)
    requires |t.pos| == |t.entries| && i < count
    ensures var n, plan := |t.entries|, Plan(g, t, count, stagingIsLocal);
      && |plan| == count * n && 0 <= i * n <= (i + 1) * n <= |plan|
      && plan[i * n..(i + 1) * n] == LayerOps(g, t, t.first + i, stagingIsLocal)
  {
    var n, plan := |t.entries|, Plan(g, t, count, stagingIsLocal);
    assert (i + 1) * n == i * n + n;
    MulLe(i + 1, count, n);
    var cut := plan[i * n..(i + 1) * n];
    forall r | 0 <= r < n ensures cut[r] == OpAt(g, t, t.first + i, r, stagingIsLocal) {
      SplitAt(r, i, n);
    }
  }

  // ---- Running copies ----

  type Memory = int -> int

  /** A copy as seen by whoever writes: the bytes from `source` at `from` go to `to`. */
  datatype Copy = Copy(from: int, to: int)

  function Copies(ops: seq<Op>, localToRemote: bool): (r: seq<Copy>)
    ensures |r| == |ops|
  {
    seq(|ops|, i requires 0 <= i < |ops| =>
      if localToRemote then Copy(ops[i].local, ops[i].remote) else Copy(ops[i].remote, ops[i].local))
  }

  function Put(source: Memory, c: Copy, target: Memory, len: nat): Memory {
    a => if c.to <= a < c.to + len then source(c.from + a - c.to) else target(a)
  }

  function Run(source: Memory, cs: seq<Copy>, target: Memory, len: nat): Memory {
    if cs == [] then target else Put(source, cs[|cs| - 1], Run(source, cs[..|cs| - 1], target, len), len)
  }

  ghost predicate Apart(a: int, b: int, len: nat) { a + len <= b || b + len <= a }

  ghost predicate TargetsApart(cs: seq<Copy>, len: nat) {
    forall i, j :: 0 <= i < j < |cs| ==> Apart(cs[i].to, cs[j].to, len)
  }

  /** Copies to disjoint places all arrive, whatever their order. */
  lemma {:induction false} RunCopies(source: Memory, cs: seq<Copy>, target: Memory, len: nat, k: nat, b: nat)
    requires TargetsApart(cs, len) && k < |cs| && b < len
    ensures Run(source, cs, target, len)(cs[k].to + b) == source(cs[k].from + b)
  {
    var n := |cs| - 1;
    if k < n {
      RunCopies(source, cs[..n], target, len, k, b);
      assert Apart(cs[k].to, cs[n].to, len);
    }
  }

  /** Bytes outside every target keep their value. */
  lemma {:induction false} RunSpares(source: Memory, cs: seq<Copy>, target: Memory, len: nat, a: int)
    requires forall k :: 0 <= k < |cs| ==> !(cs[k].to <= a < cs[k].to + len)
    ensures Run(source, cs, target, len)(a) == target(a)
  {
    if cs != [] { RunSpares(source, cs[..|cs| - 1], target, len, a); }
  }

  // ---- Plans have disjoint targets ----

  /** Every chunk has a place of its own in the staging region; entries may repeat. */
  ghost predicate Placed(t: Transfer) {
    && |t.pos| == |t.entries| && t.first <= t.stop
    && (forall i :: 0 <= i < |t.pos| ==> t.pos[i] < t.room)
    && (forall i, j :: 0 <= i < j < |t.pos| ==> t.pos[i] != t.pos[j])
  }

  /** Besides, every chunk has an entry of its own. */
  ghost predicate Wellformed(g: Geometry, t: Transfer) {
    && Placed(t) && t.stop <= g.layers
    && (forall i, j :: 0 <= i < j < |t.entries| ==> Apart(t.entries[i], t.entries[j], g.layers * g.layerBytes))
  }

  lemma CellsApart(x: nat, y: nat, len: nat, base: int)
    requires x != y
    ensures Apart(base + x * len, base + y * len, len)
  {
    if x < y {
      assert (x + 1) * len <= y * len;
    } else {
      assert (y + 1) * len <= x * len;
    }
  }

  lemma CellsDiffer(l: nat, p: nat, m: nat, q: nat, room: nat)
    requires p < room && q < room && (l != m || p != q)
    ensures l * room + p != m * room + q
  {
    if l < m {
      assert (l + 1) * room <= m * room;
    } else if m < l {
      assert (m + 1) * room <= l * room;
    }
  }

  /** Two different cells of the staging region do not overlap. */
  lemma StagingApart(g: Geometry, t: Transfer, l: nat, i: nat, m: nat, j: nat)
    requires Placed(t) && i < |t.pos| && j < |t.pos| && (l != m || i != j)
    ensures Apart(StagingAt(g, t, l, i), StagingAt(g, t, m, j), g.layerBytes)
  {
    assert i < j ==> t.pos[i] != t.pos[j];
    assert j < i ==> t.pos[j] != t.pos[i];
    CellsDiffer(l, t.pos[i], m, t.pos[j], t.room);
    CellsApart(l * t.room + t.pos[i], m * t.room + t.pos[j], g.layerBytes, t.base);
  }

  /** Two different layers of entries do not overlap, within one entry or across entries. */
  lemma EntriesApart(g: Geometry, t: Transfer, l: nat, i: nat, m: nat, j: nat)
    requires Wellformed(g, t) && i < |t.entries| && j < |t.entries| && (l != m || i != j)
    requires l < g.layers && m < g.layers
    ensures Apart(EntryAt(g, t, l, i), EntryAt(g, t, m, j), g.layerBytes)
  {
    if i == j {
      CellsApart(l, m, g.layerBytes, t.entries[i]);
    } else {
      InsideEntry(l, g.layers, g.layerBytes);
      InsideEntry(m, g.layers, g.layerBytes);
      assert i < j ==> Apart(t.entries[i], t.entries[j], g.layers * g.layerBytes);
      assert j < i ==> Apart(t.entries[j], t.entries[i], g.layers * g.layerBytes);
    }
  }

  lemma InsideEntry(l: nat, layers: nat, len: nat)
    requires l < layers
    ensures 0 <= l * len && l * len + len <= layers * len
  {
    assert (l + 1) * len <= layers * len;
  }

  // ---- The moves of a plan, whoever posts it ----

  function Move(g: Geometry, t: Transfer, layer: nat, i: nat, toEntries: bool): Copy
    requires i < |t.pos| == |t.entries|
  {
    var s, e := StagingAt(g, t, layer, i), EntryAt(g, t, layer, i);
    if toEntries then Copy(s, e) else Copy(e, s)
  }

  function LayerMoves(g: Geometry, t: Transfer, layer: nat, toEntries: bool): (r: seq<Copy>)
    requires |t.pos| == |t.entries|
    ensures |r| == |t.entries|
  {
    seq(|t.entries|, i requires 0 <= i < |t.entries| => Move(g, t, layer, i, toEntries))
  }

  function Moves(g: Geometry, t: Transfer, upto: nat, toEntries: bool): seq<Copy>
    requires |t.pos| == |t.entries|
  {
    if upto <= t.first then [] else Moves(g, t, upto - 1, toEntries) + LayerMoves(g, t, upto - 1, toEntries)
  }

  lemma CopiesConcat(a: seq<Op>, b: seq<Op>, localToRemote: bool)
    ensures Copies(a + b, localToRemote) == Copies(a, localToRemote) + Copies(b, localToRemote)
  {
  }

  lemma PlanNext(g: Geometry, t: Transfer, count: nat, stagingIsLocal: bool)
    requires |t.pos| == |t.entries|
    ensures Plan(g, t, count + 1, stagingIsLocal)
            == Plan(g, t, count, stagingIsLocal) + LayerOps(g, t, t.first + count, stagingIsLocal)
  {
    var n := |t.entries|;
    var plan := Plan(g, t, count + 1, stagingIsLocal);
    assert (count + 1) * n == count * n + n;
    CutIsLayer(g, t, count + 1, stagingIsLocal, count);
    assert plan[..count * n] == Plan(g, t, count, stagingIsLocal);
    assert plan == plan[..count * n] + plan[count * n..(count + 1) * n];
  }

  /** The worker's plan and the server's plan move the same bytes in the same order. */
  lemma {:induction false} PlanMoves(g: Geometry, t: Transfer, count: nat, stagingIsLocal: bool, toEntries: bool)
    requires |t.pos| == |t.entries|
    ensures Copies(Plan(g, t, count, stagingIsLocal), stagingIsLocal == toEntries)
            == Moves(g, t, t.first + count, toEntries)
  {
    if count > 0 {
      PlanMoves(g, t, count - 1, stagingIsLocal, toEntries);
      PlanNext(g, t, count - 1, stagingIsLocal);
      var last := LayerOps(g, t, t.first + count - 1, stagingIsLocal);
      hide Plan;
      CopiesConcat(Plan(g, t, count - 1, stagingIsLocal), last, stagingIsLocal == toEntries);
      assert Copies(last, stagingIsLocal == toEntries) == LayerMoves(g, t, t.first + count - 1, toEntries);
    }
  }

  lemma {:induction false} MovesOnly(g: Geometry, t: Transfer, upto: nat, toEntries: bool, k: nat)
      returns (layer: nat, i: nat)
    requires |t.pos| == |t.entries| && k < |Moves(g, t, upto, toEntries)|
    ensures t.first <= layer < upto && i < |t.entries|
    ensures Moves(g, t, upto, toEntries)[k] == Move(g, t, layer, i, toEntries)
  {
    var before := |Moves(g, t, upto - 1, toEntries)|;
    if k < before {
      layer, i := MovesOnly(g, t, upto - 1, toEntries, k);
    } else {
      layer, i := upto - 1, k - before;
    }
  }

  lemma {:induction false} MovesHave(g: Geometry, t: Transfer, upto: nat, toEntries: bool, layer: nat, i: nat)
      returns (k: nat)
    requires |t.pos| == |t.entries| && t.first <= layer < upto && i < |t.entries|
    ensures k < |Moves(g, t, upto, toEntries)| && Moves(g, t, upto, toEntries)[k] == Move(g, t, layer, i, toEntries)
  {
    if layer == upto - 1 {
      k := |Moves(g, t, upto - 1, toEntries)| + i;
    } else {
      k := MovesHave(g, t, upto - 1, toEntries, layer, i);
    }
  }

  lemma MoveTargetsApart(g: Geometry, t: Transfer, l: nat, i: nat, m: nat, j: nat, toEntries: bool)
    requires Placed(t) && i < |t.entries| && j < |t.entries| && (l != m || i != j)
    requires toEntries ==> Wellformed(g, t) && l < g.layers && m < g.layers
    ensures Apart(Move(g, t, l, i, toEntries).to, Move(g, t, m, j, toEntries).to, g.layerBytes)
  {
    if toEntries { EntriesApart(g, t, l, i, m, j); } else { StagingApart(g, t, l, i, m, j); }
  }

  lemma {:induction false} MovesApart(g: Geometry, t: Transfer, upto: nat, toEntries: bool)
    requires Placed(t) && (toEntries ==> Wellformed(g, t) && upto <= g.layers)
    ensures TargetsApart(Moves(g, t, upto, toEntries), g.layerBytes)
  {
    if upto > t.first {
      MovesApart(g, t, upto - 1, toEntries);
      var n := |Moves(g, t, upto - 1, toEntries)|;
      var cs := Moves(g, t, upto, toEntries);
      forall i, j | 0 <= i < j < |cs| ensures Apart(cs[i].to, cs[j].to, g.layerBytes) {
        if j >= n {
          if i >= n {
            MoveTargetsApart(g, t, upto - 1, i - n, upto - 1, j - n, toEntries);
          } else {
            var l, p := MovesOnly(g, t, upto - 1, toEntries, i);
            MoveTargetsApart(g, t, l, p, upto - 1, j - n, toEntries);
          }
        }
      }
    }
  }

  /** What the server holds after a store, and the client after a load, whoever posts the copies. */
  ghost function Stored(g: Geometry, t: Transfer, workerPosts: bool, client: Memory, server: Memory): Memory
    requires |t.pos| == |t.entries| && t.first <= t.stop
  {
    Run(client, Copies(Plan(g, t, t.stop - t.first, workerPosts), workerPosts), server, g.layerBytes)
  }

  ghost function Loaded(g: Geometry, t: Transfer, workerPosts: bool, client: Memory, server: Memory): Memory
    requires |t.pos| == |t.entries| && t.first <= t.stop
  {
    Run(server, Copies(Plan(g, t, t.stop - t.first, workerPosts), !workerPosts), client, g.layerBytes)
  }

  /**
   Every byte of every layer stored arrives in its entry. The client keeps byte `b` of a layer of the chunk at position
   `c` in the part of the staging region for that layer, behind the chunks before it.
   */
  lemma StoreLands(g: Geometry, t: Transfer, workerPosts: bool, client: Memory, server: Memory, layer: nat, i: nat, b: nat)
    requires Wellformed(g, t) && t.first <= layer < t.stop && i < |t.entries| && b < g.layerBytes
    ensures |t.pos| == |t.entries|
    ensures Stored(g, t, workerPosts, client, server)(t.entries[i] + layer * g.layerBytes + b)
            == client(t.base + layer * t.room * g.layerBytes + t.pos[i] * g.layerBytes + b)
  {
    StagingIs(g, t, layer, i);
    StoreCopies(g, t, workerPosts, client, server, layer, i, b);
  }

  lemma StoreCopies(g: Geometry, t: Transfer, workerPosts: bool, client: Memory, server: Memory, layer: nat, i: nat, b: nat)
    requires Wellformed(g, t) && t.first <= layer < t.stop && i < |t.entries| && b < g.layerBytes
    ensures |t.pos| == |t.entries|
    ensures Stored(g, t, workerPosts, client, server)(EntryAt(g, t, layer, i) + b) == client(StagingAt(g, t, layer, i) + b)
  {
    hide Run, Moves, StagingAt, EntryAt, Wellformed, Plan, Copies;
    Bounded(g, t);
    PlanMoves(g, t, t.stop - t.first, workerPosts, true);
    var k := MovesHave(g, t, t.stop, true, layer, i);
    MovesApart(g, t, t.stop, true);
    RunCopies(client, Moves(g, t, t.stop, true), server, g.layerBytes, k, b);
  }

  /** Every byte of every layer loaded is read from its entry. */
  lemma LoadReads(g: Geometry, t: Transfer, workerPosts: bool, client: Memory, server: Memory, layer: nat, i: nat, b: nat)
    requires Placed(t) && t.first <= layer < t.stop && i < |t.entries| && b < g.layerBytes
    ensures |t.pos| == |t.entries|
    ensures Loaded(g, t, workerPosts, client, server)(
              t.base + layer * t.room * g.layerBytes + t.pos[i] * g.layerBytes + b)
            == server(t.entries[i] + layer * g.layerBytes + b)
  {
    StagingIs(g, t, layer, i);
    LoadCopies(g, t, workerPosts, client, server, layer, i, b);
  }

  lemma LoadCopies(g: Geometry, t: Transfer, workerPosts: bool, client: Memory, server: Memory, layer: nat, i: nat, b: nat)
    requires Placed(t) && t.first <= layer < t.stop && i < |t.entries| && b < g.layerBytes
    ensures |t.pos| == |t.entries|
    ensures Loaded(g, t, workerPosts, client, server)(StagingAt(g, t, layer, i) + b) == server(EntryAt(g, t, layer, i) + b)
  {
    hide Run, Moves, StagingAt, EntryAt, Plan, Copies;
    PlanMoves(g, t, t.stop - t.first, workerPosts, false);
    var k := MovesHave(g, t, t.stop, false, layer, i);
    MovesApart(g, t, t.stop, false);
    RunCopies(server, Moves(g, t, t.stop, false), client, g.layerBytes, k, b);
  }

  /**
   Storing a chunk and loading its entry into any staging region, with any other chunks and any range of
   layers, gives back every byte of every layer both of them move, in either mode.
   */
  lemma RoundTrip(g: Geometry, t: Transfer, u: Transfer, store: bool, load: bool, client: Memory, server: Memory,
                  other: Memory, layer: nat, i: nat, j: nat, b: nat)
    requires Wellformed(g, t) && Placed(u) && i < |t.entries| && j < |u.entries| && t.entries[i] == u.entries[j]
    requires t.first <= layer < t.stop && u.first <= layer < u.stop && b < g.layerBytes
    ensures Loaded(g, u, load, other, Stored(g, t, store, client, server))(
              u.base + layer * u.room * g.layerBytes + u.pos[j] * g.layerBytes + b)
            == client(t.base + layer * t.room * g.layerBytes + t.pos[i] * g.layerBytes + b)
  {
    hide Stored, Loaded, Wellformed;
    Bounded(g, t);
    StoreLands(g, t, store, client, server, layer, i, b);
    LoadReads(g, u, load, other, Stored(g, t, store, client, server), layer, j, b);
  }

  lemma Bounded(g: Geometry, t: Transfer)
    requires Wellformed(g, t)
    ensures t.first <= t.stop <= g.layers && |t.pos| == |t.entries| && Placed(t)
  {
  }

  /** Storing changes no byte of the server outside the layers moved of the entries of the transfer. */
  lemma StoreSpares(g: Geometry, t: Transfer, workerPosts: bool, client: Memory, server: Memory, a: int)
    requires |t.pos| == |t.entries| && t.first <= t.stop
    requires forall i :: 0 <= i < |t.entries| ==>
               !(t.entries[i] + t.first * g.layerBytes <= a < t.entries[i] + t.stop * g.layerBytes)
    ensures Stored(g, t, workerPosts, client, server)(a) == server(a)
  {
    var cs := Moves(g, t, t.stop, true);
    PlanMoves(g, t, t.stop - t.first, workerPosts, true);
    hide Plan, Copies;
    forall k | 0 <= k < |cs| ensures !(cs[k].to <= a < cs[k].to + g.layerBytes) {
      var l, i := MovesOnly(g, t, t.stop, true, k);
      InsideEntry(l, t.stop, g.layerBytes);
      MulLe(t.first, l, g.layerBytes);
      assert !(t.entries[i] + t.first * g.layerBytes <= a < t.entries[i] + t.stop * g.layerBytes);
    }
    RunSpares(client, cs, server, g.layerBytes, a);
  }

  /** The byte lies in what a load of that layer writes for that chunk. */
  ghost predicate InCell(g: Geometry, t: Transfer, layer: nat, i: nat, a: int)
    requires i < |t.pos|
  {
    var cell := t.base + layer * t.room * g.layerBytes + t.pos[i] * g.layerBytes;
    cell <= a < cell + g.layerBytes
  }

  /** Loading changes no byte of the client outside the layers moved of the chunks of the transfer. */
  lemma LoadSpares(g: Geometry, t: Transfer, workerPosts: bool, client: Memory, server: Memory, a: int)
    requires |t.pos| == |t.entries| && t.first <= t.stop
    requires forall layer: nat, i: nat :: t.first <= layer < t.stop && i < |t.pos| ==> !InCell(g, t, layer, i, a)
    ensures Loaded(g, t, workerPosts, client, server)(a) == client(a)
  {
    var cs := Moves(g, t, t.stop, false);
    PlanMoves(g, t, t.stop - t.first, workerPosts, false);
    hide Plan, Copies, Moves, StagingAt;
    forall k | 0 <= k < |cs| ensures !(cs[k].to <= a < cs[k].to + g.layerBytes) {
      var l, i := MovesOnly(g, t, t.stop, false, k);
      StagingIs(g, t, l, i);
      assert !InCell(g, t, l, i, a);
    }
    RunSpares(server, cs, client, g.layerBytes, a);
  }
}
