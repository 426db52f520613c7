/**
 The eviction order against a clock: every use of a key is stamped with the time it happened, and the
 store's order is the order of the stamps.
 */
module StoreRecency {
  import opened Wrappers
  import E = Extents
  import opened Store
  import opened StoreInv
  import opened StoreRuns
  import opened StoreSteps

  /** When each key was last used. */
  datatype Clock = Clock(stamps: map<Key, nat>, now: nat)

  function Use(c: Clock, k: Key): Clock { Clock(c.stamps[k := c.now], c.now + 1) }

  function UseAll(c: Clock, ks: seq<Key>): Clock
    decreases |ks|
  {
    if ks == [] then c else UseAll(Use(c, ks[0]), ks[1..])
  }

  /** Stamps lie in the past and grow along the order. */
  ghost predicate Timed(lru: seq<Key>, c: Clock) {
    && (forall k :: k in lru ==> k in c.stamps && c.stamps[k] < c.now)
    && (forall i, j :: 0 <= i < j < |lru| ==>
          lru[i] in c.stamps && lru[j] in c.stamps && c.stamps[lru[i]] < c.stamps[lru[j]])
  }

  /** What a request uses: found chunks, chunks a writer found cached, and committed chunks. */
  function AllocClock(st: State, c: Clock, ks: seq<Key>, size: int, s: Session, skip: bool): Clock
    decreases |ks|
  {
    if ks == [] then c
    else
      var (a, st1) := AllocateOne(st, ks[0], size, s, skip);
      AllocClock(st1, if a == Exists then Use(c, ks[0]) else c, ks[1..], size, s, skip)
  }

  function CommitClock(st: State, c: Clock, ks: seq<Key>, s: Session): Clock
    decreases |ks|
  {
    if ks == [] then c
    else CommitClock(CommitOne(st, ks[0], s), if (ks[0], s) in st.writing then Use(c, ks[0]) else c, ks[1..], s)
  }

  function Tick(st: State, c: Clock, op: Op): Clock {
    match op
    case OpLookup(hashes, ranks, _, _, _) =>
      UseAll(c, Rows(hashes[..Min(Hits(st, hashes, ranks), |hashes|)], ranks))
    case OpAlloc(keys, size, session, skip) => AllocClock(st, c, keys, size, session, skip)
    case OpCommit(keys, session) => CommitClock(st, c, keys, session)
    case _ => c
  }

  // ------------------------------------------------------------ list lemmas

  lemma {:induction false} WithoutIn(s: seq<Key>, k: Key)
    ensures forall x :: x in Without(s, k) ==> x in s
  {
    if s != [] && s[0] != k { WithoutIn(s[1..], k); }
  }

  lemma {:induction false} TimedWithout(s: seq<Key>, k: Key, c: Clock)
    requires Timed(s, c)
    ensures Timed(Without(s, k), c) && k !in Without(s, k)
  {
    if s != [] {
      var rest := s[1..];
      assert Timed(rest, c);
      forall x | x in rest ensures c.stamps[s[0]] < c.stamps[x] {
        var i :| 0 <= i < |rest| && rest[i] == x;
        assert s[i + 1] == x;
      }
      if s[0] != k {
        TimedWithout(rest, k, c);
        WithoutIn(rest, k);
        TimedCons(s[0], Without(rest, k), c);
      }
    }
  }

  lemma TimedCons(k: Key, s: seq<Key>, c: Clock)
    requires Timed(s, c) && k in c.stamps && c.stamps[k] < c.now && forall x :: x in s ==> c.stamps[k] < c.stamps[x]
    ensures Timed([k] + s, c)
  {
    var t := [k] + s;
    forall i, j | 0 <= i < j < |t| ensures t[i] in c.stamps && t[j] in c.stamps && c.stamps[t[i]] < c.stamps[t[j]] {
      assert t[j] == s[j - 1] && t[j] in s;
      assert i > 0 ==> t[i] == s[i - 1];
    }
  }

  lemma TimedSnoc(s: seq<Key>, k: Key, c: Clock)
    requires Timed(s, c) && k !in s
    ensures Timed(s + [k], Use(c, k))
  {
    var t, d := s + [k], Use(c, k);
    forall i, j | 0 <= i < j < |t| ensures t[i] in d.stamps && t[j] in d.stamps && d.stamps[t[i]] < d.stamps[t[j]] {
      assert t[i] in s;
      assert j < |s| ==> t[j] in s;
    }
  }

  /** Moving a key to the end and stamping it keeps the order. */
  lemma TouchTimed(s: seq<Key>, k: Key, c: Clock)
    requires Timed(s, c)
    ensures Timed(Without(s, k) + [k], Use(c, k))
  {
    hide Timed;
    TimedWithout(s, k, c);
    TimedSnoc(Without(s, k), k, c);
  }

  // --------------------------------------------------------------- requests

  lemma {:induction false} TouchAllTimed(st: State, ks: seq<Key>, c: Clock)
    requires Timed(st.lru, c)
    ensures Timed(TouchAll(st, ks).lru, UseAll(c, ks))
    decreases |ks|
  {
    hide Timed;
    if ks != [] {
      TouchTimed(st.lru, ks[0], c);
      TouchAllTimed(st.(lru := Without(st.lru, ks[0]) + [ks[0]]), ks[1..], Use(c, ks[0]));
    }
  }

  lemma {:induction false} PinAllOrder(st: State, ks: seq<Key>)
    ensures PinAll(st, ks).lru == st.lru
    decreases |ks|
  {
    if ks != [] { PinAllOrder(if Cached(st, ks[0]) then Pin(st, ks[0]) else st, ks[1..]); }
  }

  lemma {:induction false} UnpinAllOrder(st: State, ks: seq<Key>)
    ensures UnpinAll(st, ks).lru == st.lru
    decreases |ks|
  {
    if ks != [] { UnpinAllOrder(Unpin(st, ks[0]), ks[1..]); }
  }

  lemma {:induction false} ExpireOrder(st: State, now: real, l: nat)
    ensures ExpireFrom(st, now, l).lru == st.lru
    decreases st.nextLease - l
  {
    if l < st.nextLease {
      if l in st.leases { UnpinAllOrder(st.(leases := st.leases - {l}), st.leases[l].keys); }
      var st1 := if Expired(st, now, l) then Release(st, l).1 else st;
      if st1.nextLease == st.nextLease { ExpireOrder(st1, now, l + 1); }
    }
  }

  lemma EvictTimed(st: State, c: Clock)
    requires Timed(st.lru, c)
    ensures Timed(EvictOne(st).1.lru, c)
  {
    var j := Victim(st, 0);
    if j < |st.lru| { TimedWithout(st.lru, st.lru[j], c); }
  }

  lemma {:induction false} AllocateTimed(st: State, size: int, c: Clock)
    requires Timed(st.lru, c)
    ensures Timed(Allocate(st, size).1.lru, c)
    decreases |st.lru|
  {
    hide Timed;
    EvictTimed(st, c);
    if EvictOne(st).0 { AllocateTimed(EvictOne(st).1, size, c); }
  }

  lemma {:induction false} ShrinkTimed(st: State, c: Clock)
    requires Timed(st.lru, c)
    ensures Timed(Shrink(st).lru, c)
    decreases |st.lru|
  {
    hide Timed;
    EvictTimed(st, c);
    if EvictOne(st).0 { ShrinkTimed(EvictOne(st).1, c); }
  }

  lemma {:induction false} FlushTimed(st: State, ks: seq<Key>, c: Clock)
    requires Timed(st.lru, c)
    ensures Timed(FlushKeys(st, ks).lru, c)
    decreases |ks|
  {
    hide Timed;
    if ks != [] {
      TimedWithout(st.lru, ks[0], c);
      FlushTimed(if Cached(st, ks[0]) && Pins(st, ks[0]) == 0 then Drop(st, ks[0]) else st, ks[1..], c);
    }
  }

  lemma {:induction false} AllocateAllTimed(st: State, c: Clock, ks: seq<Key>, size: int, s: Session, skip: bool)
    requires Timed(st.lru, c)
    ensures Timed(AllocateForWrite(st, ks, size, s, skip).1.lru, AllocClock(st, c, ks, size, s, skip))
    decreases |ks|
  {
    hide Timed;
    if ks != [] {
      var (a, st1) := AllocateOne(st, ks[0], size, s, skip);
      TouchTimed(st.lru, ks[0], c);
      AllocateTimed(st, size, c);
      AllocateAllTimed(st1, if a == Exists then Use(c, ks[0]) else c, ks[1..], size, s, skip);
    }
  }

  lemma CommitOneTimed(st: State, k: Key, s: Session, c: Clock)
    requires Inv(st) && Timed(st.lru, c)
    ensures Timed(CommitOne(st, k, s).lru, if (k, s) in st.writing then Use(c, k) else c)
  {
    hide Timed, Balanced;
    if (k, s) in st.writing {
      CommitOneIs(st, k, s);
      TimedWithout(st.lru, k, c);
      TouchTimed(st.lru, k, c);
      TouchTimed(Without(st.lru, k), k, c);
    }
  }

  lemma {:induction false} CommitAllTimed(st: State, c: Clock, ks: seq<Key>, s: Session)
    requires Inv(st) && Timed(st.lru, c)
    ensures Timed(Commit(st, ks, s).lru, CommitClock(st, c, ks, s))
    decreases |ks|
  {
    hide Timed, Inv;
    if ks != [] {
      CommitOneTimed(st, ks[0], s, c);
      CommitOneKeeps(st, ks[0], s);
      CommitAllTimed(CommitOne(st, ks[0], s), if (ks[0], s) in st.writing then Use(c, ks[0]) else c, ks[1..], s);
    }
  }

  lemma {:induction false} AbortOrder(st: State, ks: seq<Key>, s: Session)
    ensures Abort(st, ks, s).lru == st.lru
    decreases |ks|
  {
    if ks != [] { AbortOrder(AbortOne(st, ks[0], s), ks[1..], s); }
  }

  /** Every request keeps the order that of last use. */
  lemma StepTimed(st: State, c: Clock, op: Op)
    requires Inv(st) && Timed(st.lru, c)
    ensures Timed(Step(st, op).lru, Tick(st, c, op))
  {
    hide Timed, Inv;
    match op
    case OpLookup(hashes, ranks, pin, expires, owner) =>
      var full := Rows(hashes[..Min(Hits(st, hashes, ranks), |hashes|)], ranks);
      TouchAllTimed(st, full, c);
      PinAllOrder(TouchAll(st, full), full);
    case OpRelease(l) => if l in st.leases { UnpinAllOrder(st.(leases := st.leases - {l}), st.leases[l].keys); }
    case OpExpire(now) => ExpireOrder(st, now, 0);
    case OpAlloc(keys, size, session, skip) => AllocateAllTimed(st, c, keys, size, session, skip);
    case OpCommit(keys, session) => CommitAllTimed(st, c, keys, session);
    case OpAbort(keys, session) => AbortOrder(st, keys, session);
    case OpDropSession(session, mine) => AbortOrder(st, mine, session);
    case OpFlush => FlushTimed(st, st.lru, c);
    case OpSetCapacity(bytes) => ShrinkTimed(st.(capacity := Max(0, Min(bytes, PoolBytes(st.pool)))), c);
  }

  /** The clock after a whole run. */
  function RunClock(st: State, c: Clock, ops: seq<Op>): Clock
    decreases |ops|
  {
    if ops == [] then c else RunClock(Step(st, ops[0]), Tick(st, c, ops[0]), ops[1..])
  }

  lemma {:induction false} RunTimed(st: State, c: Clock, ops: seq<Op>)
    requires Inv(st) && Timed(st.lru, c) && Legal(st, ops)
    ensures Timed(Run(st, ops).lru, RunClock(st, c, ops))
    decreases |ops|
  {
    hide Timed, Inv;
    if ops != [] {
      StepTimed(st, c, ops[0]);
      StepKeeps(st, ops[0]);
      RunTimed(Step(st, ops[0]), Tick(st, c, ops[0]), ops[1..]);
    }
  }

  /** `v` is unpinned, and every other unpinned chunk was used after it. */
  ghost predicate Oldest(st: State, c: Clock, v: Key) {
    && Cached(st, v) && Pins(st, v) == 0
    && forall k :: k in st.index && Pins(st, k) == 0 && k != v ==>
         v in c.stamps && k in c.stamps && c.stamps[v] < c.stamps[k]
  }

  /**
   In every reachable state an eviction takes an unpinned chunk, and among the unpinned chunks the one
   whose last use is longest ago.
   */
  lemma EvictsLeastRecent(poolBytes: int, page: E.pos, capacity: Option<int>, ops: seq<Op>)
    requires poolBytes >= 0 && Legal(Init(poolBytes, page, capacity), ops)
    ensures var st := Run(Init(poolBytes, page, capacity), ops);
            var c := RunClock(Init(poolBytes, page, capacity), Clock(map[], 0), ops);
            EvictOne(st).0 ==> exists v :: Oldest(st, c, v) && EvictOne(st).1 == Drop(st, v)
  {
    hide Inv;
    var st0 := Init(poolBytes, page, capacity);
    InitInv(poolBytes, page, capacity);
    RunTimed(st0, Clock(map[], 0), ops);
    RunKeeps(st0, ops);
    VictimOldest(Run(st0, ops), RunClock(st0, Clock(map[], 0), ops));
  }

  lemma VictimOldest(st: State, c: Clock)
    requires Inv(st) && Timed(st.lru, c)
    ensures EvictOne(st).0 ==> exists v :: Oldest(st, c, v) && EvictOne(st).1 == Drop(st, v)
  {
    hide PagesOk, PinsOk, WritingOk, RetiredOk, Drop;
    var j := Victim(st, 0);
    if j < |st.lru| {
      var v := st.lru[j];
      forall k | k in st.index && Pins(st, k) == 0 && k != v
        ensures v in c.stamps && k in c.stamps && c.stamps[v] < c.stamps[k]
      {
        assert k in st.lru;
        var n :| 0 <= n < |st.lru| && st.lru[n] == k;
        assert Cached(st, k);
        assert n > j;
      }
      assert Oldest(st, c, v) && EvictOne(st).1 == Drop(st, v);
    }
  }
}
