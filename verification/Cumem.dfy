/**
 The chunked virtual-memory allocator: reserving, creating and mapping, unmapping and releasing, and
 giving an address range back. `err` is the process-wide error code, which stays set once it is set.
 */
module Cumem {
  import opened Device

  datatype Stage = Done | CreateFailed | MapFailed(mapped: nat) | AccessFailed

  datatype Outcome = Outcome(stage: Stage, handles: seq<nat>, d: Driver)

  /**
   Creating and mapping once the context is set. A creation that finds the error code already set
   releases the handles before it and returns, whether it failed itself or not.
   */
  function Build(d: Driver, f: Oracle, err: bool, base: int, sizes: seq<int>): Outcome {
    if err && sizes != [] then Outcome(CreateFailed, [], Create(d, f).1)
    else
      var b := CreateAll(d, f, |sizes|);
      if b.err || |b.handles| < |sizes| then Outcome(CreateFailed, b.handles, ReleaseAll(b.d, f, b.handles).1)
      else
        var (k, d1) := MapAll(b.d, f, base, sizes, b.handles, |sizes|);
        if k < |sizes| then
          Outcome(MapFailed(k), b.handles, ReleaseAll(UnmapAll(d1, f, base, sizes, k).1, f, b.handles).1)
        else
          var (ok, d2) := Other(d1, f);
          Outcome(if ok && !err then Done else AccessFailed, b.handles, d2)
  }

  ghost predicate Vacant(d: Driver, base: int, sizes: seq<int>) {
    forall i: nat :: i < |sizes| ==> Addr(base, sizes, i) !in d.mapped
  }

  /** Everything the device holds after a creation failed with `|hs|` handles made. */
  ghost function AfterCreateFailed(d: Driver, f: Oracle, hs: seq<nat>): Driver {
    var c := d.calls + |hs| + 1;
    d.(live := d.live + Kept(f, c, hs), next := d.next + |hs|, calls := c + |hs|)
  }

  /** The same after a mapping failed with `k` chunks mapped: cleanup calls start at number `c`. */
  ghost function AfterMapFailed(d: Driver, f: Oracle, base: int, sizes: seq<int>, hs: seq<nat>, k: nat): Driver
    requires k <= |sizes| && k <= |hs|
  {
    var c := d.calls + |hs| + k + 1;
    d.(live := d.live + Kept(f, c + k, hs),
       mapped := d.mapped + (Mappings(base, sizes, hs, k) - Cleared(f, c, base, sizes, k)),
       next := d.next + |hs|, calls := c + k + |hs|)
  }

  /** The same after every chunk was mapped. */
  ghost function AfterMapped(d: Driver, base: int, sizes: seq<int>, hs: seq<nat>): Driver
    requires |sizes| == |hs|
  {
    d.(live := d.live + SetOf(hs), mapped := d.mapped + Mappings(base, sizes, hs, |hs|),
       next := d.next + |hs|, calls := d.calls + 2 * |hs| + 1)
  }

  /** What one call leaves on the device, from a clean error code. */
  ghost predicate Exact(d: Driver, f: Oracle, base: int, sizes: seq<int>, o: Outcome) {
    var n, hs := |sizes|, o.handles;
    && |hs| <= n && hs == Fresh(d.next, |hs|)
    && match o.stage
       case CreateFailed => |hs| < n && f(d.calls + |hs|) && o.d == AfterCreateFailed(d, f, hs)
       case MapFailed(k) =>
         |hs| == n && k < n && f(d.calls + n + k) && o.d == AfterMapFailed(d, f, base, sizes, hs, k)
       case AccessFailed => |hs| == n && f(d.calls + 2 * n) && o.d == AfterMapped(d, base, sizes, hs)
       case Done => |hs| == n && o.d == AfterMapped(d, base, sizes, hs)
  }

  lemma ReleaseFresh(d: Driver, d1: Driver, f: Oracle, hs: seq<nat>)
    requires Wf(d) && hs == Fresh(d.next, |hs|) && d1.live == d.live + SetOf(hs)
    ensures ReleaseAll(d1, f, hs).1 == d1.(live := d.live + Kept(f, d1.calls, hs), calls := d1.calls + |hs|)
  {
    FreshAre(d.next, |hs|);
    ReleaseAllExact(d1, f, hs);
    assert d1.live - SetOf(hs) + Kept(f, d1.calls, hs) == d.live + Kept(f, d1.calls, hs);
  }

  /** The first `k` chunks are found in the table as they were mapped. */
  lemma {:induction false} MappingsAt(base: int, sizes: seq<int>, hs: seq<nat>, k: nat, i: nat)
    requires Positive(sizes) && i < k <= |sizes| && k <= |hs|
    ensures var m := Mappings(base, sizes, hs, k);
            Addr(base, sizes, i) in m && m[Addr(base, sizes, i)] == Mapping(sizes[i], hs[i])
  {
    if i < k - 1 {
      MappingsAt(base, sizes, hs, k - 1, i);
      AddrApart(base, sizes, i, k - 1);
    }
  }

  /** The table of a mapped allocation: each chunk behind those before it, with its own size and handle, and nothing else. */
  lemma {:induction false} MappingsExact(base: int, sizes: seq<int>, hs: seq<nat>, k: nat)
    requires Positive(sizes) && k <= |sizes| && k <= |hs|
    ensures forall i: nat, at :: i < k && StartsAt(base, sizes, i, at) ==>
              at in Mappings(base, sizes, hs, k) && Mappings(base, sizes, hs, k)[at] == Mapping(sizes[i], hs[i])
    ensures forall at :: at in Mappings(base, sizes, hs, k) ==> exists i: nat :: i < k && StartsAt(base, sizes, i, at)
  {
    forall i: nat, at | i < k && StartsAt(base, sizes, i, at)
      ensures at in Mappings(base, sizes, hs, k) && Mappings(base, sizes, hs, k)[at] == Mapping(sizes[i], hs[i])
    {
      MappingsAt(base, sizes, hs, k, i);
    }
    if k > 0 {
      MappingsExact(base, sizes, hs, k - 1);
      assert StartsAt(base, sizes, k - 1, Addr(base, sizes, k - 1));
    }
  }

  lemma MappedHere(d: Driver, base: int, sizes: seq<int>, hs: seq<nat>, k: nat, m: map<int, Mapping>)
    requires Positive(sizes) && k <= |sizes| && k <= |hs| && d.mapped == m + Mappings(base, sizes, hs, k)
    ensures MappedAs(d, base, sizes, k)
  {
    forall i: nat | i < k
      ensures Addr(base, sizes, i) in d.mapped && d.mapped[Addr(base, sizes, i)].size == sizes[i]
    {
      MappingsAt(base, sizes, hs, k, i);
    }
  }

  lemma AfterUnmap(d: Driver, d1: Driver, f: Oracle, base: int, sizes: seq<int>, hs: seq<nat>, k: nat)
    requires Positive(sizes) && Vacant(d, base, sizes) && k <= |sizes| && k <= |hs|
    requires d1.mapped == d.mapped + Mappings(base, sizes, hs, k)
    ensures UnmapAll(d1, f, base, sizes, k).1 ==
            d1.(mapped := d.mapped + (Mappings(base, sizes, hs, k) - Cleared(f, d1.calls, base, sizes, k)),
                calls := d1.calls + k)
  {
    MappedHere(d1, base, sizes, hs, k, d.mapped);
    UnmapAllExact(d1, f, base, sizes, k);
    ClearOnly(d.mapped, f, d1.calls, base, sizes, hs, k);
  }

  lemma MapFailedExact(d: Driver, f: Oracle, base: int, sizes: seq<int>, hs: seq<nat>, k: nat, d1: Driver)
    requires Wf(d) && Positive(sizes) && Vacant(d, base, sizes)
    requires |hs| == |sizes| && hs == Fresh(d.next, |hs|) && k < |sizes|
    requires d1 == d.(live := d.live + SetOf(hs), mapped := d.mapped + Mappings(base, sizes, hs, k),
                      next := d.next + |hs|, calls := d.calls + |hs| + k + 1)
    ensures ReleaseAll(UnmapAll(d1, f, base, sizes, k).1, f, hs).1 == AfterMapFailed(d, f, base, sizes, hs, k)
  {
    hide *;
    var d2 := UnmapAll(d1, f, base, sizes, k).1;
    AfterUnmap(d, d1, f, base, sizes, hs, k);
    ReleaseFresh(d, d2, f, hs);
    FailedCalls(d, f, base, sizes, hs, k);
  }

  lemma FailedCalls(d: Driver, f: Oracle, base: int, sizes: seq<int>, hs: seq<nat>, k: nat)
    requires k <= |sizes| && k <= |hs|
    ensures AfterMapFailed(d, f, base, sizes, hs, k) ==
            d.(live := d.live + Kept(f, d.calls + |hs| + k + 1 + k, hs),
               mapped := d.mapped + (Mappings(base, sizes, hs, k)
                                     - Cleared(f, d.calls + |hs| + k + 1, base, sizes, k)),
               next := d.next + |hs|, calls := d.calls + |hs| + k + 1 + k + |hs|)
  {
  }

  /** Clearing chunk addresses takes nothing from the mappings of others. */
  lemma ClearOnly(m: map<int, Mapping>, f: Oracle, c: nat, base: int, sizes: seq<int>, hs: seq<nat>, k: nat)
    requires k <= |sizes| && k <= |hs|
    requires forall i: nat :: i < |sizes| ==> Addr(base, sizes, i) !in m
    ensures (m + Mappings(base, sizes, hs, k)) - Cleared(f, c, base, sizes, k)
            == m + (Mappings(base, sizes, hs, k) - Cleared(f, c, base, sizes, k))
  {
    ClearedOutside(m, f, c, base, sizes, k);
    MergeMinus(m, Mappings(base, sizes, hs, k), Cleared(f, c, base, sizes, k));
  }

  lemma MergeMinus(m: map<int, Mapping>, more: map<int, Mapping>, gone: set<int>)
    requires m.Keys !! gone
    ensures (m + more) - gone == m + (more - gone)
  {
  }

  lemma {:induction false} ClearedOutside(m: map<int, Mapping>, f: Oracle, c: nat, base: int, sizes: seq<int>, k: nat)
    requires k <= |sizes|
    requires forall i: nat :: i < |sizes| ==> Addr(base, sizes, i) !in m
    ensures m.Keys !! Cleared(f, c, base, sizes, k)
  {
    if k > 0 { ClearedOutside(m, f, c, base, sizes, k - 1); }
  }

  /** Every way one call can end, with everything it leaves. */
  lemma BuildExact(d: Driver, f: Oracle, base: int, sizes: seq<int>)
    requires Wf(d) && Positive(sizes) && Vacant(d, base, sizes)
    ensures Exact(d, f, base, sizes, Build(d, f, false, base, sizes))
  {
    hide CreateAll, MapAll, ReleaseAll, UnmapAll, Mappings, Cleared, Kept, SetOf, Fresh, Addr, Vacant, Positive, Wf;
    hide AfterMapFailed;
    var b := CreateAll(d, f, |sizes|);
    CreateAllExact(d, f, |sizes|);
    if b.err {
      ReleaseFresh(d, b.d, f, b.handles);
    } else {
      MapAllExact(b.d, f, base, sizes, b.handles, |sizes|);
      var (k, d1) := MapAll(b.d, f, base, sizes, b.handles, |sizes|);
      if k < |sizes| { MapFailedExact(d, f, base, sizes, b.handles, k, d1); }
    }
  }

  // ---- All or nothing ----

  /** Whether no cleanup call of a failed call fails; a refused access has no cleanup. */
  ghost predicate RolledBack(d: Driver, f: Oracle, n: nat, o: Outcome) {
    match o.stage
    case CreateFailed => Quiet(f, d.calls + |o.handles| + 1, |o.handles|)
    case MapFailed(k) => Quiet(f, d.calls + n + k + 1, k + n)
    case _ => n == 0
  }

  lemma KeptNone(f: Oracle, c: nat, hs: seq<nat>, live: set<nat>)
    requires SetOf(hs) !! live
    ensures live + Kept(f, c, hs) == live <==> Quiet(f, c, |hs|)
  {
    if live + Kept(f, c, hs) == live {
      forall j: nat | c <= j < c + |hs| ensures !f(j) {
        var h := hs[j - c];
        assert h in SetOf(hs);
        assert f(c + (j - c)) ==> h in Kept(f, c, hs);
      }
    }
    if Quiet(f, c, |hs|) {
      assert Kept(f, c, hs) == {};
    }
  }

  lemma {:induction false} ClearedNone(f: Oracle, c: nat, base: int, sizes: seq<int>, hs: seq<nat>, k: nat)
    requires Positive(sizes) && k <= |sizes| && k <= |hs|
    ensures Mappings(base, sizes, hs, k) - Cleared(f, c, base, sizes, k) == map[] <==> Quiet(f, c, k)
  {
    if k > 0 {
      ClearedNone(f, c, base, sizes, hs, k - 1);
      MappingsAt(base, sizes, hs, k, k - 1);
      NotCleared(f, c, base, sizes, k - 1, k - 1);
      NotInMappings(base, sizes, hs, k - 1, k - 1);
      var m, gone, at := Mappings(base, sizes, hs, k - 1), Cleared(f, c, base, sizes, k - 1), Addr(base, sizes, k - 1);
      MinusSnoc(m, gone, at, Mapping(sizes[k - 1], hs[k - 1]));
    }
  }

  lemma {:induction false} NotInMappings(base: int, sizes: seq<int>, hs: seq<nat>, m: nat, n: nat)
    requires Positive(sizes) && m <= n < |sizes| && m <= |hs|
    ensures Addr(base, sizes, n) !in Mappings(base, sizes, hs, m)
  {
    if m > 0 {
      NotInMappings(base, sizes, hs, m - 1, n);
      AddrApart(base, sizes, m - 1, n);
    }
  }

  lemma MinusSnoc(m: map<int, Mapping>, gone: set<int>, at: int, x: Mapping)
    requires at !in m && at !in gone
    ensures m[at := x] - gone != map[]
    ensures m[at := x] - (gone + {at}) == m - gone
  {
    assert at in m[at := x] - gone;
  }

  lemma MergeNone(m: map<int, Mapping>, more: map<int, Mapping>)
    requires m.Keys !! more.Keys
    ensures m + more == m <==> more == map[]
  {
    if m + more == m {
      assert more.Keys == {};
    }
  }

  /** With the error code set beforehand, the one handle created is never released. */
  lemma StickyIff(d: Driver, f: Oracle, base: int, sizes: seq<int>)
    requires Wf(d)
    ensures var o := Build(d, f, true, base, sizes);
            o.d.live == d.live && o.d.mapped == d.mapped <==> sizes == [] || f(d.calls)
  {
    assert d.next !in d.live;
    if sizes == [] { BuildEmpty(d, f, base); }
  }

  lemma CleanIff(d: Driver, f: Oracle, base: int, sizes: seq<int>, o: Outcome)
    requires Wf(d) && Positive(sizes) && Vacant(d, base, sizes) && Exact(d, f, base, sizes, o) && o.stage != Done
    ensures o.d.live == d.live && o.d.mapped == d.mapped <==> RolledBack(d, f, |sizes|, o)
  {
    hide Mappings, Cleared, Kept, Addr, Quiet, AfterMapFailed, AfterMapped;
    FreshAre(d.next, |o.handles|);
    match o.stage {
      case CreateFailed => KeptNone(f, d.calls + |o.handles| + 1, o.handles, d.live);
      case MapFailed(k) => MapFailedIff(d, f, base, sizes, o.handles, k);
      case _ => MappedIff(d, base, sizes, o.handles);
    }
  }

  /**
   A call that does not succeed leaves no handle and no mapping of its own if and only if: with a clean
   error code, it failed in creation or mapping and no cleanup call failed; with the error code set
   beforehand, the driver refused the first creation.
   */
  lemma AllOrNothingIff(d: Driver, f: Oracle, err: bool, base: int, sizes: seq<int>)
    requires Wf(d) && Positive(sizes) && Vacant(d, base, sizes)
    requires Build(d, f, err, base, sizes).stage != Done
    ensures var o := Build(d, f, err, base, sizes);
            o.d.live == d.live && o.d.mapped == d.mapped <==>
            if err then sizes == [] || f(d.calls) else RolledBack(d, f, |sizes|, o)
  {
    hide *;
    if err {
      StickyIff(d, f, base, sizes);
    } else {
      BuildExact(d, f, base, sizes);
      CleanIff(d, f, base, sizes, Build(d, f, false, base, sizes));
    }
  }

  /** One chunk on an empty device whose access call fails: its handle and its mapping stay. */
  lemma AccessFailureLeaves(f: Oracle, base: int, size: int)
    requires !f(0) && !f(1) && f(2)
    ensures var o := Build(Driver({}, map[], map[], 0, 0), f, false, base, [size]);
            o.stage == AccessFailed && o.d.live == {0} && o.d.mapped == map[base := Mapping(size, 0)]
  {
    var d := Driver({}, map[], map[], 0, 0);
    assert [size][..0] == [];
    assert Addr(base, [size], 0) == base;
    var d1 := Create(d, f).1;
    assert CreateAll(d, f, 0) == Built(false, [], d);
    assert CreateAll(d, f, 1) == Built(false, [0], d1);
    var d2 := Map(d1, f, base, size, 0).1;
    assert MapAll(d1, f, base, [size], [0], 0) == (0, d1);
    assert MapAll(d1, f, base, [size], [0], 1) == (1, d2);
  }

  lemma BuildEmpty(d: Driver, f: Oracle, base: int)
    ensures Build(d, f, true, base, []).d.live == d.live && Build(d, f, true, base, []).d.mapped == d.mapped
  {
  }

  lemma MapFailedIff(d: Driver, f: Oracle, base: int, sizes: seq<int>, hs: seq<nat>, k: nat)
    requires Positive(sizes) && Vacant(d, base, sizes) && |hs| == |sizes| && k < |sizes| && SetOf(hs) !! d.live
    ensures var d' := AfterMapFailed(d, f, base, sizes, hs, k);
            d'.live == d.live && d'.mapped == d.mapped <==> Quiet(f, d.calls + |hs| + k + 1, k + |hs|)
  {
    var c := d.calls + |hs| + k + 1;
    KeptNone(f, c + k, hs, d.live);
    ClearedNone(f, c, base, sizes, hs, k);
    MappingsOutside(d.mapped, base, sizes, hs, k);
    MergeNone(d.mapped, Mappings(base, sizes, hs, k) - Cleared(f, c, base, sizes, k));
    assert Quiet(f, c, k + |hs|) <==> Quiet(f, c, k) && Quiet(f, c + k, |hs|);
  }

  lemma {:induction false} MappingsOutside(m: map<int, Mapping>, base: int, sizes: seq<int>, hs: seq<nat>, k: nat)
    requires k <= |sizes| && k <= |hs|
    requires forall i: nat :: i < |sizes| ==> Addr(base, sizes, i) !in m
    ensures m.Keys !! Mappings(base, sizes, hs, k).Keys
  {
    if k > 0 { MappingsOutside(m, base, sizes, hs, k - 1); }
  }

  lemma MappedIff(d: Driver, base: int, sizes: seq<int>, hs: seq<nat>)
    requires |hs| == |sizes| && SetOf(hs) !! d.live
    ensures var d' := AfterMapped(d, base, sizes, hs);
            d'.live == d.live && d'.mapped == d.mapped <==> |sizes| == 0
  {
    if |hs| > 0 {
      assert hs[0] in SetOf(hs);
    }
  }
}
