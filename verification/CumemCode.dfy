/** Which calls set the error code, and when it is set over whole runs. */
module CumemCode {
  import opened Wrappers
  import opened ChunkSizes
  import opened Device
  import opened Cumem
  import opened CumemRuns

  // ---- Which loops succeed ----

  lemma {:induction false} CreateOkIff(d: Driver, f: Oracle, n: nat)
    ensures var b := CreateAll(d, f, n);
            && (!b.err <==> Quiet(f, d.calls, n))
            && (!b.err ==> |b.handles| == n && b.d.calls == d.calls + n)
  {
    if n > 0 {
      CreateOkIff(d, f, n - 1);
      QuietNext(f, d.calls, n - 1);
    }
  }

  lemma QuietNext(f: Oracle, c: nat, n: nat)
    ensures Quiet(f, c, n + 1) <==> Quiet(f, c, n) && !f(c + n)
  {
  }

  lemma QuietSplit(f: Oracle, c: nat, m: nat, n: nat)
    ensures Quiet(f, c, m + n) <==> Quiet(f, c, m) && Quiet(f, c + m, n)
  {
  }

  lemma {:induction false} MapOkIff(d: Driver, f: Oracle, base: int, sizes: seq<int>, hs: seq<nat>, n: nat)
    requires n <= |sizes| && n <= |hs|
    ensures var (k, d') := MapAll(d, f, base, sizes, hs, n);
            && k <= n && (k == n <==> Quiet(f, d.calls, n)) && (k == n ==> d'.calls == d.calls + n)
  {
    if n > 0 {
      MapOkIff(d, f, base, sizes, hs, n - 1);
      QuietNext(f, d.calls, n - 1);
    }
  }

  /** Creating and mapping succeeds if and only if no driver call fails. */
  lemma BuildOkIff(d: Driver, f: Oracle, base: int, sizes: seq<int>)
    ensures Build(d, f, false, base, sizes).stage == Done <==> Quiet(f, d.calls, 2 * |sizes| + 1)
  {
    var n := |sizes|;
    var b := CreateAll(d, f, n);
    CreateOkIff(d, f, n);
    QuietSplit(f, d.calls, n, n + 1);
    if !b.err {
      MapOkIff(b.d, f, base, sizes, b.handles, n);
      QuietNext(f, b.d.calls, n);
      hide CreateAll, MapAll, Quiet;
    } else {
      hide CreateAll, MapAll, Quiet;
    }
  }

  /** Unmapping succeeds if and only if no call fails and every chunk is mapped. */
  lemma {:induction false} UnmapOkIff(d: Driver, f: Oracle, base: int, sizes: seq<int>, n: nat)
    requires n <= |sizes| && Positive(sizes)
    ensures var (ok, d') := UnmapAll(d, f, base, sizes, n);
            && (ok <==> Quiet(f, d.calls, n) && MappedAs(d, base, sizes, n))
            && d'.calls == d.calls + n && d'.live == d.live && d'.reserved == d.reserved
            && forall i: nat :: n <= i < |sizes| ==>
                 var a := Addr(base, sizes, i);
                 (a in d'.mapped <==> a in d.mapped) && (a in d'.mapped ==> d'.mapped[a] == d.mapped[a])
  {
    if n > 0 {
      UnmapOkIff(d, f, base, sizes, n - 1);
      QuietNext(f, d.calls, n - 1);
      forall i: nat | n <= i < |sizes| ensures Addr(base, sizes, i) != Addr(base, sizes, n - 1) {
        AddrApart(base, sizes, n - 1, i);
      }
    }
  }

  /** Releasing succeeds if and only if no call fails and the handles are live and all different. */
  lemma {:induction false} ReleaseOkIff(d: Driver, f: Oracle, hs: seq<nat>)
    ensures var (ok, d') := ReleaseAll(d, f, hs);
            && (ok <==> Quiet(f, d.calls, |hs|) && AllIn(hs, d.live) && Distinct(hs))
            && d'.calls == d.calls + |hs| && d'.reserved == d.reserved
            && (ok ==> d'.live == d.live - SetOf(hs)) && d'.live <= d.live
  {
    if hs == [] {
      assert d.live - SetOf(hs) == d.live;
    } else {
      var front, h := hs[..|hs| - 1], hs[|hs| - 1];
      assert hs == front + [h];
      ReleaseOkIff(d, f, front);
      QuietNext(f, d.calls, |front|);
      SetOfSnoc(front, h);
      LastIff(front, h, d.live);
    }
  }

  lemma LastIff(front: seq<nat>, h: nat, live: set<nat>)
    ensures var hs := front + [h];
            AllIn(hs, live) && Distinct(hs) <==> AllIn(front, live) && Distinct(front) && h in live - SetOf(front)
  {
    var hs := front + [h];
    if AllIn(hs, live) && Distinct(hs) {
      assert hs[|front|] == h;
      assert forall i :: 0 <= i < |front| ==> hs[i] == front[i];
    }
  }

  // ---- Which calls set the code ----

  /** From a clean code: whether a call sets it, by the driver's answers and what is on the device. */
  ghost predicate Fails(m: Machine, f: Oracle, c: Call) {
    var n0 := m.d.calls;
    match c
    case ToMalloc(bytes, g, setting, _, registered) =>
      || !Quiet(f, n0, 3)
      || (Plan(bytes, g, setting).Some? && registered && !Quiet(f, n0 + 3, 2 * |Plan(bytes, g, setting).value.1| + 2))
    case ToFree(a, size) =>
      || !Quiet(f, n0, |a.sizes| + |a.handles| + 2)
      || !MappedAs(m.d, a.base, a.sizes, |a.sizes|)
      || !AllIn(a.handles, m.d.live) || !Distinct(a.handles)
      || a.base !in m.d.reserved || m.d.reserved[a.base] != size
    case _ => false
  }

  lemma FreeSetsIff(m: Machine, f: Oracle, c: Call)
    requires c.ToFree? && !m.err && Positive(c.a.sizes)
    ensures Next(m, f, c).err <==> Fails(m, f, c)
  {
    var d0, n, k := Ticked(m.d), |c.a.sizes|, |c.a.handles|;
    UnmapOkIff(d0, f, c.a.base, c.a.sizes, n);
    var d1 := UnmapAll(d0, f, c.a.base, c.a.sizes, n).1;
    ReleaseOkIff(d1, f, c.a.handles);
    QuietNext(f, m.d.calls, 0);
    QuietSplit(f, m.d.calls, 1, n);
    QuietSplit(f, m.d.calls, 1 + n, k);
    QuietNext(f, m.d.calls, 1 + n + k);
    assert Quiet(f, m.d.calls, 0);
    hide UnmapAll, ReleaseAll, Quiet, MappedAs, AllIn, Distinct;
  }

  lemma MallocSetsIff(m: Machine, f: Oracle, c: Call)
    requires c.ToMalloc? && !m.err && !Traps(m, f, c)
    ensures Next(m, f, c).err <==> Fails(m, f, c)
  {
    hide Build, Plan, AlignUp, Quiet;
    var d, aligned := m.d, AlignUp(c.bytes, c.g);
    ThreeQuiet(f, d.calls);
    if Quiet(f, d.calls, 3) && Plan(c.bytes, c.g, c.setting).Some? {
      var sizes := Plan(c.bytes, c.g, c.setting).value.1;
      var d2 := Reserve(Ticked(Ticked(d)), f, c.at, aligned).1;
      CreateAndMapSetsIff(d2, f, c.at, sizes);
    }
  }

  lemma ThreeQuiet(f: Oracle, c: nat)
    ensures Quiet(f, c, 3) <==> !f(c) && !f(c + 1) && !f(c + 2)
  {
  }

  lemma CreateAndMapSetsIff(d: Driver, f: Oracle, base: int, sizes: seq<int>)
    ensures CreateAndMap(d, f, false, base, sizes).0 <==> !Quiet(f, d.calls, 2 * |sizes| + 2)
  {
    QuietSplit(f, d.calls, 1, 2 * |sizes| + 1);
    OneQuiet(f, d.calls);
    if f(d.calls) {
      ErrNeverDone(Ticked(d), f, base, sizes);
    } else {
      BuildOkIff(Ticked(d), f, base, sizes);
    }
    hide Build, Quiet;
  }

  lemma OneQuiet(f: Oracle, c: nat)
    ensures Quiet(f, c, 1) <==> !f(c)
  {
  }

  lemma ErrNeverDone(d: Driver, f: Oracle, base: int, sizes: seq<int>)
    ensures Build(d, f, true, base, sizes).stage != Done
  {
  }

  /**
   From a clean code. An allocation sets it if and only if a driver call fails on its way. Giving one back sets it
   if and only if a driver call fails, a chunk is not mapped or a handle not live (as when the allocation
   sleeps), or the size named is not the one reserved. Sleeping and waking leave it clear.
   */
  lemma CallSetsIff(m: Machine, f: Oracle, c: Call)
    requires !m.err && !Traps(m, f, c) && (c.ToFree? ==> Positive(c.a.sizes))
    ensures Next(m, f, c).err <==> Fails(m, f, c)
  {
    match c {
      case ToMalloc(_, _, _, _, _) => MallocSetsIff(m, f, c);
      case ToFree(_, _) => FreeSetsIff(m, f, c);
      case _ =>
    }
  }

  /**
   While everybody's holdings are accounted for: freeing an allocation sets the code if and only if a driver
   call fails, the size named is not the aligned one, or the allocation has chunks and sleeps.
   */
  lemma TiedFreeSetsIff(w: World, f: Oracle, size: int)
    requires Tied(w)
    ensures Next(Machine(w.d, false), f, ToFree(w.a, size)).err <==>
            || !Quiet(f, w.d.calls, 2 * |w.a.sizes| + 2) || size != w.a.aligned
            || (!w.awake && w.a.sizes != [])
  {
    var m, c := Machine(w.d, false), ToFree(w.a, size);
    CallSetsIff(m, f, c);
    TiedReserved(w);
    if w.awake {
      AwakeIsMapped(w);
    } else if w.a.sizes != [] {
      AsleepIsNot(w);
    }
    hide Tied, Next, Quiet, AllIn, MappedAs;
  }

  lemma TiedReserved(w: World)
    requires Tied(w)
    ensures w.a.base in w.d.reserved && w.d.reserved[w.a.base] == w.a.aligned
    ensures |w.a.handles| == |w.a.sizes| && Distinct(w.a.handles) && Positive(w.a.sizes)
  {
  }

  lemma AwakeIsMapped(w: World)
    requires Tied(w) && w.awake
    ensures MappedAs(w.d, w.a.base, w.a.sizes, |w.a.sizes|) && AllIn(w.a.handles, w.d.live)
  {
    var a := w.a;
    forall i: nat | i < |a.sizes| ensures Addr(a.base, a.sizes, i) in w.d.mapped && w.d.mapped[Addr(a.base, a.sizes, i)].size == a.sizes[i] {
      MappingsAt(a.base, a.sizes, a.handles, |a.sizes|, i);
    }
    forall i | 0 <= i < |a.handles| ensures a.handles[i] in w.d.live { assert a.handles[i] in SetOf(a.handles); }
  }

  lemma AsleepIsNot(w: World)
    requires Tied(w) && !w.awake && w.a.sizes != []
    ensures !MappedAs(w.d, w.a.base, w.a.sizes, |w.a.sizes|)
  {
    assert w.rest.mapped + map[] == w.rest.mapped;
    assert Addr(w.a.base, w.a.sizes, 0) !in w.d.mapped;
  }

  // ---- Over whole runs ----

  /** Call `n` failed, and nothing slept or woke since. */
  ghost predicate SetBy(ms: seq<Machine>, f: Oracle, cs: seq<Call>, n: nat, j: nat)
    requires |ms| == |cs| + 1 && j <= |cs|
  {
    n < j && !ms[n].err && Fails(ms[n], f, cs[n]) && forall k :: n < k < j ==> !Clears(cs[k])
  }

  /**
   In every run from a clean code: the code is set if and only if an allocation or a free failed and nothing
   slept or woke since.
   */
  lemma {:induction false} CodeSetIff(ms: seq<Machine>, f: Oracle, cs: seq<Call>, j: nat)
    requires History(ms, f, cs) && !ms[0].err && j <= |cs|
    requires forall i :: 0 <= i < |cs| && cs[i].ToFree? ==> Positive(cs[i].a.sizes)
    ensures ms[j].err <==> exists n :: SetBy(ms, f, cs, n, j)
  {
    hide Next, Fails, Answer;
    if j > 0 {
      CodeSetIff(ms, f, cs, j - 1);
      assert ms[j - 1 + 1] == Next(ms[j - 1], f, cs[j - 1]) && !Traps(ms[j - 1], f, cs[j - 1]);
      if ms[j - 1].err { StaysSet(ms[j - 1], f, cs[j - 1]); } else { CallSetsIff(ms[j - 1], f, cs[j - 1]); }
      if ms[j].err {
        if ms[j - 1].err {
          var n :| SetBy(ms, f, cs, n, j - 1);
          assert SetBy(ms, f, cs, n, j);
        } else {
          assert SetBy(ms, f, cs, j - 1, j);
        }
      }
      if n: nat :| SetBy(ms, f, cs, n, j) {
        if n < j - 1 { assert SetBy(ms, f, cs, n, j - 1); }
      }
    }
  }
}
