/**
 The life cycle of an allocation: allocate, then any alternation of sleep and wake, then free. Other
 allocations may change anything of their own in between.
 */
module CumemRuns {
  import opened Arithmetic
  import opened Wrappers
  import opened ChunkSizes
  import opened Device
  import opened Cumem

  datatype Alloc = Alloc(base: int, aligned: int, sizes: seq<int>, handles: seq<nat>)

  function CreateAndMap(d: Driver, f: Oracle, err: bool, base: int, sizes: seq<int>): (bool, Outcome) {
    var (ok, d1) := Other(d, f);
    var o := Build(d1, f, err || !ok, base, sizes);
    (o.stage != Done, o)
  }

  /** Every unmap and every release is attempted; the error code is set if any of them failed. */
  function UnmapAndRelease(d: Driver, f: Oracle, err: bool, a: Alloc): (bool, Driver) {
    var (ok0, d0) := Other(d, f);
    var (ok1, d1) := UnmapAll(d0, f, a.base, a.sizes, |a.sizes|);
    var (ok2, d2) := ReleaseAll(d1, f, a.handles);
    (err || !ok0 || !ok1 || !ok2, d2)
  }

  /** `Trap` is a division by zero or a counter that overflows: nothing is promised from there. */
  datatype Reply = Null | Trap | Granted(a: Alloc)

  /** One allocation; `at` is where the driver puts the range, `registered` whether the callback accepts it. */
  function Malloc(d: Driver, f: Oracle, err: bool, size: u64, g: u64, setting: Setting, at: int, registered: bool)
    : (Reply, bool, Driver)
    requires g > 0
  {
    var (ok0, d0) := Other(d, f);
    var (ok1, d1) := Other(d0, f);
    if err || !ok0 || !ok1 then (Null, true, d1)
    else
      var aligned := AlignUp(size, g);
      var (ok2, d2) := Reserve(d1, f, at, aligned);
      if !ok2 then (Null, true, d2)
      else match Plan(size, g, setting)
        case None => (Trap, false, d2)
        case Some(plan) =>
          if !registered then (Null, false, d2)
          else
            var (bad, o) := CreateAndMap(d2, f, false, at, plan.1);
            if bad then (Null, true, GiveBack(o.d, f, at, aligned).1)
            else (Granted(Alloc(at, aligned, plan.1, o.handles)), false, o.d)
  }

  /** Giving an allocation back, with the size the caller names. */
  function Free(d: Driver, f: Oracle, err: bool, a: Alloc, size: int): (bool, Driver) {
    var (bad, d1) := UnmapAndRelease(d, f, err, a);
    var (ok, d2) := GiveBack(d1, f, a.base, size);
    (bad || !ok, d2)
  }

  // ---- The error code over whole runs ----

  type granule = g: u64 | g > 0 witness 1

  /** The four entry points, in any order and for any allocations. */
  datatype Call =
    | ToMalloc(bytes: u64, g: granule, setting: Setting, at: int, registered: bool)
    | ToFree(a: Alloc, size: int)
    | ToSleep(a: Alloc)
    | ToWake(a: Alloc)

  datatype Machine = Machine(d: Driver, err: bool)

  function Answer(m: Machine, f: Oracle, c: Call): Reply
    requires c.ToMalloc?
  {
    Malloc(m.d, f, m.err, c.bytes, c.g, c.setting, c.at, c.registered).0
  }

  /** Sleeping and waking report a set error code to their caller and clear it; the others leave it set. */
  function Next(m: Machine, f: Oracle, c: Call): Machine {
    match c
    case ToMalloc(bytes, g, setting, at, registered) =>
      var (_, err, d) := Malloc(m.d, f, m.err, bytes, g, setting, at, registered);
      Machine(d, err)
    case ToFree(a, size) =>
      var (err, d) := Free(m.d, f, m.err, a, size);
      Machine(d, err)
    case ToSleep(a) => Machine(UnmapAndRelease(m.d, f, m.err, a).1, false)
    case ToWake(a) => Machine(CreateAndMap(m.d, f, m.err, a.base, a.sizes).1.d, false)
  }

  predicate Clears(c: Call) { c.ToSleep? || c.ToWake? }

  predicate Traps(m: Machine, f: Oracle, c: Call) { c.ToMalloc? && Answer(m, f, c) == Trap }

  /** The calls of a run, none of which traps: from there on nothing would be promised. */
  ghost predicate History(ms: seq<Machine>, f: Oracle, cs: seq<Call>) {
    && |ms| == |cs| + 1
    && forall i :: 0 <= i < |cs| ==> ms[i + 1] == Next(ms[i], f, cs[i]) && !Traps(ms[i], f, cs[i])
  }

  lemma StaysSet(m: Machine, f: Oracle, c: Call)
    requires m.err
    ensures Next(m, f, c).err <==> !Clears(c)
    ensures c.ToMalloc? ==> Answer(m, f, c) == Null && Next(m, f, c).d == m.d.(calls := m.d.calls + 2)
  {
  }

  /** Once the code is set, every allocation is refused and takes nothing, until something sleeps or wakes. */
  lemma {:induction false} StickyRefuses(ms: seq<Machine>, f: Oracle, cs: seq<Call>, i: nat, j: nat)
    requires History(ms, f, cs) && i <= j <= |cs| && ms[i].err && forall n :: i <= n < j ==> !Clears(cs[n])
    ensures ms[j].err
    ensures forall n :: i <= n < j && cs[n].ToMalloc? ==>
              Answer(ms[n], f, cs[n]) == Null && ms[n + 1].d == ms[n].d.(calls := ms[n].d.calls + 2)
  {
    hide Next, Answer;
    if i < j {
      StickyRefuses(ms, f, cs, i, j - 1);
      assert ms[j - 1 + 1] == Next(ms[j - 1], f, cs[j - 1]);
      StaysSet(ms[j - 1], f, cs[j - 1]);
    }
  }

  // ---- What belongs to one allocation and what does not ----

  datatype Holdings = Holdings(live: set<nat>, mapped: map<int, Mapping>, reserved: map<int, int>)

  function Held(d: Driver): Holdings { Holdings(d.live, d.mapped, d.reserved) }

  ghost predicate Apart(rest: Holdings, a: Alloc) {
    && Positive(a.sizes) && |a.handles| == |a.sizes| && Distinct(a.handles) && Sum(a.sizes) == a.aligned
    && SetOf(a.handles) !! rest.live && a.base !in rest.reserved
    && (forall i: nat :: i < |a.sizes| ==> Addr(a.base, a.sizes, i) !in rest.mapped)
  }

  /** The holdings of everybody else together with those of this allocation. */
  ghost function With(rest: Holdings, a: Alloc, awake: bool): Holdings
    requires |a.handles| == |a.sizes|
  {
    Holdings(
      rest.live + (if awake then SetOf(a.handles) else {}),
      rest.mapped + (if awake then Mappings(a.base, a.sizes, a.handles, |a.sizes|) else map[]),
      rest.reserved[a.base := a.aligned])
  }

  datatype World = World(rest: Holdings, a: Alloc, awake: bool, err: bool, d: Driver)

  ghost predicate Tied(w: World) {
    && !w.err && Wf(w.d) && Apart(w.rest, w.a)
    && Held(w.d) == With(w.rest, w.a, w.awake)
  }

  ghost predicate NeverFails(f: Oracle) { forall c: nat :: !f(c) }

  /** Others may do anything that keeps their holdings apart from this allocation's. */
  datatype Event = Sleep | Wake | Others(rest: Holdings, next: nat)

  ghost predicate Legal(w: World, e: Event) {
    match e
    case Sleep => w.awake
    case Wake => !w.awake
    case Others(rest, next) =>
      Apart(rest, w.a) && w.d.next <= next && (forall h :: h in rest.live ==> h < next)
  }

  ghost function Do(w: World, f: Oracle, e: Event): World
    requires |w.a.handles| == |w.a.sizes|
  {
    match e
    case Sleep =>
      w.(awake := false, err := false, d := UnmapAndRelease(w.d, f, w.err, w.a).1)
    case Wake =>
      var o := CreateAndMap(w.d, f, w.err, w.a.base, w.a.sizes).1;
      w.(a := w.a.(handles := o.handles), awake := true, err := false, d := o.d)
    case Others(rest, next) =>
      var h := With(rest, w.a, w.awake);
      w.(rest := rest, d := w.d.(live := h.live, mapped := h.mapped, reserved := h.reserved, next := next))
  }

  lemma QuietAll(f: Oracle, c: nat, n: nat)
    requires NeverFails(f)
    ensures Quiet(f, c, n)
  {
  }

  /** Without failures, unmapping and releasing an awake allocation leaves exactly what others hold. */
  lemma SleepExact(rest: Holdings, a: Alloc, f: Oracle, d: Driver)
    requires NeverFails(f) && Apart(rest, a) && Held(d) == With(rest, a, true)
    ensures var (bad, d') := UnmapAndRelease(d, f, false, a);
            !bad && Held(d') == With(rest, a, false) && d'.next == d.next
  {
    var n, d0 := |a.sizes|, Ticked(d);
    MappedHere(d0, a.base, a.sizes, a.handles, n, rest.mapped);
    UnmapAllExact(d0, f, a.base, a.sizes, n);
    var d1 := UnmapAll(d0, f, a.base, a.sizes, n).1;
    ReleaseAllExact(d1, f, a.handles);
    QuietAll(f, d0.calls, n);
    QuietAll(f, d1.calls, n);
    assert d1.live - SetOf(a.handles) + Kept(f, d1.calls, a.handles) == rest.live by {
      assert Kept(f, d1.calls, a.handles) == {};
    }
    AllCleared(rest.mapped, f, d0.calls, a.base, a.sizes, a.handles);
  }

  lemma AllCleared(m: map<int, Mapping>, f: Oracle, c: nat, base: int, sizes: seq<int>, hs: seq<nat>)
    requires Positive(sizes) && |sizes| == |hs| && Quiet(f, c, |sizes|)
    requires forall i: nat :: i < |sizes| ==> Addr(base, sizes, i) !in m
    ensures (m + Mappings(base, sizes, hs, |sizes|)) - Cleared(f, c, base, sizes, |sizes|) == m
    ensures m + map[] == m
  {
    ClearOnly(m, f, c, base, sizes, hs, |sizes|);
    ClearedNone(f, c, base, sizes, hs, |sizes|);
  }

  /** Without failures, creating and mapping succeeds and puts every chunk back where it was. */
  lemma BuildQuiet(d: Driver, f: Oracle, base: int, sizes: seq<int>)
    requires NeverFails(f) && Wf(d) && Positive(sizes) && Vacant(d, base, sizes)
    ensures var o := Build(d, f, false, base, sizes);
            && o.stage == Done && |o.handles| == |sizes| && o.handles == Fresh(d.next, |sizes|)
            && o.d == AfterMapped(d, base, sizes, o.handles)
  {
    BuildExact(d, f, base, sizes);
    hide Build, Mappings, Cleared, Kept, Addr, Fresh;
  }

  lemma WakeExact(rest: Holdings, a: Alloc, f: Oracle, d: Driver)
    requires NeverFails(f) && Wf(d) && Apart(rest, a) && Held(d) == With(rest, a, false)
    ensures var (bad, o) := CreateAndMap(d, f, false, a.base, a.sizes);
            var a' := a.(handles := o.handles);
            !bad && Apart(rest, a') && Held(o.d) == With(rest, a', true) && Wf(o.d)
  {
    var d1 := Ticked(d);
    assert rest.mapped + map[] == rest.mapped && rest.live + {} == rest.live;
    BuildQuiet(d1, f, a.base, a.sizes);
    FreshAre(d1.next, |a.sizes|);
  }

  /** Every step keeps this allocation and everybody else's holdings exactly accounted for. */
  lemma OthersKeep(w: World, f: Oracle, e: Event)
    requires Tied(w) && Legal(w, e) && e.Others?
    ensures Tied(Do(w, f, e))
  {
  }

  lemma DoKeeps(w: World, f: Oracle, e: Event)
    requires NeverFails(f) && Tied(w) && Legal(w, e)
    ensures Tied(Do(w, f, e))
    ensures !e.Others? ==> Do(w, f, e).rest == w.rest
    ensures Do(w, f, e).a.(handles := []) == w.a.(handles := [])
  {
    match e {
      case Sleep =>
        SleepExact(w.rest, w.a, f, w.d);
      case Wake =>
        WakeExact(w.rest, w.a, f, w.d);
      case Others(_, _) =>
        OthersKeep(w, f, e);
    }
  }

  ghost predicate Step(w: World, f: Oracle, e: Event, w': World) {
    Legal(w, e) && |w.a.handles| == |w.a.sizes| && w' == Do(w, f, e)
  }

  /** The worlds of a run, one more than its events. */
  ghost predicate Run(ws: seq<World>, f: Oracle, es: seq<Event>) {
    |ws| == |es| + 1 && forall i :: 0 <= i < |es| ==> Step(ws[i], f, es[i], ws[i + 1])
  }

  /** In every run without failures, after every step, live handles and mapped chunks match one to one. */
  lemma {:induction false} RunKeeps(ws: seq<World>, f: Oracle, es: seq<Event>, i: nat)
    requires NeverFails(f) && Run(ws, f, es) && Tied(ws[0]) && i <= |es|
    ensures Tied(ws[i])
    ensures ws[i].a.(handles := []) == ws[0].a.(handles := [])
  {
    if i > 0 {
      RunKeeps(ws, f, es, i - 1);
      assert Step(ws[i - 1], f, es[i - 1], ws[i - 1 + 1]);
      DoKeeps(ws[i - 1], f, es[i - 1]);
    }
  }

  // ---- Allocating and freeing ----

  /** Without failures and wrapped sizes, an allocation is granted and is all that changed. */
  lemma MallocTied(d: Driver, f: Oracle, size: u64, g: u64, setting: Setting, at: int)
    requires g > 0 && NeverFails(f) && Wf(d) && at !in d.reserved
    requires Sound(size, g, Plan(size, g, setting)) && Vacant(d, at, Plan(size, g, setting).value.1)
    ensures var (r, err, d') := Malloc(d, f, false, size, g, setting, at, true);
            && r.Granted? && r.a.base == at && r.a.aligned == AlignUp(size, g)
            && Tied(World(Held(d), r.a, true, err, d'))
  {
    var plan := Plan(size, g, setting).value;
    var d2 := Reserve(Ticked(Ticked(d)), f, at, plan.0).1;
    hide NumChunks, Sizes, AlignUp, Build, Fresh, Mappings;
    BuildQuiet(Ticked(d2), f, at, plan.1);
    FreshAre(d2.next, |plan.1|);
  }

  /**
   Without failures an allocation is refused if and only if the error code was set or the callback did
   not accept it. In the second case the address range stays reserved with no owner.
   */
  lemma RefusedLeavesIff(d: Driver, f: Oracle, err: bool, size: u64, g: u64, setting: Setting, at: int,
                         registered: bool)
    requires g > 0 && NeverFails(f) && Wf(d) && at !in d.reserved
    requires Sound(size, g, Plan(size, g, setting)) && Vacant(d, at, Plan(size, g, setting).value.1)
    ensures var (r, _, d') := Malloc(d, f, err, size, g, setting, at, registered);
            && (r == Null <==> err || !registered)
            && (r == Null ==> d'.live == d.live && d'.mapped == d.mapped && (d'.reserved == d.reserved <==> err))
  {
    hide NumChunks, Sizes, AlignUp, Build;
    if !err && registered { MallocTied(d, f, size, g, setting, at); }
  }

  /** The device when creating and mapping begins: context, granularity, reservation and context calls done. */
  function Reserved(d: Driver, at: int, aligned: int): Driver {
    d.(reserved := d.reserved[at := aligned], calls := d.calls + 4)
  }

  /**
   When creating or mapping fails, the allocation is refused with the error code set. It leaves nothing
   behind if and only if the rollback was complete and the address range could be given back.
   */
  lemma FailedMallocIff(d: Driver, f: Oracle, size: u64, g: u64, setting: Setting, at: int)
    requires g > 0 && Wf(d) && at !in d.reserved && Quiet(f, d.calls, 4)
    requires Sound(size, g, Plan(size, g, setting)) && Vacant(d, at, Plan(size, g, setting).value.1)
    requires var d0, sizes := Reserved(d, at, AlignUp(size, g)), Plan(size, g, setting).value.1;
             Build(d0, f, false, at, sizes).stage != Done
    ensures var d0, sizes := Reserved(d, at, AlignUp(size, g)), Plan(size, g, setting).value.1;
            var o := Build(d0, f, false, at, sizes);
            var (r, err, d') := Malloc(d, f, false, size, g, setting, at, true);
            && r == Null && err
            && (Held(d') == Held(d) <==> RolledBack(d0, f, |sizes|, o) && !f(o.d.calls))
  {
    var aligned, sizes := AlignUp(size, g), Plan(size, g, setting).value.1;
    PlanPositive(size, g, setting);
    hide Sound, Plan, AlignUp, Build, RolledBack, Malloc, Held, GiveBack, Quiet;
    var d0 := Reserved(d, at, aligned);
    var o := Build(d0, f, false, at, sizes);
    AllOrNothingIff(d0, f, false, at, sizes);
    BuildExact(d0, f, at, sizes);
    KeepsReserved(d0, f, at, sizes, o);
    FailsAt(d, f, size, g, setting, at);
    GivenBackIff(d, o.d, f, at, aligned);
  }

  lemma FailsAt(d: Driver, f: Oracle, size: u64, g: u64, setting: Setting, at: int)
    requires g > 0 && Quiet(f, d.calls, 4) && Plan(size, g, setting).Some?
    requires Build(Reserved(d, at, AlignUp(size, g)), f, false, at, Plan(size, g, setting).value.1).stage != Done
    ensures var o := Build(Reserved(d, at, AlignUp(size, g)), f, false, at, Plan(size, g, setting).value.1);
            Malloc(d, f, false, size, g, setting, at, true)
            == (Null, true, GiveBack(o.d, f, at, AlignUp(size, g)).1)
  {
    hide Plan, AlignUp, Build, GiveBack;
    assert !f(d.calls) && !f(d.calls + 1) && !f(d.calls + 2) && !f(d.calls + 3);
  }

  lemma GivenBackIff(d: Driver, e: Driver, f: Oracle, at: int, aligned: int)
    requires at !in d.reserved && e.reserved == d.reserved[at := aligned]
    ensures Held(GiveBack(e, f, at, aligned).1) == Held(d) <==> e.live == d.live && e.mapped == d.mapped && !f(e.calls)
  {
    assert d.reserved[at := aligned] - {at} == d.reserved;
  }

  lemma PlanPositive(size: u64, g: u64, setting: Setting)
    requires g > 0 && Sound(size, g, Plan(size, g, setting))
    ensures Positive(Plan(size, g, setting).value.1)
  {
  }

  lemma KeepsReserved(d: Driver, f: Oracle, base: int, sizes: seq<int>, o: Outcome)
    requires Exact(d, f, base, sizes, o)
    ensures o.d.reserved == d.reserved
  {
  }

  lemma {:induction false} UnmapMissing(d: Driver, f: Oracle, base: int, sizes: seq<int>, n: nat)
    requires n <= |sizes| && forall i: nat :: i < n ==> Addr(base, sizes, i) !in d.mapped
    ensures UnmapAll(d, f, base, sizes, n) == (n == 0, d.(calls := d.calls + n))
  {
    if n > 0 { UnmapMissing(d, f, base, sizes, n - 1); }
  }

  lemma {:induction false} ReleaseMissing(d: Driver, f: Oracle, hs: seq<nat>)
    requires SetOf(hs) !! d.live
    ensures ReleaseAll(d, f, hs) == (hs == [], d.(calls := d.calls + |hs|))
  {
    if hs != [] {
      var front := hs[..|hs| - 1];
      assert SetOf(front) <= SetOf(hs);
      assert hs[|hs| - 1] in SetOf(hs);
      ReleaseMissing(d, f, front);
    }
  }

  /**
   Freeing takes away exactly this allocation's handles and mappings. The address range goes too, and
   the error code stays clean, if and only if the caller names the aligned size; a sleeping allocation
   with chunks sets the error code besides.
   */
  lemma FreeExact(w: World, f: Oracle, size: int)
    requires NeverFails(f) && Tied(w)
    ensures var (bad, d) := Free(w.d, f, false, w.a, size);
            && d.live == w.rest.live && d.mapped == w.rest.mapped
            && (d.reserved == w.rest.reserved <==> size == w.a.aligned)
            && (size != w.a.aligned ==> d.reserved == w.rest.reserved[w.a.base := w.a.aligned])
            && (bad <==> size != w.a.aligned || (!w.awake && w.a.sizes != []))
  {
    var a, rest := w.a, w.rest;
    assert rest.reserved[a.base := a.aligned] - {a.base} == rest.reserved;
    assert rest.mapped + map[] == rest.mapped && rest.live + {} == rest.live;
    if w.awake {
      SleepExact(rest, a, f, w.d);
    } else {
      UnmapMissing(Ticked(w.d), f, a.base, a.sizes, |a.sizes|);
      ReleaseMissing(UnmapAll(Ticked(w.d), f, a.base, a.sizes, |a.sizes|).1, f, a.handles);
    }
  }

  lemma AlignedIff(size: u64, g: u64)
    requires g > 0 && size + g - 1 < WRAP
    ensures AlignUp(size, g) == size <==> size % g == 0
  {
    hide AlignUp;
    AlignUpIff(size, g);
    if size % g == 0 {
      ModDifference(AlignUp(size, g), size, g);
      SmallMultiple(AlignUp(size, g) - size, g);
    }
  }

  lemma SmallMultiple(x: int, g: int)
    requires 0 <= x < g && x % g == 0
    ensures x == 0
  {
  }

  /**
   Allocate, any run of sleeping and waking among others' steps, then free with the requested size, no
   call failing: what remains is exactly what others hold, if and only if the size was a multiple of
   the granularity.
   */
  lemma LifeCycle(d: Driver, f: Oracle, size: u64, g: u64, setting: Setting, at: int, ws: seq<World>, es: seq<Event>)
    requires g > 0 && NeverFails(f) && Wf(d) && at !in d.reserved
    requires Sound(size, g, Plan(size, g, setting)) && Vacant(d, at, Plan(size, g, setting).value.1)
    requires Run(ws, f, es)
    requires var (r, err, d1) := Malloc(d, f, false, size, g, setting, at, true);
             r.Granted? && ws[0] == World(Held(d), r.a, true, err, d1)
    ensures var w := ws[|es|];
            Held(Free(w.d, f, false, w.a, size).1) == w.rest <==> size % g == 0
  {
    hide Malloc, Free, Tied, Plan, Sound, Vacant, AlignUp, Step, Wf, Held, NeverFails;
    MallocTied(d, f, size, g, setting, at);
    RunKeeps(ws, f, es, |es|);
    FreeExact(ws[|es|], f, size);
    PlanSoundIff(size, g, setting);
    AlignedIff(size, g);
    HeldIs(Free(ws[|es|].d, f, false, ws[|es|].a, size).1);
  }

  const EMPTY_DEVICE: Driver := Driver({}, map[], map[], 0, 0)

  /** One byte on an empty device, given back as one byte: its range of 2 MB stays reserved. */
  lemma OneByteStays(f: Oracle)
    requires NeverFails(f)
    ensures var (r, err, d) := Malloc(EMPTY_DEVICE, f, false, 1, 2 * MB, Unset, 0, true);
            && r.Granted? && !err && r.a.aligned == 2 * MB
            && var (bad, d') := Free(d, f, err, r.a, 1);
               bad && d'.live == {} && d'.mapped == map[] && d'.reserved == map[0 := 2 * MB]
  {
    OneByteIsSound();
    hide Malloc, Free, Tied, Plan, Sound, AlignUp, NeverFails;
    MallocTied(EMPTY_DEVICE, f, 1, 2 * MB, Unset, 0);
    var (r, err, d) := Malloc(EMPTY_DEVICE, f, false, 1, 2 * MB, Unset, 0, true);
    FreeOneByte(World(Held(EMPTY_DEVICE), r.a, true, err, d), f);
  }

  lemma OneByteIsSound()
    ensures AlignUp(1, 2 * MB) == 2 * MB && Sound(1, 2 * MB, Plan(1, 2 * MB, Unset))
  {
    SmallMod(2 * MB);
    SmallMod(DEFAULT_CHUNK + 2 * MB - 1);
    SmallMod(DEFAULT_CHUNK);
    PlanSoundIff(1, 2 * MB, Unset);
  }

  lemma FreeOneByte(w: World, f: Oracle)
    requires NeverFails(f) && Tied(w) && w.rest == Holdings({}, map[], map[]) && w.a.base == 0 && w.a.aligned == 2 * MB
    ensures var (bad, d) := Free(w.d, f, w.err, w.a, 1);
            !w.err && bad && d.live == {} && d.mapped == map[] && d.reserved == map[0 := 2 * MB]
  {
    FreeExact(w, f, 1);
  }

  /**
   The refusal is not for good: one byte freed as one byte sets the code, the next allocation is refused,
   an allocation without chunks is put to sleep, and the same request is granted.
   */
  lemma SleepForgets(f: Oracle)
    requires NeverFails(f)
    ensures var request, none := ToMalloc(1, 2 * MB, Unset, 4 * MB, true), ToSleep(Alloc(0, 0, [], []));
            var first := ToMalloc(1, 2 * MB, Unset, 0, true);
            var m0 := Machine(EMPTY_DEVICE, false);
            && Answer(m0, f, first).Granted?
            && var m1 := Next(Next(m0, f, first), f, ToFree(Answer(m0, f, first).a, 1));
               && m1.err && Answer(m1, f, request) == Null
               && Answer(Next(Next(m1, f, request), f, none), f, request).Granted?
  {
    OneByteStays(f);
    OneByteIsSound();
    var request, none := ToMalloc(1, 2 * MB, Unset, 4 * MB, true), ToSleep(Alloc(0, 0, [], []));
    var first := ToMalloc(1, 2 * MB, Unset, 0, true);
    var m0 := Machine(EMPTY_DEVICE, false);
    var m1 := Next(Next(m0, f, first), f, ToFree(Answer(m0, f, first).a, 1));
    assert m1.err && m1.d.live == {} && m1.d.mapped == map[] && m1.d.reserved == map[0 := 2 * MB];
    hide Malloc, Free, Plan, Sound, AlignUp, NeverFails;
    StaysSet(m1, f, request);
    var m2 := Next(m1, f, request);
    NoChunksAsleep(m2.d, f, m2.err);
    MallocTied(Next(m2, f, none).d, f, 1, 2 * MB, Unset, 4 * MB);
  }

  lemma NoChunksAsleep(d: Driver, f: Oracle, err: bool)
    ensures Held(UnmapAndRelease(d, f, err, Alloc(0, 0, [], [])).1) == Held(d)
  {
  }

  lemma HeldIs(d: Driver)
    ensures Held(d) == Holdings(d.live, d.mapped, d.reserved)
  {
  }
}
