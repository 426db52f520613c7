/**
 Weighted build times. A sweep over the start and stop events of all build steps keeps one running
 total of "time divided by the number of running steps" and charges each step the change in that total
 while it ran. Log times are whole milliseconds; amounts here are in milliseconds, as reals.
 */
module BuildTime {
  import opened Wrappers

  datatype Target = Target(start: int, end: int)

  datatype Event = Event(time: int, stop: bool, id: nat)

  // ---------------------------------------------------- what is to be computed

  /** The steps running during millisecond `t`. */
  ghost function Active(ts: seq<Target>, t: int): set<nat> {
    set i: nat | i < |ts| && ts[i].start <= t < ts[i].end
  }

  /** One millisecond, shared equally by the steps running in it. */
  ghost function Share(ts: seq<Target>, t: int): real {
    if Active(ts, t) == {} then 0.0 else 1.0 / |Active(ts, t)| as real
  }

  /** The shares of the milliseconds from `a` up to `b`. */
  ghost function Weight(ts: seq<Target>, a: int, b: int): real
    decreases b - a
  {
    if b <= a then 0.0 else Weight(ts, a, b - 1) + Share(ts, b - 1)
  }

  /** The milliseconds from `a` up to `b` in which anything runs at all. */
  ghost function Busy(ts: seq<Target>, a: int, b: int): set<int> {
    set t | a <= t < b && Active(ts, t) != {}
  }

  ghost predicate IsEvent(ts: seq<Target>, e: Event) {
    e.id < |ts| && e.time == if e.stop then ts[e.id].end else ts[e.id].start
  }

  predicate Before(a: Event, b: Event) { a.time < b.time || (a.time == b.time && (b.stop || !a.stop)) }

  /** The events in the order of the sort: by time, starts first, each event once. */
  ghost predicate Schedule(ts: seq<Target>, es: seq<Event>) {
    && (forall i, j :: 0 <= i < j < |es| ==> Before(es[i], es[j]) && es[i] != es[j])
    && (forall e :: e in es <==> IsEvent(ts, e))
  }

  // -------------------------------------------------------------- the sweep

  datatype Sweep = Sweep(lastTime: int, acc: real, running: map<nat, real>, weighted: map<nat, real>, total: real)

  function Advance(s: Sweep, time: int): real {
    if |s.running| > 0 then s.acc + (time - s.lastTime) as real / |s.running| as real else s.acc
  }

  /** Process one event. `None` is the KeyError of a stop whose step is not running. */
  function Handle(s: Sweep, e: Event): Option<Sweep> {
    var acc := Advance(s, e.time);
    if !e.stop then Some(Sweep(e.time, acc, s.running[e.id := acc], s.weighted, s.total))
    else if e.id !in s.running then None
    else
      var w := acc - s.running[e.id];
      Some(Sweep(e.time, acc, s.running - {e.id}, s.weighted[e.id := w], s.total + w))
  }

  function SweepTo(es: seq<Event>, k: nat): Option<Sweep>
    requires es != [] && k <= |es|
  {
    if k == 0 then Some(Sweep(es[0].time, 0.0, map[], map[], 0.0))
    else
      var s := SweepTo(es, k - 1);
      if s.None? then None else Handle(s.value, es[k - 1])
  }

  // ------------------------------------------------------------ sums by step

  ghost function Charged(weighted: map<nat, real>, n: nat): real {
    if n == 0 then 0.0 else Charged(weighted, n - 1) + (if n - 1 in weighted then weighted[n - 1] else 0.0)
  }

  /** What the running steps have accumulated so far. */
  ghost function Pending(running: map<nat, real>, acc: real, n: nat): real {
    if n == 0 then 0.0 else Pending(running, acc, n - 1) + (if n - 1 in running then acc - running[n - 1] else 0.0)
  }

  lemma {:induction false} ChargedAdd(m: map<nat, real>, i: nat, w: real, n: nat)
    requires i !in m
    ensures Charged(m[i := w], n) == Charged(m, n) + (if i < n then w else 0.0)
  {
    if n > 0 { ChargedAdd(m, i, w, n - 1); }
  }

  lemma {:induction false} PendingStart(m: map<nat, real>, acc: real, i: nat, n: nat)
    requires i !in m
    ensures Pending(m[i := acc], acc, n) == Pending(m, acc, n)
  {
    if n > 0 { PendingStart(m, acc, i, n - 1); }
  }

  lemma {:induction false} PendingStop(m: map<nat, real>, acc: real, i: nat, n: nat)
    requires i in m && i < n
    ensures Pending(m - {i}, acc, n) == Pending(m, acc, n) - (acc - m[i])
  {
    if n - 1 == i { PendingFrame(m, m - {i}, acc, n - 1); } else { PendingStop(m, acc, i, n - 1); }
  }

  lemma {:induction false} PendingFrame(a: map<nat, real>, b: map<nat, real>, acc: real, n: nat)
    requires forall i :: 0 <= i < n ==> (i in a <==> i in b) && (i in a ==> a[i] == b[i])
    ensures Pending(a, acc, n) == Pending(b, acc, n)
  {
    if n > 0 { PendingFrame(a, b, acc, n - 1); }
  }

  ghost function Below(m: map<nat, real>, n: nat): set<nat> { set i: nat | i in m && i < n }

  /** When the total moves on by `d`, every running step moves on by `d`. */
  lemma BelowNext(m: map<nat, real>, n: nat)
    ensures |Below(m, n + 1)| == |Below(m, n)| + if n in m then 1 else 0
  {
    if n in m {
      assert Below(m, n + 1) == Below(m, n) + {n};
    } else {
      assert Below(m, n + 1) == Below(m, n);
    }
  }

  lemma {:induction false} PendingAdvance(m: map<nat, real>, acc: real, d: real, n: nat)
    ensures Pending(m, acc + d, n) == Pending(m, acc, n) + |Below(m, n)| as real * d
  {
    if n == 0 {
      assert Below(m, 0) == {};
    } else {
      PendingAdvance(m, acc, d, n - 1);
      BelowNext(m, n - 1);
      hide Below;
      if n - 1 in m { OneMore(|Below(m, n - 1)|, d); }
    }
  }

  lemma OneMore(n: nat, d: real)
    ensures (n + 1) as real * d == n as real * d + d
  {
  }

  // ------------------------------------------------------------- weight facts

  lemma {:induction false} WeightSplit(ts: seq<Target>, a: int, b: int, c: int)
    requires a <= b <= c
    ensures Weight(ts, a, c) == Weight(ts, a, b) + Weight(ts, b, c)
    decreases c - b
  {
    if b < c { WeightSplit(ts, a, b, c - 1); }
  }

  lemma ShareBounds(ts: seq<Target>, t: int)
    ensures 0.0 <= Share(ts, t) <= 1.0
  {
    if Active(ts, t) != {} {
      var n := |Active(ts, t)| as real;
      assert n >= 1.0;
      InverseBounds(n);
    }
  }

  lemma InverseBounds(n: real)
    requires n >= 1.0
    ensures 0.0 <= 1.0 / n <= 1.0
  {
    assert (1.0 / n) * n == 1.0;
  }

  /** A step is charged at least nothing and at most its own duration. */
  lemma {:induction false} WeightBounds(ts: seq<Target>, a: int, b: int)
    requires a <= b
    ensures 0.0 <= Weight(ts, a, b) <= (b - a) as real
    decreases b - a
  {
    if a < b {
      WeightBounds(ts, a, b - 1);
      ShareBounds(ts, b - 1);
    }
  }

  /** Between two events the same steps run throughout. */
  lemma {:induction false} WeightConstant(ts: seq<Target>, a: int, b: int, open: set<nat>)
    requires a <= b && forall t :: a <= t < b ==> Active(ts, t) == open
    ensures Weight(ts, a, b) == if open == {} then 0.0 else (b - a) as real / |open| as real
    decreases b - a
  {
    if a < b {
      WeightConstant(ts, a, b - 1, open);
      assert Active(ts, b - 1) == open;
      if open != {} { DivAdd((b - 1 - a) as real, 1.0, |open| as real); }
    }
  }

  lemma DivAdd(x: real, y: real, n: real)
    requires n > 0.0
    ensures x / n + y / n == (x + y) / n
    ensures 0.0 / n == 0.0
  {
  }

  lemma {:induction false} BusyConstant(ts: seq<Target>, a: int, b: int, c: int, open: set<nat>)
    requires a <= b <= c && forall t :: b <= t < c ==> Active(ts, t) == open
    ensures |Busy(ts, a, c)| == |Busy(ts, a, b)| + (if open == {} then 0 else c - b)
    decreases c - b
  {
    if b < c {
      BusyConstant(ts, a, b, c - 1, open);
      assert Active(ts, c - 1) == open;
      BusyNext(ts, a, c - 1);
      hide Busy, Active;
    }
  }

  lemma BusyNext(ts: seq<Target>, a: int, b: int)
    requires a <= b
    ensures |Busy(ts, a, b + 1)| == |Busy(ts, a, b)| + if Active(ts, b) == {} then 0 else 1
  {
    hide Active;
    if Active(ts, b) == {} {
      assert Busy(ts, a, b + 1) == Busy(ts, a, b);
    } else {
      assert Busy(ts, a, b + 1) == Busy(ts, a, b) + {b};
    }
  }

  // ------------------------------------------------------------ the invariant

  ghost function StartOf(ts: seq<Target>, i: nat): Event
    requires i < |ts|
  {
    Event(ts[i].start, false, i)
  }

  ghost function StopOf(ts: seq<Target>, i: nat): Event
    requires i < |ts|
  {
    Event(ts[i].end, true, i)
  }

  /** Started and not stopped within the first `k` events. */
  ghost predicate Open(ts: seq<Target>, es: seq<Event>, k: nat, i: nat)
    requires k <= |es|
  {
    i < |ts| && StartOf(ts, i) in es[..k] && StopOf(ts, i) !in es[..k]
  }

  /** Which steps the two dictionaries hold after `k` events. */
  ghost predicate Placed(ts: seq<Target>, es: seq<Event>, k: nat, s: Sweep)
    requires k <= |es|
  {
    && (forall i: nat :: i in s.running <==> Open(ts, es, k, i))
    && (forall i: nat :: i in s.weighted <==> i < |ts| && StopOf(ts, i) in es[..k])
  }

  /** What they say about each step. */
  ghost predicate Weighed(ts: seq<Target>, t0: int, s: Sweep) {
    && (forall i :: i in s.running ==> i < |ts| && s.running[i] == Weight(ts, t0, ts[i].start))
    && (forall i :: i in s.weighted ==>
          i < |ts| && ts[i].start <= ts[i].end && s.weighted[i] == Weight(ts, ts[i].start, ts[i].end))
  }

  /** The running totals. */
  ghost predicate Summed(ts: seq<Target>, t0: int, s: Sweep) {
    && s.acc == Weight(ts, t0, s.lastTime)
    && s.total == Charged(s.weighted, |ts|)
    && s.total + Pending(s.running, s.acc, |ts|) == |Busy(ts, t0, s.lastTime)| as real
  }

  /** The books after `k` events. */
  ghost predicate Tracks(ts: seq<Target>, es: seq<Event>, k: nat, s: Sweep)
    requires es != [] && k <= |es|
  {
    && s.lastTime == es[if k == 0 then 0 else k - 1].time
    && Placed(ts, es, k, s) && Weighed(ts, es[0].time, s) && Summed(ts, es[0].time, s)
  }

  lemma PrefixGrows(es: seq<Event>, k: nat)
    requires k < |es|
    ensures forall e :: e in es[..k + 1] <==> e in es[..k] || e == es[k]
  {
    assert es[..k + 1] == es[..k] + [es[k]];
  }

  /** Events outside the prefix come later, events inside come earlier. */
  lemma Place(ts: seq<Target>, es: seq<Event>, k: nat, e: Event)
    requires Schedule(ts, es) && k < |es| && IsEvent(ts, e)
    ensures e in es[..k] ==> Before(e, es[k]) && e != es[k] && (k > 0 ==> e.time <= es[k - 1].time)
    ensures e !in es[..k] ==> e == es[k] || Before(es[k], e)
  {
    assert e in es;
    var j :| 0 <= j < |es| && es[j] == e;
    if j < k { assert es[..k][j] == e; }
    if e in es[..k] {
      var m :| 0 <= m < k && es[..k][m] == e;
      assert es[m] == e;
    }
  }

  lemma SameThroughout(ts: seq<Target>, es: seq<Event>, k: nat, t: int, i: nat)
    requires Schedule(ts, es) && 0 < k < |es| && es[k - 1].time <= t < es[k].time
    ensures i in Active(ts, t) <==> Open(ts, es, k, i)
  {
    if i < |ts| {
      Place(ts, es, k, StartOf(ts, i));
      Place(ts, es, k, StopOf(ts, i));
    }
  }

  lemma AdvanceTracks(ts: seq<Target>, es: seq<Event>, k: nat, s: Sweep)
    requires Schedule(ts, es) && k < |es| && Tracks(ts, es, k, s)
    ensures s.lastTime <= es[k].time && Advance(s, es[k].time) == Weight(ts, es[0].time, es[k].time)
    ensures s.total + Pending(s.running, Advance(s, es[k].time), |ts|) == |Busy(ts, es[0].time, es[k].time)| as real
  {
    var a, b, open := s.lastTime, es[k].time, s.running.Keys;
    assert k > 0 ==> Before(es[k - 1], es[k]);
    assert k > 1 ==> Before(es[0], es[k - 1]);
    forall t | a <= t < b ensures Active(ts, t) == open {
      forall i: nat ensures i in Active(ts, t) <==> i in open { SameThroughout(ts, es, k, t, i); }
    }
    hide Tracks, Schedule;
    AdvanceSums(ts, es[0].time, a, b, s);
  }

  lemma AdvanceWeight(ts: seq<Target>, t0: int, a: int, b: int, s: Sweep)
    requires t0 <= a == s.lastTime <= b && s.acc == Weight(ts, t0, a)
    requires forall t :: a <= t < b ==> Active(ts, t) == s.running.Keys
    ensures Advance(s, b) == Weight(ts, t0, b)
  {
    WeightSplit(ts, t0, a, b);
    WeightConstant(ts, a, b, s.running.Keys);
    assert s.running.Keys == {} <==> |s.running| == 0;
    assert |s.running| == |s.running.Keys|;
    hide Weight;
  }

  /** Moving on by `x`, shared by the running steps, adds `x` in all to what they have accumulated. */
  lemma AdvancePending(m: map<nat, real>, acc: real, x: real, n: nat)
    requires m != map[] && forall i: nat :: i in m ==> i < n
    ensures Pending(m, acc + x / |m| as real, n) == Pending(m, acc, n) + x
  {
    var d := x / |m| as real;
    PendingAdvance(m, acc, d, n);
    assert Below(m, n) == m.Keys;
    assert |m| == |m.Keys| == |Below(m, n)|;
    DivMul(x, |m| as real);
  }

  lemma AdvanceSums(ts: seq<Target>, t0: int, a: int, b: int, s: Sweep)
    requires t0 <= a == s.lastTime <= b && s.acc == Weight(ts, t0, a) && (forall i: nat :: i in s.running ==> i < |ts|)
    requires forall t :: a <= t < b ==> Active(ts, t) == s.running.Keys
    requires s.total + Pending(s.running, s.acc, |ts|) == |Busy(ts, t0, a)| as real
    ensures Advance(s, b) == Weight(ts, t0, b)
    ensures s.total + Pending(s.running, Advance(s, b), |ts|) == |Busy(ts, t0, b)| as real
  {
    AdvanceWeight(ts, t0, a, b, s);
    BusyConstant(ts, t0, a, b, s.running.Keys);
    hide Weight, Pending, Active, Busy;
    if s.running != map[] {
      assert s.running.Keys != {};
      AdvancePending(s.running, s.acc, (b - a) as real, |ts|);
    } else {
      assert s.running.Keys == {};
    }
  }

  lemma DivMul(x: real, n: real)
    requires n > 0.0
    ensures n * (x / n) == x
  {
  }

  lemma StartFacts(ts: seq<Target>, es: seq<Event>, k: nat, s: Sweep)
    requires Schedule(ts, es) && k < |es| && Tracks(ts, es, k, s) && !es[k].stop
    ensures es[k].id < |ts| && es[k] == StartOf(ts, es[k].id) && es[k].id !in s.running && StopOf(ts, es[k].id) !in es[..k]
  {
    assert es[k] in es;
    Place(ts, es, k, es[k]);
    Place(ts, es, k, StopOf(ts, es[k].id));
  }

  lemma StartPlaced(ts: seq<Target>, es: seq<Event>, k: nat, s: Sweep)
    requires k < |es| && Placed(ts, es, k, s) && !es[k].stop
    requires es[k].id < |ts| && es[k] == StartOf(ts, es[k].id) && StopOf(ts, es[k].id) !in es[..k]
    ensures Placed(ts, es, k + 1, Handle(s, es[k]).value)
  {
    PrefixGrows(es, k);
    hide Advance;
    var s' := Handle(s, es[k]).value;
    forall i: nat ensures i in s'.running <==> Open(ts, es, k + 1, i) {
      assert i in s.running <==> Open(ts, es, k, i);
    }
  }

  lemma StartSummed(ts: seq<Target>, t0: int, s: Sweep, e: Event)
    requires Weighed(ts, t0, s) && s.total == Charged(s.weighted, |ts|) && !e.stop && e.id !in s.running
    requires e.id < |ts| && e.time == ts[e.id].start && Advance(s, e.time) == Weight(ts, t0, e.time)
    requires s.total + Pending(s.running, Advance(s, e.time), |ts|) == |Busy(ts, t0, e.time)| as real
    ensures Weighed(ts, t0, Handle(s, e).value) && Summed(ts, t0, Handle(s, e).value)
  {
    PendingStart(s.running, Advance(s, e.time), e.id, |ts|);
    hide Advance;
  }

  lemma StartTracks(ts: seq<Target>, es: seq<Event>, k: nat, s: Sweep)
    requires Schedule(ts, es) && k < |es| && Tracks(ts, es, k, s) && !es[k].stop
    ensures Tracks(ts, es, k + 1, Handle(s, es[k]).value)
  {
    AdvanceTracks(ts, es, k, s);
    StartFacts(ts, es, k, s);
    StartPlaced(ts, es, k, s);
    StartSummed(ts, es[0].time, s, es[k]);
    hide Schedule, Placed, Weighed, Summed, Advance;
  }

  lemma StopFacts(ts: seq<Target>, es: seq<Event>, k: nat, s: Sweep)
    requires Schedule(ts, es) && k < |es| && Placed(ts, es, k, s) && es[k].stop && es[k].id in s.running
    ensures es[k].id < |ts| && es[k] == StopOf(ts, es[k].id) && es[k].id !in s.weighted
    ensures es[0].time <= ts[es[k].id].start <= ts[es[k].id].end
  {
    var e := es[k];
    assert e in es;
    Place(ts, es, k, e);
    Place(ts, es, k, StartOf(ts, e.id));
    assert StartOf(ts, e.id) in es;
  }

  lemma StopPlaced(ts: seq<Target>, es: seq<Event>, k: nat, s: Sweep)
    requires k < |es| && Placed(ts, es, k, s) && es[k].stop && es[k].id in s.running
    requires es[k].id < |ts| && es[k] == StopOf(ts, es[k].id)
    ensures Placed(ts, es, k + 1, Handle(s, es[k]).value)
  {
    PrefixGrows(es, k);
    hide Advance;
    var s' := Handle(s, es[k]).value;
    forall i: nat ensures i in s'.running <==> Open(ts, es, k + 1, i) {
      assert i in s.running <==> Open(ts, es, k, i);
    }
  }

  lemma StopSummed(ts: seq<Target>, t0: int, s: Sweep, e: Event)
    requires Weighed(ts, t0, s) && s.total == Charged(s.weighted, |ts|) && e.stop && e.id in s.running && e.id !in s.weighted
    requires t0 <= ts[e.id].start <= ts[e.id].end == e.time && Advance(s, e.time) == Weight(ts, t0, e.time)
    requires s.total + Pending(s.running, Advance(s, e.time), |ts|) == |Busy(ts, t0, e.time)| as real
    ensures Weighed(ts, t0, Handle(s, e).value) && Summed(ts, t0, Handle(s, e).value)
  {
    var acc := Advance(s, e.time);
    WeightSplit(ts, t0, ts[e.id].start, ts[e.id].end);
    ChargedAdd(s.weighted, e.id, acc - s.running[e.id], |ts|);
    PendingStop(s.running, acc, e.id, |ts|);
    hide Advance;
  }

  lemma StopTracks(ts: seq<Target>, es: seq<Event>, k: nat, s: Sweep)
    requires Schedule(ts, es) && k < |es| && Tracks(ts, es, k, s) && es[k].stop && es[k].id in s.running
    ensures Tracks(ts, es, k + 1, Handle(s, es[k]).value)
  {
    AdvanceTracks(ts, es, k, s);
    StopFacts(ts, es, k, s);
    StopPlaced(ts, es, k, s);
    StopSummed(ts, es[0].time, s, es[k]);
    hide Schedule, Placed, Weighed, Summed, Advance;
  }

  /** A stop can only miss its start when the step is logged as ending before it starts. */
  lemma MissingStart(ts: seq<Target>, es: seq<Event>, k: nat, s: Sweep)
    requires Schedule(ts, es) && k < |es| && Tracks(ts, es, k, s) && es[k].stop && es[k].id !in s.running
    ensures es[k].id < |ts| && ts[es[k].id].end < ts[es[k].id].start
  {
    assert es[k] in es;
    Place(ts, es, k, es[k]);
    Place(ts, es, k, StartOf(ts, es[k].id));
  }

  ghost predicate WellTimed(ts: seq<Target>) { forall i :: 0 <= i < |ts| ==> ts[i].start <= ts[i].end }

  lemma {:induction false} SweepTracks(ts: seq<Target>, es: seq<Event>, k: nat)
    requires Schedule(ts, es) && es != [] && k <= |es|
    ensures SweepTo(es, k).Some? ==> Tracks(ts, es, k, SweepTo(es, k).value)
    ensures SweepTo(es, k).None? ==> !WellTimed(ts)
  {
    if k == 0 {
      NothingPending(map[], 0.0, |ts|);
      assert Busy(ts, es[0].time, es[0].time) == {};
    } else {
      SweepTracks(ts, es, k - 1);
      var s := SweepTo(es, k - 1);
      if s.Some? {
        hide Schedule, Tracks;
        if !es[k - 1].stop { StartTracks(ts, es, k - 1, s.value); }
        else if es[k - 1].id in s.value.running { StopTracks(ts, es, k - 1, s.value); }
        else { MissingStart(ts, es, k - 1, s.value); }
      }
    }
  }

  lemma {:induction false} NothingPending(m: map<nat, real>, acc: real, n: nat)
    requires m == map[]
    ensures Pending(m, acc, n) == 0.0 && Charged(m, n) == 0.0
  {
    if n > 0 { NothingPending(m, acc, n - 1); }
  }

  /**
   The sweep finds every stop's step running if and only if no step ends before it starts. Then no step
   is left running, each step is charged the sum of its shares, between nothing and its own duration,
   and the charges add up to exactly the time in which at least one step runs.
   */
  lemma SweepIsFair(ts: seq<Target>, es: seq<Event>)
    requires Schedule(ts, es) && es != []
    ensures SweepTo(es, |es|).Some? <==> WellTimed(ts)
    ensures SweepTo(es, |es|).Some? ==>
              var s := SweepTo(es, |es|).value;
              && s.running == map[]
              && (forall i :: 0 <= i < |ts| ==>
                    && i in s.weighted && s.weighted[i] == Weight(ts, ts[i].start, ts[i].end)
                    && 0.0 <= s.weighted[i] <= (ts[i].end - ts[i].start) as real)
              && s.total == Charged(s.weighted, |ts|) == |Busy(ts, es[0].time, es[|es| - 1].time)| as real
  {
    SweepTracks(ts, es, |es|);
    if SweepTo(es, |es|).Some? {
      var s := SweepTo(es, |es|).value;
      assert es[..|es|] == es;
      forall i | 0 <= i < |ts|
        ensures i in s.weighted && !Open(ts, es, |es|, i) && ts[i].start <= ts[i].end
        ensures 0.0 <= Weight(ts, ts[i].start, ts[i].end) <= (ts[i].end - ts[i].start) as real
      {
        assert StopOf(ts, i) in es;
        WeightBounds(ts, ts[i].start, ts[i].end);
      }
      assert forall i: nat :: i !in s.running;
      assert s.running == map[];
      NothingPending(s.running, s.acc, |ts|);
    }
  }

  // -------------------------------------------------------- ordering the events

  /** One start and one stop per step, in the order of the steps. */
  function EventsOf(ts: seq<Target>, n: nat): seq<Event>
    requires n <= |ts|
  {
    if n == 0 then []
    else EventsOf(ts, n - 1) + [Event(ts[n - 1].start, false, n - 1), Event(ts[n - 1].end, true, n - 1)]
  }

  /** Stable insertion: after every event that is not later. */
  function Place1(e: Event, es: seq<Event>): seq<Event> {
    if es == [] || !Before(es[0], e) then [e] + es else [es[0]] + Place1(e, es[1..])
  }

  function SortEvents(es: seq<Event>): seq<Event> {
    if es == [] then [] else Place1(es[|es| - 1], SortEvents(es[..|es| - 1]))
  }

  ghost predicate Sorted(es: seq<Event>) {
    forall i, j :: 0 <= i < j < |es| ==> Before(es[i], es[j]) && es[i] != es[j]
  }

  lemma {:induction false} PlaceSorts(e: Event, es: seq<Event>)
    requires Sorted(es) && e !in es
    ensures Sorted(Place1(e, es)) && forall x :: x in Place1(e, es) <==> x == e || x in es
  {
    if es != [] && Before(es[0], e) {
      var rest := es[1..];
      assert forall i :: 0 <= i < |rest| ==> rest[i] == es[i + 1];
      PlaceSorts(e, rest);
      var r := Place1(e, rest);
      forall x | x in r ensures Before(es[0], x) && es[0] != x {
        if x in rest { var i :| 0 <= i < |rest| && rest[i] == x; assert es[i + 1] == x; }
      }
      SortedCons(es[0], r);
      assert es == [es[0]] + rest;
    } else {
      forall x | x in es ensures Before(e, x) && e != x {
        var i :| 0 <= i < |es| && es[i] == x;
      }
      SortedCons(e, es);
    }
  }

  lemma SortedCons(e: Event, es: seq<Event>)
    requires Sorted(es) && forall x :: x in es ==> Before(e, x) && e != x
    ensures Sorted([e] + es) && forall x :: x in [e] + es <==> x == e || x in es
  {
    var r := [e] + es;
    forall i, j | 0 <= i < j < |r| ensures Before(r[i], r[j]) && r[i] != r[j] {
      assert r[j] == es[j - 1] && es[j - 1] in es;
      if i > 0 { assert r[i] == es[i - 1]; }
    }
  }

  lemma {:induction false} SortSorts(es: seq<Event>)
    requires Distinct(es)
    ensures Sorted(SortEvents(es)) && forall x :: x in SortEvents(es) <==> x in es
  {
    if es != [] {
      var front, e := es[..|es| - 1], es[|es| - 1];
      SortSorts(front);
      assert es == front + [e];
      PlaceSorts(e, SortEvents(front));
    }
  }

  lemma {:induction false} EventsAreAll(ts: seq<Target>, n: nat)
    requires n <= |ts|
    ensures Distinct(EventsOf(ts, n)) && forall e :: e in EventsOf(ts, n) <==> IsEvent(ts, e) && e.id < n
  {
    if n > 0 {
      EventsAreAll(ts, n - 1);
      var old_ := EventsOf(ts, n - 1);
      var a, b := Event(ts[n - 1].start, false, n - 1), Event(ts[n - 1].end, true, n - 1);
      assert a !in old_ && b !in old_;
      assert forall i :: 0 <= i < |old_| ==> old_[i] in old_;
    }
  }

  lemma SortedIsSchedule(ts: seq<Target>)
    ensures Schedule(ts, SortEvents(EventsOf(ts, |ts|)))
    ensures ts != [] ==> SortEvents(EventsOf(ts, |ts|)) != []
  {
    EventsAreAll(ts, |ts|);
    SortSorts(EventsOf(ts, |ts|));
    if ts != [] { assert IsEvent(ts, StartOf(ts, 0)); }
  }

  // --------------------------------------------------------------- the report

  /** Every step runs within the range from `a` to `b`. */
  ghost predicate Spans(ts: seq<Target>, a: int, b: int) {
    forall i :: 0 <= i < |ts| ==> a <= ts[i].start && ts[i].end <= b
  }

  /** Any range that holds every step has the same busy time. */
  lemma BusyAnyRange(ts: seq<Target>, a: int, b: int, c: int, d: int)
    requires Spans(ts, a, b) && Spans(ts, c, d)
    ensures Busy(ts, a, b) == Busy(ts, c, d)
  {
    forall t | Active(ts, t) != {} ensures a <= t < b && c <= t < d {
      var i :| i in Active(ts, t);
    }
  }

  lemma {:induction false} BusyWithin(ts: seq<Target>, a: int, b: int)
    requires a <= b
    ensures |Busy(ts, a, b)| <= b - a
    decreases b - a
  {
    if a < b {
      BusyWithin(ts, a, b - 1);
      assert Busy(ts, a, b) <= Busy(ts, a, b - 1) + {b - 1};
      SubsetSize(Busy(ts, a, b), Busy(ts, a, b - 1) + {b - 1});
    } else {
      assert Busy(ts, a, b) == {};
    }
  }

  lemma {:induction false} SubsetSize<T>(a: set<T>, b: set<T>)
    requires a <= b
    ensures |a| <= |b|
    decreases a
  {
    if a != {} {
      var x :| x in a;
      SubsetSize(a - {x}, b - {x});
    }
  }

  /** The first start and the last end of the first `n` steps, from the source's sentinels. */
  function Earliest(ts: seq<Target>, n: nat): int
    requires n <= |ts|
  {
    if n == 0 then -1
    else
      var before := Earliest(ts, n - 1);
      if before < 0 || ts[n - 1].start < before then ts[n - 1].start else before
  }

  function Latest(ts: seq<Target>, n: nat): int
    requires n <= |ts|
  {
    if n == 0 then 0
    else if ts[n - 1].end > Latest(ts, n - 1) then ts[n - 1].end else Latest(ts, n - 1)
  }

  /** The elapsed time the report divides by. */
  function Length(ts: seq<Target>): int { Latest(ts, |ts|) - Earliest(ts, |ts|) }

  /** The first start and the last end, found with the source's sentinels. */
  method Span(ts: seq<Target>) returns (earliest: int, latest: int)
    ensures (forall i :: 0 <= i < |ts| ==> 0 <= ts[i].start) && ts != [] ==>
              && (forall i :: 0 <= i < |ts| ==> 0 <= earliest <= ts[i].start)
              && exists i :: 0 <= i < |ts| && earliest == ts[i].start
    ensures (forall i :: 0 <= i < |ts| ==> ts[i].end <= latest) && (latest == 0 || exists i :: 0 <= i < |ts| && latest == ts[i].end)
    ensures earliest == Earliest(ts, |ts|) && latest == Latest(ts, |ts|)
  {
    earliest, latest := -1, 0;
    for n := 0 to |ts|
      invariant earliest == Earliest(ts, n) && latest == Latest(ts, n)
      invariant (forall i :: 0 <= i < |ts| ==> 0 <= ts[i].start) ==>
                  if n == 0 then earliest == -1
                  else (forall i :: 0 <= i < n ==> 0 <= earliest <= ts[i].start) && exists i :: 0 <= i < n && earliest == ts[i].start
      invariant (forall i :: 0 <= i < n ==> ts[i].end <= latest) && (latest == 0 || exists i :: 0 <= i < n && latest == ts[i].end)
      invariant latest >= 0
    {
      if earliest < 0 || ts[n].start < earliest { earliest := ts[n].start; }
      if ts[n].end > latest { latest := ts[n].end; }
    }
  }

  datatype Report = Report(weighted: map<nat, real>, total: real, length: int)

  /** The sweep over all events; `None` for no steps at all, or a step that ends before it starts. */
  method ChargeAll(ts: seq<Target>) returns (r: Option<Report>)
    ensures r.Some? <==> ts != [] && WellTimed(ts)
    ensures r.Some? ==>
              forall i :: 0 <= i < |ts| ==> i in r.value.weighted && r.value.weighted[i] == Weight(ts, ts[i].start, ts[i].end)
    ensures r.Some? ==> r.value.total == Charged(r.value.weighted, |ts|)
    ensures r.Some? ==> forall a, b :: Spans(ts, a, b) ==> r.value.total == |Busy(ts, a, b)| as real
    ensures r.Some? ==> r.value.length == Length(ts) && 0.0 <= r.value.total
    ensures r.Some? && (forall i :: 0 <= i < |ts| ==> 0 <= ts[i].start) ==> r.value.total <= r.value.length as real
  {
    if ts == [] { return None; }
    var earliest, latest := Span(ts);
    var events := SortEvents(EventsOf(ts, |ts|));
    SortedIsSchedule(ts);
    SweepIsFair(ts, events);
    var s := Sweep(events[0].time, 0.0, map[], map[], 0.0);
    for k := 0 to |events|
      invariant SweepTo(events, k) == Some(s)
    {
      var e := events[k];
      var s' := Handle(s, e);
      assert SweepTo(events, k + 1) == s';
      if s'.None? {
        SweepStops(events, k + 1, |events|);
        return None;
      }
      s := s'.value;
    }
    SpanCovers(ts, events);
    forall a, b | Spans(ts, a, b) ensures s.total == |Busy(ts, a, b)| as real {
      BusyAnyRange(ts, events[0].time, events[|events| - 1].time, a, b);
    }
    if forall i :: 0 <= i < |ts| ==> 0 <= ts[i].start {
      assert earliest <= ts[0].start <= ts[0].end <= latest;
      assert Spans(ts, earliest, latest);
      BusyWithin(ts, earliest, latest);
    }
    return Some(Report(s.weighted, s.total, latest - earliest));
  }

  /**
   The whole report; `None` stands for the source's errors: no steps, a step that ends before it starts, or
   a build of no length, by which the report divides.
   */
  method Summarize(ts: seq<Target>) returns (r: Option<Report>)
    ensures r.Some? <==> ts != [] && WellTimed(ts) && Length(ts) != 0
    ensures r.Some? ==>
              forall i :: 0 <= i < |ts| ==> i in r.value.weighted && r.value.weighted[i] == Weight(ts, ts[i].start, ts[i].end)
    ensures r.Some? ==> r.value.total == Charged(r.value.weighted, |ts|)
    ensures r.Some? ==> forall a, b :: Spans(ts, a, b) ==> r.value.total == |Busy(ts, a, b)| as real
    ensures r.Some? ==> r.value.length == Length(ts)
    ensures r.Some? && (forall i :: 0 <= i < |ts| ==> 0 <= ts[i].start) ==>
              0.0 <= r.value.total <= r.value.length as real && r.value.length > 0
  {
    hide Weight, Charged, Busy, WellTimed, Earliest, Latest;
    r := ChargeAll(ts);
    if r.Some? && r.value.length == 0 { return None; }
  }

  /** Steps logged at times from zero on: the length is from the first start to the last end. */
  lemma LengthIs(ts: seq<Target>)
    requires ts != [] && WellTimed(ts) && forall i :: 0 <= i < |ts| ==> 0 <= ts[i].start
    ensures forall i, j :: 0 <= i < |ts| && 0 <= j < |ts| ==> ts[j].end - ts[i].start <= Length(ts)
    ensures exists i, j :: 0 <= i < |ts| && 0 <= j < |ts| && Length(ts) == ts[j].end - ts[i].start
  {
    EarliestIs(ts, |ts|);
    LatestIs(ts, |ts|);
    hide Earliest, Latest, WellTimed;
    var i :| 0 <= i < |ts| && Earliest(ts, |ts|) == ts[i].start;
    var j :| 0 <= j < |ts| && Latest(ts, |ts|) == ts[j].end;
    assert Length(ts) == ts[j].end - ts[i].start;
  }

  /** Steps logged at times from zero on: the build has no length exactly when all happens in one moment. */
  lemma NoLengthIff(ts: seq<Target>)
    requires ts != [] && WellTimed(ts) && forall i :: 0 <= i < |ts| ==> 0 <= ts[i].start
    ensures Length(ts) == 0 <==> forall i, j :: 0 <= i < |ts| && 0 <= j < |ts| ==> ts[i].start == ts[j].end
  {
    EarliestIs(ts, |ts|);
    LatestIs(ts, |ts|);
    if Length(ts) == 0 {
      forall i, j | 0 <= i < |ts| && 0 <= j < |ts| ensures ts[i].start == ts[j].end {
        assert ts[i].start <= ts[i].end && ts[j].start <= ts[j].end;
      }
    }
  }

  lemma {:induction false} EarliestIs(ts: seq<Target>, n: nat)
    requires 0 < n <= |ts| && forall i :: 0 <= i < |ts| ==> 0 <= ts[i].start
    ensures 0 <= Earliest(ts, n)
    ensures forall i :: 0 <= i < n ==> Earliest(ts, n) <= ts[i].start
    ensures exists i :: 0 <= i < n && Earliest(ts, n) == ts[i].start
  {
    if n > 1 { EarliestIs(ts, n - 1); }
  }

  lemma {:induction false} LatestIs(ts: seq<Target>, n: nat)
    requires 0 < n <= |ts| && WellTimed(ts) && forall i :: 0 <= i < |ts| ==> 0 <= ts[i].start
    ensures forall i :: 0 <= i < n ==> ts[i].end <= Latest(ts, n)
    ensures exists i :: 0 <= i < n && Latest(ts, n) == ts[i].end
  {
    assert ts[n - 1].start <= ts[n - 1].end;
    if n > 1 { LatestIs(ts, n - 1); }
  }

  /** A single step that takes no time is charged, and then the report divides by zero. */
  lemma OneInstant()
    ensures var ts := [Target(5, 5)]; WellTimed(ts) && Length(ts) == 0
  {
    NoLengthIff([Target(5, 5)]);
  }

  lemma {:induction false} SweepStops(es: seq<Event>, j: nat, k: nat)
    requires es != [] && j <= k <= |es| && SweepTo(es, j).None?
    ensures SweepTo(es, k).None?
  {
    if j < k { SweepStops(es, j, k - 1); }
  }

  lemma SpanCovers(ts: seq<Target>, es: seq<Event>)
    requires Schedule(ts, es) && es != []
    ensures Spans(ts, es[0].time, es[|es| - 1].time)
  {
    forall i | 0 <= i < |ts| ensures es[0].time <= ts[i].start && ts[i].end <= es[|es| - 1].time {
      assert StartOf(ts, i) in es && StopOf(ts, i) in es;
    }
  }
}
