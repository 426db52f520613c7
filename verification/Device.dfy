/**
 The device driver as the allocator sees it: live memory handles, mapped ranges and reserved ranges.
 Any call may fail. An oracle tells, by the number of the call, which ones do.
 */
module Device {
  import opened Arithmetic
  import opened Wrappers

  type Oracle = nat -> bool

  datatype Mapping = Mapping(size: int, handle: nat)

  datatype Driver = Driver(
    live: set<nat>,
    mapped: map<int, Mapping>,
    reserved: map<int, int>,
    next: nat,
    calls: nat)

  /** Handles are never issued twice. */
  ghost predicate Wf(d: Driver) {
    forall h :: h in d.live ==> h < d.next
  }

  function Ticked(d: Driver): Driver { d.(calls := d.calls + 1) }

  function Create(d: Driver, f: Oracle): (bool, Driver) {
    if f(d.calls) then (false, Ticked(d))
    else (true, Ticked(d).(live := d.live + {d.next}, next := d.next + 1))
  }

  function Map(d: Driver, f: Oracle, at: int, size: int, h: nat): (bool, Driver) {
    if f(d.calls) then (false, Ticked(d))
    else (true, Ticked(d).(mapped := d.mapped[at := Mapping(size, h)]))
  }

  /** A range can be unmapped only as it was mapped. */
  function Unmap(d: Driver, f: Oracle, at: int, size: int): (bool, Driver) {
    if f(d.calls) || at !in d.mapped || d.mapped[at].size != size then (false, Ticked(d))
    else (true, Ticked(d).(mapped := d.mapped - {at}))
  }

  function Release(d: Driver, f: Oracle, h: nat): (bool, Driver) {
    if f(d.calls) || h !in d.live then (false, Ticked(d))
    else (true, Ticked(d).(live := d.live - {h}))
  }

  function Reserve(d: Driver, f: Oracle, at: int, size: int): (bool, Driver) {
    if f(d.calls) then (false, Ticked(d))
    else (true, Ticked(d).(reserved := d.reserved[at := size]))
  }

  /** A range can be given back only with the size it was reserved with. */
  function GiveBack(d: Driver, f: Oracle, at: int, size: int): (bool, Driver) {
    if f(d.calls) || at !in d.reserved || d.reserved[at] != size then (false, Ticked(d))
    else (true, Ticked(d).(reserved := d.reserved - {at}))
  }

  /** Calls that only check or set something the model does not track. */
  function Other(d: Driver, f: Oracle): (bool, Driver) { (!f(d.calls), Ticked(d)) }

  // ---- Chunk addresses ----

  function Addr(base: int, sizes: seq<int>, i: nat): int
    requires i <= |sizes|
  {
    base + Sum(sizes[..i])
  }

  lemma AddrNext(base: int, sizes: seq<int>, i: nat)
    requires i < |sizes|
    ensures Addr(base, sizes, i + 1) == Addr(base, sizes, i) + sizes[i]
  {
    assert sizes[..i + 1][..i] == sizes[..i];
  }

  ghost predicate Positive(sizes: seq<int>) {
    forall i :: 0 <= i < |sizes| ==> sizes[i] > 0
  }

  /** Chunks do not overlap. */
  lemma {:induction false} AddrApart(base: int, sizes: seq<int>, i: nat, j: nat)
    requires Positive(sizes) && i < j <= |sizes|
    ensures Addr(base, sizes, i) + sizes[i] <= Addr(base, sizes, j)
    decreases j
  {
    AddrNext(base, sizes, j - 1);
    if i < j - 1 { AddrApart(base, sizes, i, j - 1); }
  }

  /** Chunk `i` has address `at`: it lies behind the chunks before it. */
  ghost predicate StartsAt(base: int, sizes: seq<int>, i: nat, at: int) {
    i <= |sizes| && at == base + Sum(sizes[..i])
  }

  /** The chunks fill the range from the base without a gap: every address of it is in one of them, and only in one. */
  lemma {:induction false} ChunksFill(base: int, sizes: seq<int>, x: int) returns (i: nat)
    requires Positive(sizes) && base <= x < base + Sum(sizes)
    ensures i < |sizes| && Addr(base, sizes, i) <= x < Addr(base, sizes, i) + sizes[i]
    ensures StartsAt(base, sizes, i, Addr(base, sizes, i))
    ensures forall j: nat :: j < |sizes| && j != i ==> !(Addr(base, sizes, j) <= x < Addr(base, sizes, j) + sizes[j])
  {
    assert sizes[..|sizes|] == sizes;
    i := FillsUpTo(base, sizes, x, |sizes|);
    forall j: nat | j < |sizes| && j != i ensures !(Addr(base, sizes, j) <= x < Addr(base, sizes, j) + sizes[j]) {
      if j < i { AddrApart(base, sizes, j, i); } else { AddrApart(base, sizes, i, j); }
    }
  }

  lemma {:induction false} FillsUpTo(base: int, sizes: seq<int>, x: int, n: nat) returns (i: nat)
    requires n <= |sizes| && base <= x < Addr(base, sizes, n)
    ensures i < n && Addr(base, sizes, i) <= x < Addr(base, sizes, i) + sizes[i]
    decreases n
  {
    assert sizes[..0] == [];
    if Addr(base, sizes, n - 1) <= x {
      AddrNext(base, sizes, n - 1);
      i := n - 1;
    } else {
      i := FillsUpTo(base, sizes, x, n - 1);
    }
  }

  ghost predicate AllIn(s: seq<nat>, live: set<nat>) { forall i :: 0 <= i < |s| ==> s[i] in live }

  ghost function SetOf(s: seq<nat>): set<nat> { set h | h in s }

  // ---- Loops over chunks ----

  datatype Built = Built(err: bool, handles: seq<nat>, d: Driver)

  /** Create handles until there are `n`, or a creation finds the error set. */
  function CreateAll(d: Driver, f: Oracle, n: nat): Built {
    if n == 0 then Built(false, [], d)
    else
      var b := CreateAll(d, f, n - 1);
      if b.err then b
      else
        var (ok, d') := Create(b.d, f);
        Built(!ok, if ok then b.handles + [b.d.next] else b.handles, d')
  }

  /** Release every handle whatever the calls answer, and tell whether all succeeded. */
  function ReleaseAll(d: Driver, f: Oracle, hs: seq<nat>): (bool, Driver) {
    if hs == [] then (true, d)
    else
      var (ok1, d1) := ReleaseAll(d, f, hs[..|hs| - 1]);
      var (ok2, d2) := Release(d1, f, hs[|hs| - 1]);
      (ok1 && ok2, d2)
  }

  function UnmapAll(d: Driver, f: Oracle, base: int, sizes: seq<int>, n: nat): (bool, Driver)
    requires n <= |sizes|
  {
    if n == 0 then (true, d)
    else
      var (ok1, d1) := UnmapAll(d, f, base, sizes, n - 1);
      var (ok2, d2) := Unmap(d1, f, Addr(base, sizes, n - 1), sizes[n - 1]);
      (ok1 && ok2, d2)
  }

  /** Map chunks in order until all `n` are mapped or one fails; the count tells how many are mapped. */
  function MapAll(d: Driver, f: Oracle, base: int, sizes: seq<int>, hs: seq<nat>, n: nat): (nat, Driver)
    requires n <= |sizes| && n <= |hs|
  {
    if n == 0 then (0, d)
    else
      var (k, d1) := MapAll(d, f, base, sizes, hs, n - 1);
      if k < n - 1 then (k, d1)
      else
        var (ok, d2) := Map(d1, f, Addr(base, sizes, n - 1), sizes[n - 1], hs[n - 1]);
        (if ok then k + 1 else k, d2)
  }

  /** What mapping the first `n` chunks puts in the table. */
  function Mappings(base: int, sizes: seq<int>, hs: seq<nat>, n: nat): map<int, Mapping>
    requires n <= |sizes| && n <= |hs|
  {
    if n == 0 then map[]
    else Mappings(base, sizes, hs, n - 1)[Addr(base, sizes, n - 1) := Mapping(sizes[n - 1], hs[n - 1])]
  }

  // ---- What the loops leave ----

  /** The next `k` handles the driver would issue. */
  function Fresh(next: nat, k: nat): (s: seq<nat>)
    ensures |s| == k && forall i :: 0 <= i < k ==> s[i] == next + i
  {
    if k == 0 then [] else Fresh(next, k - 1) + [next + k - 1]
  }

  lemma FreshAre(next: nat, k: nat)
    ensures Distinct(Fresh(next, k))
    ensures forall h :: h in Fresh(next, k) <==> next <= h < next + k
  {
    forall h | next <= h < next + k ensures h in Fresh(next, k) {
      assert Fresh(next, k)[h - next] == h;
    }
  }

  /** The handles are the next ones the driver issues, and a failed creation stops the loop. */
  ghost predicate Created(d: Driver, f: Oracle, n: nat, b: Built) {
    var k := |b.handles|;
    && b.handles == Fresh(d.next, k)
    && b.d == d.(live := d.live + SetOf(b.handles), next := d.next + k,
                 calls := d.calls + k + if b.err then 1 else 0)
    && k <= n && b.err == (k < n) && (b.err ==> f(d.calls + k))
  }

  lemma CreateNext(d: Driver, f: Oracle, n: nat, b: Built)
    requires Created(d, f, n, b) && !b.err
    ensures var (ok, d') := Create(b.d, f);
            Created(d, f, n + 1, Built(!ok, if ok then b.handles + [b.d.next] else b.handles, d'))
  {
    SetOfSnoc(b.handles, b.d.next);
    UnionSnoc(d.live, SetOf(b.handles), b.d.next);
  }

  lemma {:induction false} CreateAllExact(d: Driver, f: Oracle, n: nat)
    ensures Created(d, f, n, CreateAll(d, f, n))
  {
    hide Created, Create;
    if n == 0 {
      CreatedNone(d, f);
    } else {
      CreateAllExact(d, f, n - 1);
      var b := CreateAll(d, f, n - 1);
      if b.err {
        CreatedStops(d, f, n - 1, b);
      } else {
        CreateNext(d, f, n - 1, b);
      }
    }
  }

  lemma CreatedNone(d: Driver, f: Oracle)
    ensures Created(d, f, 0, Built(false, [], d))
  {
    assert d.live + SetOf([]) == d.live;
  }

  lemma CreatedStops(d: Driver, f: Oracle, n: nat, b: Built)
    requires Created(d, f, n, b) && b.err
    ensures Created(d, f, n + 1, b)
  {
  }

  lemma UnionSnoc(live: set<nat>, s: set<nat>, h: nat)
    ensures live + s + {h} == live + (s + {h})
  {
  }

  lemma SetOfSnoc(hs: seq<nat>, h: nat)
    ensures SetOf(hs + [h]) == SetOf(hs) + {h}
  {
  }

  /** The handles whose own release call, numbered from `c`, fails. */
  ghost function Kept(f: Oracle, c: nat, hs: seq<nat>): set<nat> {
    set j: nat | j < |hs| && f(c + j) :: hs[j]
  }

  /** No call from number `c` up to `c + n` fails. */
  ghost predicate Quiet(f: Oracle, c: nat, n: nat) { forall j: nat :: c <= j < c + n ==> !f(j) }

  /** Releasing distinct live handles leaves exactly those whose call failed. */
  ghost predicate Released(d: Driver, f: Oracle, hs: seq<nat>, r: (bool, Driver)) {
    && r.1 == d.(live := d.live - SetOf(hs) + Kept(f, d.calls, hs), calls := d.calls + |hs|)
    && r.0 == Quiet(f, d.calls, |hs|)
  }

  lemma {:induction false} ReleaseAllExact(d: Driver, f: Oracle, hs: seq<nat>)
    requires Distinct(hs) && AllIn(hs, d.live)
    ensures Released(d, f, hs, ReleaseAll(d, f, hs))
  {
    if hs == [] {
      assert d.live - SetOf(hs) + Kept(f, d.calls, hs) == d.live;
    } else {
      var n := |hs| - 1;
      ReleaseAllExact(d, f, hs[..n]);
      ReleaseNext(d, f, hs, ReleaseAll(d, f, hs[..n]));
    }
  }

  lemma ReleaseNext(d: Driver, f: Oracle, hs: seq<nat>, r: (bool, Driver))
    requires hs != [] && Distinct(hs) && AllIn(hs, d.live) && Released(d, f, hs[..|hs| - 1], r)
    ensures var (ok, d') := Release(r.1, f, hs[|hs| - 1]); Released(d, f, hs, (r.0 && ok, d'))
  {
    var front, h := hs[..|hs| - 1], hs[|hs| - 1];
    assert hs == front + [h];
    SetOfSnoc(front, h);
    KeptSnoc(f, d.calls, front, h);
    ReleaseOne(d.live, SetOf(front), Kept(f, d.calls, front), h);
  }

  lemma ReleaseOne(live: set<nat>, gone: set<nat>, kept: set<nat>, h: nat)
    requires h in live && h !in gone
    ensures h in live - gone + kept
    ensures h !in kept ==> (live - gone + kept) - {h} == live - (gone + {h}) + kept
    ensures live - gone + kept == live - (gone + {h}) + (kept + {h})
  {
  }

  lemma KeptSnoc(f: Oracle, c: nat, front: seq<nat>, h: nat)
    ensures Kept(f, c, front + [h]) == Kept(f, c, front) + (if f(c + |front|) then {h} else {})
    ensures Kept(f, c, front) <= SetOf(front)
  {
    var hs := front + [h];
    forall x | x in Kept(f, c, hs) ensures x in Kept(f, c, front) + (if f(c + |front|) then {h} else {}) {
      var j: nat :| j < |hs| && f(c + j) && hs[j] == x;
      if j < |front| { assert front[j] == x; }
    }
    forall x | x in Kept(f, c, front) ensures x in Kept(f, c, hs) {
      var j: nat :| j < |front| && f(c + j) && front[j] == x;
      assert hs[j] == x;
    }
    if f(c + |front|) { assert hs[|front|] == h; }
  }

  /** What a mapping loop leaves when `k` chunks were mapped. */
  ghost predicate Placed(d: Driver, f: Oracle, base: int, sizes: seq<int>, hs: seq<nat>, n: nat, r: (nat, Driver))
    requires n <= |sizes| && n <= |hs|
  {
    var k := r.0;
    && k <= n && (k < n ==> f(d.calls + k))
    && r.1 == d.(mapped := d.mapped + Mappings(base, sizes, hs, k), calls := d.calls + k + if k < n then 1 else 0)
  }

  lemma {:induction false} MapAllExact(d: Driver, f: Oracle, base: int, sizes: seq<int>, hs: seq<nat>, n: nat)
    requires n <= |sizes| && n <= |hs|
    ensures Placed(d, f, base, sizes, hs, n, MapAll(d, f, base, sizes, hs, n))
  {
    if n == 0 {
      assert d.mapped + map[] == d.mapped;
    } else {
      MapAllExact(d, f, base, sizes, hs, n - 1);
      MergeSnoc(d.mapped, Mappings(base, sizes, hs, n - 1), Addr(base, sizes, n - 1), Mapping(sizes[n - 1], hs[n - 1]));
    }
  }

  lemma MergeSnoc(m: map<int, Mapping>, more: map<int, Mapping>, at: int, x: Mapping)
    ensures (m + more)[at := x] == m + more[at := x]
  {
  }

  /** The addresses of the first `n` chunks whose own unmap call, numbered from `c`, succeeds. */
  ghost function Cleared(f: Oracle, c: nat, base: int, sizes: seq<int>, n: nat): set<int>
    requires n <= |sizes|
  {
    if n == 0 then {}
    else Cleared(f, c, base, sizes, n - 1) + if f(c + n - 1) then {} else {Addr(base, sizes, n - 1)}
  }

  lemma {:induction false} NotCleared(f: Oracle, c: nat, base: int, sizes: seq<int>, m: nat, n: nat)
    requires m <= n < |sizes| && Positive(sizes)
    ensures Addr(base, sizes, n) !in Cleared(f, c, base, sizes, m)
  {
    if m > 0 {
      NotCleared(f, c, base, sizes, m - 1, n);
      AddrApart(base, sizes, m - 1, n);
    }
  }

  ghost predicate MappedAs(d: Driver, base: int, sizes: seq<int>, n: nat)
    requires n <= |sizes|
  {
    forall i: nat :: i < n ==> Addr(base, sizes, i) in d.mapped && d.mapped[Addr(base, sizes, i)].size == sizes[i]
  }

  ghost predicate Unmapped(d: Driver, f: Oracle, base: int, sizes: seq<int>, n: nat, r: (bool, Driver))
    requires n <= |sizes|
  {
    && r.1 == d.(mapped := d.mapped - Cleared(f, d.calls, base, sizes, n), calls := d.calls + n)
    && r.0 == Quiet(f, d.calls, n)
  }

  /** Unmapping uses exactly the addresses and sizes mapping used, so only a failed call leaves a range. */
  lemma {:induction false} UnmapAllExact(d: Driver, f: Oracle, base: int, sizes: seq<int>, n: nat)
    requires n <= |sizes| && Positive(sizes) && MappedAs(d, base, sizes, n)
    ensures Unmapped(d, f, base, sizes, n, UnmapAll(d, f, base, sizes, n))
  {
    if n == 0 {
      assert d.mapped - {} == d.mapped;
    } else {
      UnmapAllExact(d, f, base, sizes, n - 1);
      UnmapNext(d, f, base, sizes, n, UnmapAll(d, f, base, sizes, n - 1));
    }
  }

  lemma UnmapNext(d: Driver, f: Oracle, base: int, sizes: seq<int>, n: nat, r: (bool, Driver))
    requires 0 < n <= |sizes| && Positive(sizes) && MappedAs(d, base, sizes, n)
    requires Unmapped(d, f, base, sizes, n - 1, r)
    ensures var (ok, d') := Unmap(r.1, f, Addr(base, sizes, n - 1), sizes[n - 1]);
            Unmapped(d, f, base, sizes, n, (r.0 && ok, d'))
  {
    var at := Addr(base, sizes, n - 1);
    NotCleared(f, d.calls, base, sizes, n - 1, n - 1);
    RemoveSnoc(d.mapped, Cleared(f, d.calls, base, sizes, n - 1), at);
    assert at in d.mapped && d.mapped[at].size == sizes[n - 1];
  }

  lemma RemoveSnoc(m: map<int, Mapping>, gone: set<int>, at: int)
    ensures m - gone - {at} == m - (gone + {at})
  {
  }
}
