/** The allocator's loops over its handle slots and chunk sizes, proved against their values. */
module CumemAllocator {
  import opened ChunkSizes
  import opened Device
  import R = CumemRuns

  class Allocator {
    const fails: Oracle
    var d: Driver
    var err: bool

    constructor (fails: Oracle, d: Driver)
      ensures this.fails == fails && this.d == d && !err
    {
      this.fails := fails;
      this.d := d;
      err := false;
    }

    method ReleaseSlots(slots: array<nat>, n: nat) returns (ok: bool)
      requires n <= slots.Length
      modifies this`d
      ensures (ok, d) == ReleaseAll(old(d), fails, slots[..n])
    {
      ok := true;
      for j := 0 to n
        invariant (ok, d) == ReleaseAll(old(d), fails, slots[..j])
      {
        assert slots[..j + 1][..j] == slots[..j];
        var (good, d') := Release(d, fails, slots[j]);
        d := d';
        if !good { ok := false; }
      }
    }

    /** The address advances by each chunk's size, as it did when the chunks were mapped. */
    method UnmapChunks(base: int, sizes: seq<int>, n: nat) returns (ok: bool)
      requires n <= |sizes|
      modifies this`d
      ensures (ok, d) == UnmapAll(old(d), fails, base, sizes, n)
    {
      ok := true;
      var passed := 0;
      for j := 0 to n
        invariant base + passed == Addr(base, sizes, j)
        invariant (ok, d) == UnmapAll(old(d), fails, base, sizes, j)
      {
        AddrNext(base, sizes, j);
        var (good, d') := Unmap(d, fails, base + passed, sizes[j]);
        d := d';
        if !good { ok := false; }
        passed := passed + sizes[j];
      }
    }

    /** Fill the slots with new handles; after a failure the handles made so far are released. */
    method CreateHandles(n: nat, slots: array<nat>) returns (made: nat)
      requires n == slots.Length && !err
      modifies this`d, this`err, slots
      ensures var b := CreateAll(old(d), fails, n);
              && made == |b.handles| <= n && slots[..made] == b.handles && err == b.err
              && err == (made < n)
              && d == if b.err then ReleaseAll(b.d, fails, b.handles).1 else b.d
    {
      hide ReleaseAll;
      ghost var d0 := d;
      for i := 0 to n
        invariant !err && CreateAll(d0, fails, i) == Built(false, slots[..i], d)
      {
        var h := d.next;
        var (ok, d') := Create(d, fails);
        d := d';
        if !ok {
          err := true;
          CreateStops(d0, fails, i + 1, n);
          var _ := ReleaseSlots(slots, i);
          return i;
        }
        slots[i] := h;
        assert slots[..i + 1] == slots[..i] + [h];
      }
      return n;
    }

    /** Map the chunks in order; after a failure the mapped ones are unmapped. */
    method MapChunks(base: int, sizes: seq<int>, slots: array<nat>) returns (k: nat)
      requires |sizes| == slots.Length && !err
      modifies this`d, this`err
      ensures var (k', d1) := MapAll(old(d), fails, base, sizes, slots[..], |sizes|);
              && k == k' <= |sizes| && err == (k < |sizes|)
              && d == if err then UnmapAll(d1, fails, base, sizes, k).1 else d1
    {
      ghost var d0 := d;
      var placed := 0;
      for i := 0 to |sizes|
        invariant !err && base + placed == Addr(base, sizes, i)
        invariant MapAll(d0, fails, base, sizes, slots[..], i) == (i, d)
      {
        AddrNext(base, sizes, i);
        var (ok, d') := Map(d, fails, base + placed, sizes[i], slots[i]);
        d := d';
        if !ok {
          err := true;
          MapStops(d0, fails, base, sizes, slots[..], i + 1, |sizes|);
          var _ := UnmapChunks(base, sizes, i);
          return i;
        }
        placed := placed + sizes[i];
      }
      return |sizes|;
    }

    /** With the error code set beforehand, the first creation is made and then abandoned. */
    method CreateAndMap(base: int, sizes: seq<int>, slots: array<nat>)
      requires |sizes| == slots.Length
      modifies this`d, this`err, slots
      ensures var (bad, o) := R.CreateAndMap(old(d), fails, old(err), base, sizes);
              && err == bad && d == o.d && |o.handles| <= slots.Length && slots[..|o.handles|] == o.handles
    {
      var (okContext, d1) := Other(d, fails);
      d := d1;
      if !okContext { err := true; }
      if err && |sizes| > 0 {
        var h := d.next;
        var (ok, d') := Create(d, fails);
        d := d';
        if ok { slots[0] := h; }
        return;
      }
      if !err {
        var made := CreateHandles(|sizes|, slots);
        if err { return; }
        assert slots[..] == slots[..made];
        var k := MapChunks(base, sizes, slots);
        if err {
          var _ := ReleaseSlots(slots, |sizes|);
          assert slots[..] == slots[..|sizes|];
          return;
        }
      }
      var (okAccess, d2) := Other(d, fails);
      d := d2;
      if !okAccess { err := true; }
    }

    method UnmapAndRelease(base: int, sizes: seq<int>, slots: array<nat>)
      requires |sizes| == slots.Length
      modifies this`d, this`err
      ensures (err, d) == R.UnmapAndRelease(old(d), fails, old(err), R.Alloc(base, 0, sizes, slots[..]))
    {
      var (okContext, d1) := Other(d, fails);
      d := d1;
      var okUnmap := UnmapChunks(base, sizes, |sizes|);
      assert slots[..] == slots[..slots.Length];
      var okRelease := ReleaseSlots(slots, slots.Length);
      if !okContext || !okUnmap || !okRelease { err := true; }
    }

    /** Putting an allocation to sleep from Python: a set error code is raised there and cleared. */
    method PutToSleep(a: R.Alloc, slots: array<nat>) returns (raised: bool)
      requires slots[..] == a.handles && |a.sizes| == slots.Length
      modifies this`d, this`err
      ensures R.Machine(d, err) == R.Next(R.Machine(old(d), old(err)), fails, R.ToSleep(a))
      ensures raised == R.UnmapAndRelease(old(d), fails, old(err), a).0
    {
      UnmapAndRelease(a.base, a.sizes, slots);
      raised := err;
      err := false;
    }

    /** Waking it again; the slots then hold its new handles unless that raised. */
    method WakeUp(a: R.Alloc, slots: array<nat>) returns (raised: bool)
      requires |a.sizes| == slots.Length
      modifies this`d, this`err, slots
      ensures R.Machine(d, err) == R.Next(R.Machine(old(d), old(err)), fails, R.ToWake(a))
      ensures var (bad, o) := R.CreateAndMap(old(d), fails, old(err), a.base, a.sizes);
              raised == bad && |o.handles| <= slots.Length && slots[..|o.handles|] == o.handles
    {
      CreateAndMap(a.base, a.sizes, slots);
      raised := err;
      err := false;
    }

    method Malloc(size: u64, g: u64, setting: Setting, at: int, registered: bool)
      returns (reply: R.Reply)
      requires g > 0
      modifies this`d, this`err
      ensures (reply, err, d) == R.Malloc(old(d), fails, old(err), size, g, setting, at, registered)
    {
      var (okContext, d0) := Other(d, fails);
      var (okGrain, d1) := Other(d0, fails);
      d := d1;
      if !okContext || !okGrain { err := true; }
      if err { return R.Null; }
      var aligned := AlignUp(size, g);
      var (okReserve, d2) := Reserve(d, fails, at, aligned);
      d := d2;
      if !okReserve { err := true; return R.Null; }
      var chunk := AlignUp(BaseChunk(setting), g);
      if chunk == 0 { return R.Trap; }
      var filled := FillSizes(aligned, chunk);
      if filled.None? { return R.Trap; }
      var sizes := filled.value;
      var slots := new nat[sizes.Length];
      if !registered { return R.Null; }
      CreateAndMap(at, sizes[..], slots);
      if err {
        var (_, d3) := GiveBack(d, fails, at, aligned);
        d := d3;
        return R.Null;
      }
      GrantedAll(d2, fails, at, sizes[..]);
      assert slots[..] == slots[..slots.Length];
      return R.Granted(R.Alloc(at, aligned, sizes[..], slots[..]));
    }

    method Free(a: R.Alloc, slots: array<nat>, size: int)
      requires slots[..] == a.handles && |a.sizes| == slots.Length
      modifies this`d, this`err
      ensures (err, d) == R.Free(old(d), fails, old(err), a, size)
    {
      UnmapAndRelease(a.base, a.sizes, slots);
      var (ok, d2) := GiveBack(d, fails, a.base, size);
      d := d2;
      if !ok { err := true; }
    }
  }

  /** A call that succeeds has filled every slot. */
  lemma GrantedAll(d: Driver, f: Oracle, base: int, sizes: seq<int>)
    ensures var (bad, o) := R.CreateAndMap(d, f, false, base, sizes);
            !bad ==> |o.handles| == |sizes|
  {
    CreateAllExact(Ticked(d), f, |sizes|);
  }

  lemma {:induction false} CreateStops(d: Driver, f: Oracle, i: nat, n: nat)
    requires i <= n && CreateAll(d, f, i).err
    ensures CreateAll(d, f, n) == CreateAll(d, f, i)
  {
    if i < n { CreateStops(d, f, i, n - 1); }
  }

  lemma {:induction false} MapStops(d: Driver, f: Oracle, base: int, sizes: seq<int>, hs: seq<nat>, i: nat, n: nat)
    requires i <= n <= |sizes| && n <= |hs| && MapAll(d, f, base, sizes, hs, i).0 < i
    ensures MapAll(d, f, base, sizes, hs, n) == MapAll(d, f, base, sizes, hs, i)
  {
    if i < n { MapStops(d, f, base, sizes, hs, i, n - 1); }
  }
}
