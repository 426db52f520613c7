/**
 The page allocator under the prefix-cache store: a sorted list of free extents, first-fit
 allocation, and frees that merge with both neighbours.

 `Pool` is the allocator's state as a value, with each listed start paired with its length. The
 class `ExtentAllocator` below keeps the source's two containers (a list of starts and a dictionary
 of lengths), updates them in place, and is proved equal to the functions on `Pool`.
 */
module Extents {
  import opened Wrappers

  datatype Extent = Extent(start: int, len: int) {
    function End(): int { start + len }
  }

  type pos = x: int | 0 < x witness 1

  datatype Pool = Pool(page: pos, total: int, free: seq<Extent>, used: int)

  // ------------------------------------------------------------- arithmetic

  /** Ceiling division, in the source's own floor-division form (exact for negative sizes too). */
  function PagesFor(page: pos, nbytes: int): int
  {
    -((-nbytes) / page)
  }

  lemma DivUnique(x: int, d: int, q: int)
    requires d > 0 && q * d <= x < q * d + d
    ensures x / d == q
  {
    var r := x / d;
    assert x == r * d + x % d;
    assert r < q ==> (r + 1) * d <= q * d;
    assert r > q ==> (q + 1) * d <= r * d;
  }

  /** The page count is the least one that holds the bytes. */
  lemma PagesForLeast(page: pos, nbytes: int)
    ensures (PagesFor(page, nbytes) - 1) * page < nbytes <= PagesFor(page, nbytes) * page
    ensures nbytes > 0 <==> PagesFor(page, nbytes) >= 1
    ensures nbytes + page > 0 <==> PagesFor(page, nbytes) >= 0
    ensures nbytes == 0 ==> PagesFor(page, nbytes) == 0
  {
    var q := (-nbytes) / page;
    assert -nbytes == q * page + (-nbytes) % page;
    assert (-q - 1) * page == -(q * page) - page;
    assert (-q) * page == -(q * page);
    assert q >= 0 ==> q * page >= 0;
    assert q < 0 ==> q * page + page <= 0;
  }

  lemma PageOfOffset(page: pos, s: int)
    ensures (s * page) / page == s
  {
    DivUnique(s * page, page, s);
  }

  // ------------------------------------------------------------ page sets

  ghost predicate InRun(s: int, n: int, q: int) { s <= q < s + n }

  ghost function Run(s: int, n: int): set<int> {
    set q | s <= q < s + n && InRun(s, n, q)
  }

  lemma RunSize(s: int, n: int)
    requires n >= 0
    ensures |Run(s, n)| == n
    decreases n
  {
    if n > 0 {
      RunSize(s, n - 1);
      assert Run(s, n) == Run(s, n - 1) + {s + n - 1};
    }
  }

  ghost function PagesOf(f: seq<Extent>): set<int> {
    if f == [] then {} else Run(f[0].start, f[0].len) + PagesOf(f[1..])
  }

  lemma {:induction false} PagesOfConcat(a: seq<Extent>, b: seq<Extent>)
    ensures PagesOf(a + b) == PagesOf(a) + PagesOf(b)
  {
    if a == [] {
      assert a + b == b;
    } else {
      assert (a + b)[1..] == a[1..] + b;
      PagesOfConcat(a[1..], b);
    }
  }

  lemma PagesOfSplice(a: seq<Extent>, x: Extent, b: seq<Extent>)
    ensures PagesOf(a + [x] + b) == PagesOf(a) + Run(x.start, x.len) + PagesOf(b)
  {
    PagesOfConcat(a + [x], b);
    PagesOfConcat(a, [x]);
    assert [x][1..] == [];
  }

  // --------------------------------------------------------- well-formedness

  /** Extents ascend within (lo, hi], are not empty, and never touch: frees are fully merged. */
  ghost predicate Separated(lo: int, f: seq<Extent>, hi: int)
    decreases |f|
  {
    f != [] ==>
      && lo < f[0].start && f[0].len >= 0 && (f[0].len > 0 || hi == 0) && f[0].End() <= hi
      && Separated(f[0].End(), f[1..], hi)
  }

  ghost function LastEnd(lo: int, f: seq<Extent>): int {
    if f == [] then lo else f[|f| - 1].End()
  }

  lemma {:induction false} SeparatedConcat(lo: int, a: seq<Extent>, b: seq<Extent>, hi: int)
    ensures Separated(lo, a + b, hi) <==> Separated(lo, a, hi) && Separated(LastEnd(lo, a), b, hi)
    decreases |a|
  {
    if a == [] {
      assert a + b == b;
    } else {
      assert (a + b)[1..] == a[1..] + b;
      SeparatedConcat(a[0].End(), a[1..], b, hi);
      assert LastEnd(lo, a) == LastEnd(a[0].End(), a[1..]);
    }
  }

  lemma SeparatedSplice(lo: int, a: seq<Extent>, x: Extent, b: seq<Extent>, hi: int)
    ensures Separated(lo, a + [x] + b, hi) <==>
            && Separated(lo, a, hi) && LastEnd(lo, a) < x.start
            && x.len >= 0 && (x.len > 0 || hi == 0) && x.End() <= hi && Separated(x.End(), b, hi)
  {
    assert a + [x] + b == a + ([x] + b);
    SeparatedConcat(lo, a, [x] + b, hi);
    assert ([x] + b)[1..] == b;
  }

  lemma {:induction false} SeparatedBounds(lo: int, f: seq<Extent>, hi: int)
    requires Separated(lo, f, hi)
    ensures forall q :: q in PagesOf(f) ==> lo < q < hi
    ensures f != [] ==> lo < LastEnd(lo, f) <= hi
    decreases |f|
  {
    if f != [] { SeparatedBounds(f[0].End(), f[1..], hi); }
  }

  lemma SeparatedWeaken(lo: int, lo': int, f: seq<Extent>, hi: int)
    requires Separated(lo, f, hi) && (f != [] ==> lo' < f[0].start)
    ensures Separated(lo', f, hi)
  {
  }

  ghost function FreePages(p: Pool): set<int> { PagesOf(p.free) }

  ghost predicate Wf(p: Pool) {
    p.total >= 0 && Separated(-1, p.free, p.total) && p.used == p.total - |FreePages(p)|
  }

  function Fresh(totalBytes: int, page: pos): Pool
  {
    Pool(page, totalBytes / page, [Extent(0, totalBytes / page)], 0)
  }

  lemma FreshWf(totalBytes: int, page: pos)
    requires totalBytes >= 0
    ensures Wf(Fresh(totalBytes, page))
    ensures FreePages(Fresh(totalBytes, page)) == Run(0, totalBytes / page)
  {
    var p := Fresh(totalBytes, page);
    RunSize(0, p.total);
    assert p.free[1..] == [];
    assert Separated(p.total, p.free[1..], p.total);
    assert PagesOf(p.free[1..]) == {};
  }

  // ------------------------------------------------------------------ alloc

  function FirstFit(f: seq<Extent>, need: int, i: nat): (k: nat)
    requires i <= |f|
    ensures i <= k <= |f|
    ensures k < |f| ==> f[k].len >= need
    ensures forall j :: i <= j < k ==> f[j].len < need
    decreases |f| - i
  {
    if i == |f| || f[i].len >= need then i else FirstFit(f, need, i + 1)
  }

  /** Take `need` pages from the front of extent `i`. */
  function Carve(f: seq<Extent>, i: nat, need: int): seq<Extent>
    requires i < |f|
  {
    if f[i].len > need then
      f[..i] + [Extent(f[i].start + need, f[i].len - need)] + f[i + 1..]
    else
      f[..i] + f[i + 1..]
  }

  /** The byte offset of the first run that fits, and the pool without that run. */
  function Alloc(p: Pool, nbytes: int): (Option<int>, Pool)
  {
    var need := PagesFor(p.page, nbytes);
    var i := FirstFit(p.free, need, 0);
    if i == |p.free| then (None, p)
    else (Some(p.free[i].start * p.page), p.(free := Carve(p.free, i, need), used := p.used + need))
  }

  /** Free pages that form one run lie inside one extent, because extents never touch. */
  lemma {:induction false} RunInOneExtent(lo: int, f: seq<Extent>, hi: int, s: int, n: int) returns (i: nat)
    requires Separated(lo, f, hi) && n >= 1 && Run(s, n) <= PagesOf(f)
    ensures i < |f| && f[i].start <= s && s + n <= f[i].End()
    decreases |f|
  {
    assert s in Run(s, n);
    var e := f[0];
    SeparatedBounds(e.End(), f[1..], hi);
    if s < e.End() {
      assert s + n > e.End() ==> e.End() in Run(s, n);
      return 0;
    }
    assert Run(s, n) <= PagesOf(f[1..]);
    i := RunInOneExtent(e.End(), f[1..], hi, s, n);
    i := i + 1;
  }

  lemma {:induction false} ExtentsAscend(lo: int, f: seq<Extent>, hi: int, i: nat, j: nat)
    requires Separated(lo, f, hi) && i < j < |f|
    ensures f[i].End() < f[j].start
    decreases j
  {
    if i > 0 {
      ExtentsAscend(f[0].End(), f[1..], hi, i - 1, j - 1);
    } else if j > 1 {
      ExtentsAscend(f[0].End(), f[1..], hi, 0, j - 1);
      assert f[0].End() < f[1].start <= f[1].End();
    }
  }

  lemma CarveTail(a: seq<Extent>, x: Extent, b: seq<Extent>, hi: int, need: int)
    requires Separated(-1, a + [x] + b, hi) && 1 <= need < x.len
    ensures var f := a + [Extent(x.start + need, x.len - need)] + b;
            Separated(-1, f, hi) && PagesOf(f) == PagesOf(a) + Run(x.start + need, x.len - need) + PagesOf(b)
  {
    SeparatedSplice(-1, a, x, b, hi);
    var y := Extent(x.start + need, x.len - need);
    SeparatedSplice(-1, a, y, b, hi);
    PagesOfSplice(a, y, b);
  }

  lemma CarveAll(a: seq<Extent>, x: Extent, b: seq<Extent>, hi: int)
    requires Separated(-1, a + [x] + b, hi)
    ensures Separated(-1, a + b, hi) && PagesOf(a + b) == PagesOf(a) + PagesOf(b)
  {
    SeparatedSplice(-1, a, x, b, hi);
    SeparatedConcat(-1, a, b, hi);
    PagesOfConcat(a, b);
  }

  /** The pages of an extent are apart from those of the extents around it. */
  lemma SpliceApart(a: seq<Extent>, x: Extent, b: seq<Extent>, hi: int)
    requires Separated(-1, a + [x] + b, hi)
    ensures Run(x.start, x.len) !! PagesOf(a) && Run(x.start, x.len) !! PagesOf(b)
  {
    SeparatedSplice(-1, a, x, b, hi);
    SeparatedBounds(x.End(), b, hi);
    PagesBelowLastEnd(-1, a, hi);
  }

  lemma CarveKeeps(f: seq<Extent>, hi: int, i: nat, need: int)
    requires Separated(-1, f, hi) && i < |f| && 1 <= need <= f[i].len
    ensures Separated(-1, Carve(f, i, need), hi)
    ensures Run(f[i].start, need) <= PagesOf(f)
    ensures PagesOf(Carve(f, i, need)) == PagesOf(f) - Run(f[i].start, need)
  {
    var a, x, b := f[..i], f[i], f[i + 1..];
    assert f == a + [x] + b;
    PagesOfSplice(a, x, b);
    SpliceApart(a, x, b, hi);
    assert Run(x.start, x.len) == Run(x.start, need) + Run(x.start + need, x.len - need);
    hide PagesOf;
    hide Separated;
    if x.len > need { CarveTail(a, x, b, hi, need); } else { CarveAll(a, x, b, hi); }
  }

  lemma {:induction false} PagesBelowLastEnd(lo: int, f: seq<Extent>, hi: int)
    requires Separated(lo, f, hi)
    ensures forall q :: q in PagesOf(f) ==> q < LastEnd(lo, f)
    decreases |f|
  {
    if f != [] {
      PagesBelowLastEnd(f[0].End(), f[1..], hi);
      SeparatedBounds(f[0].End(), f[1..], hi);
    }
  }

  /**
   First fit is lowest-address fit: a result is the lowest run of free pages long enough, exactly
   those pages leave the pool, and no result means that no run of free pages is long enough.
   */
  lemma AllocIsLowestFit(p: Pool, nbytes: int)
    requires Wf(p) && nbytes > 0
    ensures var (r, p') := Alloc(p, nbytes);
            var need := PagesFor(p.page, nbytes);
            && Wf(p') && p'.page == p.page && p'.total == p.total
            && (r.None? <==> forall s :: !(Run(s, need) <= FreePages(p)))
            && (r.None? ==> p' == p)
            && (r.Some? ==>
                  && r.value == (r.value / p.page) * p.page
                  && Run(r.value / p.page, need) <= FreePages(p)
                  && (forall s :: Run(s, need) <= FreePages(p) ==> r.value / p.page <= s)
                  && FreePages(p') == FreePages(p) - Run(r.value / p.page, need)
                  && p'.used == p.used + need)
  {
    var need := PagesFor(p.page, nbytes);
    PagesForLeast(p.page, nbytes);
    var k := FirstFit(p.free, need, 0);
    forall s | Run(s, need) <= FreePages(p) ensures k < |p.free| && p.free[k].start <= s {
      var i := RunInOneExtent(-1, p.free, p.total, s, need);
      if k < i { ExtentsAscend(-1, p.free, p.total, k, i); }
    }
    if k < |p.free| {
      CarveKeeps(p.free, p.total, k, need);
      PageOfOffset(p.page, p.free[k].start);
      RunSize(p.free[k].start, need);
    }
  }

  /** A list that keeps its order: extents may be empty and may touch. */
  ghost predicate Spaced(f: seq<Extent>) {
    && (forall i :: 0 <= i < |f| ==> f[i].len >= 0)
    && (forall i, j :: 0 <= i < j < |f| ==> f[i].start < f[j].start && f[i].End() <= f[j].start)
  }

  lemma SeparatedIsSpaced(f: seq<Extent>, hi: int)
    requires Separated(-1, f, hi)
    ensures Spaced(f)
  {
    forall i | 0 <= i < |f| ensures f[i].len >= 0 { LenNonNegative(-1, f, hi, i); }
    forall i, j | 0 <= i < j < |f| ensures f[i].start < f[j].start && f[i].End() <= f[j].start {
      ExtentsAscend(-1, f, hi, i, j);
    }
  }

  /**
   A request for no bytes or fewer is met by the first extent, which grows downwards by the missing
   pages. So it takes nothing if it asks for zero pages, and otherwise frees the page below.
   */
  lemma AllocOfNothing(p: Pool, nbytes: int)
    requires Spaced(p.free) && nbytes <= 0
    ensures var (r, p') := Alloc(p, nbytes);
            var need := PagesFor(p.page, nbytes);
            && need <= 0 && p'.page == p.page && p'.total == p.total
            && (r.None? <==> p.free == [])
            && (r.None? ==> p' == p)
            && (r.Some? ==>
                  && p'.used == p.used + need && Spaced(p'.free)
                  && r.value == p.free[0].start * p.page && r.value / p.page == p.free[0].start
                  && (p.free[0].len > need ==>
                        p'.free == [Extent(p.free[0].start + need, p.free[0].len - need)] + p.free[1..]))
  {
    PagesForLeast(p.page, nbytes);
    if p.free != [] {
      PageOfOffset(p.page, p.free[0].start);
      var need := PagesFor(p.page, nbytes);
      assert p.free[0].len >= need;
      hide PagesFor, Spaced;
      assert FirstFit(p.free, need, 0) == 0;
      GrowDown(p.free, need);
    }
  }

  lemma GrowDown(f: seq<Extent>, need: int)
    requires Spaced(f) && f != [] && need <= 0
    ensures Spaced(Carve(f, 0, need))
    ensures f[0].len > need ==> Carve(f, 0, need) == [Extent(f[0].start + need, f[0].len - need)] + f[1..]
  {
    assert f[..0] == [];
    var x := Extent(f[0].start + need, f[0].len - need);
    if f[0].len > need {
      assert Carve(f, 0, need) == [x] + f[1..];
      SpacedCons(f, x);
    } else {
      assert Carve(f, 0, need) == f[1..];
      SpacedTail(f);
    }
  }

  lemma SpacedTail(f: seq<Extent>)
    requires Spaced(f) && f != []
    ensures Spaced(f[1..])
  {
    var g := f[1..];
    forall i, j | 0 <= i < j < |g| ensures g[i].start < g[j].start && g[i].End() <= g[j].start {
      assert f[i + 1].start < f[j + 1].start && f[i + 1].End() <= f[j + 1].start;
    }
  }

  lemma SpacedCons(f: seq<Extent>, x: Extent)
    requires Spaced(f) && f != [] && x.len >= 0 && x.start <= f[0].start && x.End() == f[0].End()
    ensures Spaced([x] + f[1..])
  {
    SpacedTail(f);
    var g, h := f[1..], [x] + f[1..];
    forall i, j | 0 <= i < j < |h| ensures h[i].start < h[j].start && h[i].End() <= h[j].start {
      assert h[j] == f[j] && (i > 0 ==> h[i] == f[i]);
      assert f[0].start < f[j].start && f[0].End() <= f[j].start;
    }
  }

  /** A pool without pages has no extent, or one of length zero. */
  lemma WithoutPages(p: Pool)
    requires Wf(p) && p.total == 0
    ensures (p.free == [] || p.free == [Extent(0, 0)]) && FreePages(p) == {} && p.used == 0
  {
    SeparatedBounds(-1, p.free, 0);
    assert FreePages(p) == {};
    hide FreePages, PagesOf;
    if p.free != [] {
      OneAtMost(p.free);
    }
  }

  lemma OneAtMost(f: seq<Extent>)
    requires f != [] && Separated(-1, f, 0)
    ensures f == [Extent(0, 0)]
  {
    hide PagesOf;
    SeparatedBounds(f[0].End(), f[1..], 0);
    assert f[1..] == [];
    assert f == [f[0]];
  }

  lemma AllocWithoutPages(p: Pool, nbytes: int)
    requires Wf(p) && p.total == 0 && nbytes <= 0 && Alloc(p, nbytes).0.Some?
    ensures var p' := Alloc(p, nbytes).1;
            && (nbytes + p.page > 0 ==> Alloc(p, nbytes).0 == Some(0) && p' == p.(free := []) && Wf(p'))
            && (nbytes + p.page <= 0 ==> !Wf(p'))
            && FreePages(p) == {}
  {
    WithoutPages(p);
    PagesForLeast(p.page, nbytes);
    hide PagesFor;
    var need := PagesFor(p.page, nbytes);
    assert p.free == [Extent(0, 0)] && FirstFit(p.free, need, 0) == 0;
    if need < 0 {
      assert Carve(p.free, 0, need) == [Extent(need, -need)];
    } else {
      assert Carve(p.free, 0, need) == [];
    }
  }

  lemma FreeWithoutPages(p: Pool, offset: int, nbytes: int)
    requires Wf(p) && p.total == 0 && offset / p.page == 0 && PagesFor(p.page, nbytes) == 0
    ensures Wf(Free(p, offset, nbytes)) && FreePages(Free(p, offset, nbytes)) == {} && FreePages(p) == {}
  {
    WithoutPages(p);
    InsertNothing(p.free);
    hide PagesFor, Insert, Bisect, Wf, FreePages;
    EmptyExtent(Free(p, offset, nbytes));
  }

  lemma InsertNothing(f: seq<Extent>)
    requires f == [] || f == [Extent(0, 0)]
    ensures Insert(f, Bisect(f, 0, 0), 0, 0) == [Extent(0, 0)]
  {
  }

  lemma EmptyExtent(p: Pool)
    requires p.total == 0 && p.used == 0 && p.free == [Extent(0, 0)]
    ensures Wf(p) && FreePages(p) == {}
  {
    assert p.free[1..] == [];
    assert Separated(0, [], 0) && PagesOf([]) == {};
  }

  /** The allocator hands out free pages only, and stays well formed, exactly if the size is above minus one page. */
  lemma AllocKeepsIff(p: Pool, nbytes: int)
    requires Wf(p) && Alloc(p, nbytes).0.Some?
    ensures var p' := Alloc(p, nbytes).1;
            Wf(p') && FreePages(p') <= FreePages(p) <==> nbytes + p.page > 0
  {
    PagesForLeast(p.page, nbytes);
    if nbytes > 0 {
      AllocIsLowestFit(p, nbytes);
    } else if p.total == 0 {
      AllocWithoutPages(p, nbytes);
    } else {
      SeparatedIsSpaced(p.free, p.total);
      AllocOfNothing(p, nbytes);
      LenPositive(-1, p.free, p.total, 0);
      var p' := Alloc(p, nbytes).1;
      if nbytes + p.page > 0 {
        assert p.free == [p.free[0]] + p.free[1..];
        assert p' == p;
      } else {
        PageBelowIsUsed(p);
        assert p.free[0].start - 1 in Run(p'.free[0].start, p'.free[0].len);
      }
    }
  }

  /** The page below the first extent is not free. */
  lemma PageBelowIsUsed(p: Pool)
    requires Wf(p) && p.free != []
    ensures p.free[0].start - 1 !in FreePages(p)
  {
    SeparatedBounds(p.free[0].End(), p.free[1..], p.total);
    assert PagesOf(p.free) == Run(p.free[0].start, p.free[0].len) + PagesOf(p.free[1..]);
  }

  // ------------------------------------------------------------------- free

  /** Leftmost insertion point of `s`, as `bisect_left` finds it in a sorted list. */
  function Bisect(f: seq<Extent>, s: int, i: nat): (k: nat)
    requires i <= |f|
    ensures i <= k <= |f|
    ensures forall j :: i <= j < k ==> f[j].start < s
    ensures k < |f| ==> f[k].start >= s
    decreases |f| - i
  {
    if i == |f| || f[i].start >= s then i else Bisect(f, s, i + 1)
  }

  /** The freed run together with the next extent, when they touch, and the extents after it. */
  function JoinNext(b: seq<Extent>, s: int, n: int): (Extent, seq<Extent>) {
    if b != [] && b[0].start == s + n then (Extent(s, n + b[0].len), b[1..]) else (Extent(s, n), b)
  }

  /** Grow the previous extent by the freed one when they touch, or list the freed one on its own. */
  function JoinPrev(a: seq<Extent>, x: Extent): seq<Extent> {
    if a != [] && a[|a| - 1].End() == x.start then
      a[..|a| - 1] + [Extent(a[|a| - 1].start, a[|a| - 1].len + x.len)]
    else
      a + [x]
  }

  /** Put the run back at position `i`, absorbing the next extent first and then joining the previous. */
  function Insert(f: seq<Extent>, i: nat, s: int, n: int): seq<Extent>
    requires i <= |f|
  {
    var (x, b) := JoinNext(f[i..], s, n);
    JoinPrev(f[..i], x) + b
  }

  function Free(p: Pool, offset: int, nbytes: int): Pool
  {
    var s, n := offset / p.page, PagesFor(p.page, nbytes);
    p.(free := Insert(p.free, Bisect(p.free, s, 0), s, n), used := p.used - n)
  }

  lemma UsedRunAfter(a: seq<Extent>, hi: int, s: int, n: int)
    requires Separated(-1, a, hi) && n >= 1 && 0 <= s && Run(s, n) !! PagesOf(a)
    requires a != [] ==> a[|a| - 1].start < s
    ensures LastEnd(-1, a) <= s
  {
    if a != [] {
      var x := a[|a| - 1];
      assert a == a[..|a| - 1] + [x] + [];
      PagesOfSplice(a[..|a| - 1], x, []);
      assert s in Run(s, n);
      assert x.End() > s ==> s in Run(x.start, x.len);
    }
  }

  lemma UsedRunBefore(b: seq<Extent>, lo: int, hi: int, s: int, n: int)
    requires Separated(lo, b, hi) && n >= 1 && s + n <= hi && 0 <= s && Run(s, n) !! PagesOf(b)
    requires b != [] ==> s <= b[0].start
    ensures b != [] ==> s + n <= b[0].start
  {
    if b != [] {
      var x := b[0];
      assert x.start in Run(x.start, x.len);
      assert x.start < s + n ==> x.start in Run(s, n);
    }
  }

  /** A used run at the insertion point lies between its neighbours. */
  lemma GapAt(f: seq<Extent>, hi: int, i: nat, s: int, n: int)
    requires Separated(-1, f, hi) && n >= 1 && 0 <= s && s + n <= hi && Run(s, n) !! PagesOf(f)
    requires i == Bisect(f, s, 0)
    ensures Separated(-1, f[..i], hi) && LastEnd(-1, f[..i]) <= s
    ensures i < |f| ==> s + n <= f[i].start
    ensures Separated(LastEnd(-1, f[..i]), f[i..], hi)
  {
    var a, b := f[..i], f[i..];
    assert f == a + b;
    SeparatedConcat(-1, a, b, hi);
    PagesOfConcat(a, b);
    UsedRunAfter(a, hi, s, n);
    UsedRunBefore(b, LastEnd(-1, a), hi, s, n);
  }

  lemma JoinNextKeeps(b: seq<Extent>, lo: int, hi: int, s: int, n: int)
    requires Separated(lo, b, hi) && n >= 1 && 0 <= s && s + n <= hi
    requires b != [] ==> s + n <= b[0].start
    ensures var (x, b') := JoinNext(b, s, n);
            && Separated(x.End(), b', hi) && x.start == s && x.len >= n && x.End() <= hi
            && PagesOf(b) + Run(s, n) == Run(x.start, x.len) + PagesOf(b')
  {
    var (x, b') := JoinNext(b, s, n);
    if b != [] && b[0].start == s + n {
      assert Run(x.start, x.len) == Run(s, n) + Run(b[0].start, b[0].len);
    } else if b != [] {
      SeparatedWeaken(lo, x.End(), b, hi);
    }
  }

  lemma RunsJoin(s: int, m: int, n: int)
    requires m >= 0 && n >= 0
    ensures Run(s, m + n) == Run(s, m) + Run(s + m, n)
  {
  }

  lemma GrowKeeps(a: seq<Extent>, y: Extent, x: Extent, b: seq<Extent>, hi: int)
    requires Separated(-1, a + [y] + [], hi) && y.End() == x.start
    requires x.len >= 1 && x.End() <= hi && Separated(x.End(), b, hi)
    ensures var z := Extent(y.start, y.len + x.len);
            && Separated(-1, a + [z] + b, hi)
            && PagesOf(a + [z] + b) == PagesOf(a) + Run(y.start, y.len) + Run(x.start, x.len) + PagesOf(b)
  {
    var z := Extent(y.start, y.len + x.len);
    SeparatedSplice(-1, a, y, [], hi);
    hide Separated, PagesOf, Run;
    SeparatedSplice(-1, a, z, b, hi);
    PagesOfSplice(a, z, b);
    RunsJoin(y.start, y.len, x.len);
  }

  lemma JoinPrevKeeps(a: seq<Extent>, x: Extent, b: seq<Extent>, hi: int)
    requires Separated(-1, a, hi) && LastEnd(-1, a) <= x.start && 0 <= x.start
    requires x.len >= 1 && x.End() <= hi && Separated(x.End(), b, hi)
    ensures Separated(-1, JoinPrev(a, x) + b, hi)
    ensures PagesOf(JoinPrev(a, x) + b) == PagesOf(a) + Run(x.start, x.len) + PagesOf(b)
  {
    assert PagesOf([]) == {};
    hide Separated, PagesOf, Run;
    if a != [] && a[|a| - 1].End() == x.start {
      var a', y := a[..|a| - 1], a[|a| - 1];
      assert a == a' + [y] + [];
      PagesOfSplice(a', y, []);
      GrowKeeps(a', y, x, b, hi);
    } else {
      SeparatedSplice(-1, a, x, b, hi);
      PagesOfSplice(a, x, b);
    }
  }

  lemma InsertKeeps(f: seq<Extent>, hi: int, i: nat, s: int, n: int)
    requires Separated(-1, f, hi) && n >= 1 && 0 <= s && s + n <= hi && Run(s, n) !! PagesOf(f)
    requires i == Bisect(f, s, 0)
    ensures Separated(-1, Insert(f, i, s, n), hi)
    ensures PagesOf(Insert(f, i, s, n)) == PagesOf(f) + Run(s, n)
  {
    hide Separated, PagesOf, JoinPrev;
    GapAt(f, hi, i, s, n);
    assert f == f[..i] + f[i..];
    PagesOfConcat(f[..i], f[i..]);
    JoinNextKeeps(f[i..], LastEnd(-1, f[..i]), hi, s, n);
    var (x, b) := JoinNext(f[i..], s, n);
    JoinPrevKeeps(f[..i], x, b, hi);
  }

  /** Freeing a run of used pages gives back exactly those pages, fully merged with its neighbours. */
  lemma FreeGivesBack(p: Pool, offset: int, nbytes: int)
    requires Wf(p) && nbytes > 0
    requires var s := offset / p.page;
             var n := PagesFor(p.page, nbytes);
             0 <= s && s + n <= p.total && Run(s, n) !! FreePages(p)
    ensures var p' := Free(p, offset, nbytes);
            var n := PagesFor(p.page, nbytes);
            && Wf(p') && p'.page == p.page && p'.total == p.total && p'.used == p.used - n
            && FreePages(p') == FreePages(p) + Run(offset / p.page, n)
  {
    var s, n := offset / p.page, PagesFor(p.page, nbytes);
    PagesForLeast(p.page, nbytes);
    InsertKeeps(p.free, p.total, Bisect(p.free, s, 0), s, n);
    RunSize(s, n);
  }

  // ------------------------------------------------- consequences for a pool

  /** When every page is free again the list is the single extent the pool started with. */
  lemma AllFreeIsOneExtent(p: Pool)
    requires Wf(p) && (p.total > 0 || p.free != []) && FreePages(p) == Run(0, p.total)
    ensures p == Fresh(p.total * p.page, p.page)
  {
    PageOfOffset(p.page, p.total);
    if p.total == 0 { WithoutPages(p); } else { AllInOneExtent(p); }
  }

  lemma AllInOneExtent(p: Pool)
    requires Wf(p) && p.total > 0 && FreePages(p) == Run(0, p.total)
    ensures p.free == [Extent(0, p.total)] && p.used == 0
  {
    var i := RunInOneExtent(-1, p.free, p.total, 0, p.total);
    var a, x, b := p.free[..i], p.free[i], p.free[i + 1..];
    assert p.free == a + [x] + b;
    SeparatedSplice(-1, a, x, b, p.total);
    if a != [] { SeparatedBounds(-1, a, p.total); }
    assert b == [];
    RunSize(0, p.total);
  }

  /**
   Giving back no page is where the allocator breaks: it leaves the pool as it was when the position
   touches a free extent, at its start or at its end. Otherwise an empty extent is listed.
   */
  lemma FreeOfNothing(p: Pool, offset: int, nbytes: int)
    requires Wf(p) && 0 <= offset / p.page <= p.total && PagesFor(p.page, nbytes) == 0
    ensures Wf(Free(p, offset, nbytes)) <==>
            p.total == 0 || exists e :: e in p.free && (e.start == offset / p.page || e.End() == offset / p.page)
    ensures Wf(Free(p, offset, nbytes)) && p.total > 0 ==> Free(p, offset, nbytes) == p
  {
    if p.total == 0 { FreeWithoutPages(p, offset, nbytes); } else { FreeOfNoPage(p, offset, nbytes); }
  }

  lemma FreeOfNoPage(p: Pool, offset: int, nbytes: int)
    requires Wf(p) && p.total > 0 && 0 <= offset / p.page <= p.total && PagesFor(p.page, nbytes) == 0
    ensures Wf(Free(p, offset, nbytes)) <==>
            exists e :: e in p.free && (e.start == offset / p.page || e.End() == offset / p.page)
    ensures Wf(Free(p, offset, nbytes)) ==> Free(p, offset, nbytes) == p
  {
    hide PagesFor;
    var s := offset / p.page;
    var i := Bisect(p.free, s, 0);
    var r := Free(p, offset, nbytes);
    if i < |p.free| && p.free[i].start == s {
      if i > 0 { ExtentsAscend(-1, p.free, p.total, i - 1, i); }
      assert r.free == p.free;
    } else if i > 0 && p.free[i - 1].End() == s {
      assert p.free[i - 1] in p.free;
      assert r.free == p.free;
    } else {
      SeparatedSplice(-1, p.free[..i], Extent(s, 0), p.free[i..], p.total);
      NoNeighbour(p, i, s);
    }
  }

  lemma NoNeighbour(p: Pool, i: nat, s: int)
    requires Wf(p) && p.total > 0 && i == Bisect(p.free, s, 0)
    requires (i < |p.free| ==> p.free[i].start != s) && (i > 0 ==> p.free[i - 1].End() != s)
    ensures forall e :: e in p.free ==> e.start != s && e.End() != s
  {
    forall e | e in p.free ensures e.start != s && e.End() != s {
      var j :| 0 <= j < |p.free| && p.free[j] == e;
      if j < i - 1 { ExtentsAscend(-1, p.free, p.total, j, i - 1); }
      if i < j { ExtentsAscend(-1, p.free, p.total, i, j); LenPositive(-1, p.free, p.total, i); }
      LenPositive(-1, p.free, p.total, j);
    }
  }

  lemma {:induction false} LenPositive(lo: int, f: seq<Extent>, hi: int, j: nat)
    requires Separated(lo, f, hi) && hi > 0 && j < |f|
    ensures f[j].len > 0
    decreases j
  {
    if j > 0 { LenPositive(f[0].End(), f[1..], hi, j - 1); }
  }

  // -------------------------------------------------------- in-place version

  /** The source keeps a sorted list of starts and a dictionary from start to length. */
  datatype Lists = Lists(starts: seq<int>, lens: map<int, int>)

  ghost predicate Keyed(v: Lists) {
    forall i :: 0 <= i < |v.starts| ==> v.starts[i] in v.lens
  }

  ghost function View(v: Lists): (f: seq<Extent>)
    requires Keyed(v)
    ensures |f| == |v.starts| && forall i :: 0 <= i < |f| ==> f[i] == Extent(v.starts[i], v.lens[v.starts[i]])
  {
    seq(|v.starts|, i requires 0 <= i < |v.starts| => Extent(v.starts[i], v.lens[v.starts[i]]))
  }

  ghost predicate OnlyAt(v: Lists, i: int, s: int) {
    forall j :: 0 <= j < |v.starts| && j != i ==> v.starts[j] != s
  }

  function Removed(v: Lists, i: nat): Lists
    requires i < |v.starts|
  {
    Lists(v.starts[..i] + v.starts[i + 1..], v.lens - {v.starts[i]})
  }

  function Inserted(v: Lists, i: nat, s: int, n: int): Lists
    requires i <= |v.starts|
  {
    Lists(v.starts[..i] + [s] + v.starts[i..], v.lens[s := n])
  }

  function BisectLeft(starts: seq<int>, s: int, i: nat): (k: nat)
    requires i <= |starts|
    ensures i <= k <= |starts|
    decreases |starts| - i
  {
    if i == |starts| || starts[i] >= s then i else BisectLeft(starts, s, i + 1)
  }

  lemma {:induction false} BisectsAgree(v: Lists, s: int, i: nat)
    requires i <= |v.starts| && Keyed(v)
    ensures BisectLeft(v.starts, s, i) == Bisect(View(v), s, i)
    decreases |v.starts| - i
  {
    if i < |v.starts| && v.starts[i] < s { BisectsAgree(v, s, i + 1); }
  }

  lemma RemoveView(v: Lists, i: nat)
    requires Keyed(v) && i < |v.starts| && OnlyAt(v, i, v.starts[i])
    ensures Keyed(Removed(v, i)) && View(Removed(v, i)) == View(v)[..i] + View(v)[i + 1..]
  {
  }

  lemma InsertView(v: Lists, i: nat, s: int, n: int)
    requires Keyed(v) && i <= |v.starts| && OnlyAt(v, -1, s)
    ensures Keyed(Inserted(v, i, s, n))
    ensures View(Inserted(v, i, s, n)) == View(v)[..i] + [Extent(s, n)] + View(v)[i..]
  {
    var w := Inserted(v, i, s, n);
    assert forall j :: 0 <= j < i ==> w.starts[j] == v.starts[j];
    assert forall j :: i < j < |w.starts| ==> w.starts[j] == v.starts[j - 1];
  }

  lemma GrowView(v: Lists, i: nat, n: int)
    requires Keyed(v) && i < |v.starts| && OnlyAt(v, i, v.starts[i])
    ensures var w := v.(lens := v.lens[v.starts[i] := n]);
            Keyed(w) && View(w) == View(v)[i := Extent(v.starts[i], n)]
  {
  }

  lemma CarveTailView(v: Lists, i: nat, s: int, n: int)
    requires Keyed(v) && i < |v.starts| && OnlyAt(v, i, v.starts[i]) && OnlyAt(v, i, s)
    ensures Keyed(Inserted(Removed(v, i), i, s, n))
    ensures View(Inserted(Removed(v, i), i, s, n)) == View(v)[..i] + [Extent(s, n)] + View(v)[i + 1..]
  {
    RemoveView(v, i);
    var f, r := View(v), Removed(v, i);
    assert forall j :: 0 <= j < |r.starts| ==> r.starts[j] == v.starts[if j < i then j else j + 1];
    InsertView(r, i, s, n);
    assert (f[..i] + f[i + 1..])[..i] == f[..i];
    assert (f[..i] + f[i + 1..])[i..] == f[i + 1..];
  }

  /** No other extent starts where this one does, inside it, or below the first one. */
  lemma SpacedStarts(v: Lists, i: nat, s: int)
    requires Keyed(v) && Spaced(View(v)) && i < |v.starts|
    requires s == v.starts[i] || s < v.starts[i] + v.lens[v.starts[i]]
    requires v.starts[i] <= s || i == 0
    ensures OnlyAt(v, i, s)
  {
    var f := View(v);
    forall j | 0 <= j < |v.starts| && j != i ensures v.starts[j] != s {
      assert f[j].start == v.starts[j] && f[i] == Extent(v.starts[i], v.lens[v.starts[i]]);
      assert if j < i then f[j].start < f[i].start else f[i].start < f[j].start && f[i].End() <= f[j].start;
    }
  }

  /** Deleting the extent found and, when a tail is left, listing it again at the same position. */
  lemma CarveView(v: Lists, i: nat, need: int)
    requires Keyed(v) && Spaced(View(v)) && i < |v.starts| && need <= v.lens[v.starts[i]] && (need >= 1 || i == 0)
    ensures var s, ln := v.starts[i], v.lens[v.starts[i]];
            var w := if ln > need then Inserted(Removed(v, i), i, s + need, ln - need) else Removed(v, i);
            Keyed(w) && View(w) == Carve(View(v), i, need)
  {
    hide Spaced, OnlyAt, Inserted, Removed;
    var s := v.starts[i];
    SpacedStarts(v, i, s);
    if v.lens[s] > need {
      SpacedStarts(v, i, s + need);
      CarveTailView(v, i, s + need, v.lens[s] - need);
    } else {
      RemoveView(v, i);
    }
  }

  /** Pop the next extent when the freed run touches it. */
  function PopNext(v: Lists, i: nat, s: int, n: int): (Lists, int)
    requires i < |v.starts| ==> v.starts[i] in v.lens
  {
    if i < |v.starts| && v.starts[i] == s + n then (Removed(v, i), n + v.lens[s + n]) else (v, n)
  }

  lemma RemovedOnly(v: Lists, i: nat, s: int)
    requires i < |v.starts| && OnlyAt(v, i, s) && (i > 0 ==> OnlyAt(v, i - 1, v.starts[i - 1]))
    ensures OnlyAt(Removed(v, i), -1, s)
    ensures i > 0 ==> OnlyAt(Removed(v, i), i - 1, v.starts[i - 1]) && Removed(v, i).starts[i - 1] == v.starts[i - 1]
  {
    var w := Removed(v, i);
    assert forall j :: 0 <= j < |w.starts| ==> w.starts[j] == v.starts[if j < i then j else j + 1];
  }

  /** A run of `n` pages from `s` can be listed at `i`: starts differ, and one at `s` itself will be absorbed. */
  ghost predicate Fits(v: Lists, i: nat, s: int, n: int) {
    && Keyed(v) && i <= |v.starts| && OnlyAt(v, i, s) && (i < |v.starts| && v.starts[i] == s ==> n == 0)
    && (i < |v.starts| ==> OnlyAt(v, i, v.starts[i]))
    && (i > 0 ==> OnlyAt(v, i - 1, v.starts[i - 1]))
  }

  lemma SpacedFits(v: Lists, i: nat, s: int, n: int)
    requires Keyed(v) && Spaced(View(v)) && i == Bisect(View(v), s, 0)
    requires n == 0 || forall e :: e in View(v) ==> e.start != s
    ensures Fits(v, i, s, n)
  {
    var f := View(v);
    assert forall j :: 0 <= j < |f| ==> f[j] in f;
    assert forall j, k :: 0 <= j < k < |f| ==> f[j].start < f[k].start;
  }

  lemma PopNextView(v: Lists, i: nat, s: int, n: int)
    requires Fits(v, i, s, n)
    ensures var (w, m) := PopNext(v, i, s, n);
            && Keyed(w) && OnlyAt(w, -1, s) && i <= |w.starts|
            && (i > 0 ==> OnlyAt(w, i - 1, w.starts[i - 1]))
            && JoinNext(View(v)[i..], s, n).0 == Extent(s, m)
            && View(w) == View(v)[..i] + JoinNext(View(v)[i..], s, n).1
  {
    var f := View(v);
    if i < |v.starts| && v.starts[i] == s + n {
      RemoveView(v, i);
      RemovedOnly(v, i, s);
      hide OnlyAt, View;
      assert f[i..][1..] == f[i + 1..] && |f[i..]| > 0 && f[i..][0] == f[i];
    } else {
      assert OnlyAt(v, -1, s);
      hide OnlyAt, View;
      assert f == f[..i] + f[i..];
    }
  }

  /** Grow the previous extent when it touches the run, or list the run. */
  function GrowOrList(v: Lists, i: nat, s: int, n: int): Lists
    requires i <= |v.starts| && (i > 0 ==> v.starts[i - 1] in v.lens)
  {
    if i > 0 && v.starts[i - 1] + v.lens[v.starts[i - 1]] == s then
      v.(lens := v.lens[v.starts[i - 1] := v.lens[v.starts[i - 1]] + n])
    else
      Inserted(v, i, s, n)
  }

  lemma GrowOrListView(v: Lists, a: seq<Extent>, b: seq<Extent>, s: int, n: int)
    requires Keyed(v) && View(v) == a + b && OnlyAt(v, -1, s)
    requires |a| > 0 ==> OnlyAt(v, |a| - 1, v.starts[|a| - 1])
    ensures Keyed(GrowOrList(v, |a|, s, n))
    ensures View(GrowOrList(v, |a|, s, n)) == JoinPrev(a, Extent(s, n)) + b
  {
    var i, f := |a|, View(v);
    CutConcat(a, b);
    assert i > 0 ==> a[i - 1] == f[i - 1] == Extent(v.starts[i - 1], v.lens[v.starts[i - 1]]);
    hide OnlyAt, View;
    if i > 0 && v.starts[i - 1] + v.lens[v.starts[i - 1]] == s {
      GrowView(v, i - 1, v.lens[v.starts[i - 1]] + n);
      GrowConcat(a, b, Extent(v.starts[i - 1], v.lens[v.starts[i - 1]] + n));
    } else {
      InsertView(v, i, s, n);
    }
  }

  lemma CutConcat(a: seq<Extent>, b: seq<Extent>)
    ensures (a + b)[..|a|] == a && (a + b)[|a|..] == b
  {
  }

  lemma GrowConcat(a: seq<Extent>, b: seq<Extent>, x: Extent)
    requires |a| > 0
    ensures (a + b)[|a| - 1 := x] == a[..|a| - 1] + [x] + b
  {
  }

  lemma GiveBackView(v: Lists, i: nat, s: int, n: int)
    requires Fits(v, i, s, n)
    ensures var (w, m) := PopNext(v, i, s, n);
            && Keyed(w) && i <= |w.starts| && Keyed(GrowOrList(w, i, s, m))
            && View(GrowOrList(w, i, s, m)) == Insert(View(v), i, s, n)
  {
    PopNextView(v, i, s, n);
    var (w, m) := PopNext(v, i, s, n);
    GrowOrListView(w, View(v)[..i], JoinNext(View(v)[i..], s, n).1, s, m);
  }

  /** No free extent starts where the offset points. */
  ghost predicate Unlisted(p: Pool, offset: int) { forall e :: e in p.free ==> e.start != offset / p.page }

  lemma UsedIsUnlisted(p: Pool, offset: int, nbytes: int)
    requires Wf(p) && nbytes > 0 && offset / p.page + PagesFor(p.page, nbytes) <= p.total && 0 <= offset / p.page
    requires Run(offset / p.page, PagesFor(p.page, nbytes)) !! FreePages(p)
    ensures Spaced(p.free) && Unlisted(p, offset)
  {
    var s, n := offset / p.page, PagesFor(p.page, nbytes);
    PagesForLeast(p.page, nbytes);
    SeparatedIsSpaced(p.free, p.total);
    FirstOfRun(s, n);
    hide PagesFor, Spaced, Run, FreePages, Separated;
    forall e | e in p.free ensures e.start != s {
      var j :| 0 <= j < |p.free| && p.free[j] == e;
      StartIsFree(p, j);
    }
  }

  lemma FirstOfRun(s: int, n: int)
    requires n >= 1
    ensures s in Run(s, n)
  {
  }

  lemma StartIsFree(p: Pool, j: nat)
    requires Wf(p) && p.total > 0 && j < |p.free|
    ensures p.free[j].start in FreePages(p)
  {
    LenPositive(-1, p.free, p.total, j);
    assert p.free == p.free[..j] + [p.free[j]] + p.free[j + 1..];
    PagesOfSplice(p.free[..j], p.free[j], p.free[j + 1..]);
    FirstOfRun(p.free[j].start, p.free[j].len);
  }

  class ExtentAllocator {
    const page: pos
    const totalPages: int
    var starts: seq<int>
    var lens: map<int, int>
    var usedPages: int

    ghost predicate Valid()
      reads this
    {
      Keyed(Lists(starts, lens))
    }

    ghost function State(): Pool
      requires Valid()
      reads this
    {
      Pool(page, totalPages, View(Lists(starts, lens)), usedPages)
    }

    constructor (totalBytes: int, pageBytes: pos)
      ensures Valid() && State() == Fresh(totalBytes, pageBytes)
    {
      page := pageBytes;
      totalPages := totalBytes / pageBytes;
      starts := [0];
      lens := map[0 := totalBytes / pageBytes];
      usedPages := 0;
    }

    method Allocate(nbytes: int) returns (offset: Option<int>)
      requires Valid() && Spaced(State().free)
      modifies this
      ensures Valid() && (offset, State()) == Alloc(old(State()), nbytes)
    {
      PagesForLeast(page, nbytes);
      var need := PagesFor(page, nbytes);
      ghost var before := State();
      for i := 0 to |starts|
        invariant Valid() && State() == before
        invariant FirstFit(before.free, need, 0) == FirstFit(before.free, need, i)
      {
        if lens[starts[i]] >= need {
          var s := starts[i];
          Take(i, need);
          usedPages := usedPages + need;
          return Some(s * page);
        }
      }
      return None;
    }

    /** Remove extent `i`, and list what is left of it after its first `need` pages. */
    method Take(i: nat, need: int)
      requires Valid() && Spaced(State().free)
      requires i < |starts| && need <= lens[starts[i]] && (need >= 1 || i == 0)
      modifies this`starts, this`lens
      ensures Valid() && State().free == Carve(old(State().free), i, need)
    {
      hide PagesFor;
      ghost var v := Lists(starts, lens);
      CarveView(v, i, need);
      var s := starts[i];
      var ln := lens[s];
      lens := lens - {s};
      starts := starts[..i] + starts[i + 1..];
      if ln > need {
        var ns := s + need;
        starts := starts[..i] + [ns] + starts[i..];
        lens := lens[ns := ln - need];
      }
    }

    /** Giving back a run whose start is not listed, or no page at all. */
    method Release(offset: int, nbytes: int)
      requires Valid() && Spaced(State().free)
      requires PagesFor(page, nbytes) == 0 || Unlisted(State(), offset)
      modifies this
      ensures Valid() && State() == Free(old(State()), offset, nbytes)
    {
      var s, n := offset / page, PagesFor(page, nbytes);
      usedPages := usedPages - n;
      var i := BisectLeft(starts, s, 0);
      GiveBack(i, s, n);
    }

    /** Absorb the following extent if the run touches it, then join the preceding one or list the run. */
    method GiveBack(i: nat, s: int, n: int)
      requires Valid() && Spaced(State().free) && i == BisectLeft(starts, s, 0)
      requires n == 0 || forall e :: e in State().free ==> e.start != s
      modifies this`starts, this`lens
      ensures Valid() && i == Bisect(old(State().free), s, 0)
      ensures State().free == Insert(old(State().free), i, s, n)
    {
      ghost var v := Lists(starts, lens);
      BisectsAgree(v, s, 0);
      SpacedFits(v, i, s, n);
      GiveBackView(v, i, s, n);
      var m := AbsorbNext(i, s, n);
      JoinOrList(i, s, m);
    }

    method AbsorbNext(i: nat, s: int, n: int) returns (m: int)
      requires Valid() && i <= |starts|
      modifies this`starts, this`lens
      ensures (Lists(starts, lens), m) == PopNext(old(Lists(starts, lens)), i, s, n)
    {
      m := n;
      if i < |starts| && starts[i] == s + n {
        var next := starts[i];
        starts := starts[..i] + starts[i + 1..];
        m := n + lens[next];
        lens := lens - {next};
      }
    }

    method JoinOrList(i: nat, s: int, n: int)
      requires Valid() && i <= |starts|
      modifies this`starts, this`lens
      ensures Lists(starts, lens) == GrowOrList(old(Lists(starts, lens)), i, s, n)
    {
      if i > 0 && starts[i - 1] + lens[starts[i - 1]] == s {
        var prev := starts[i - 1];
        lens := lens[prev := lens[prev] + n];
        return;
      }
      starts := starts[..i] + [s] + starts[i..];
      lens := lens[s := n];
    }
  }

  lemma {:induction false} LenNonNegative(lo: int, f: seq<Extent>, hi: int, j: nat)
    requires Separated(lo, f, hi) && j < |f|
    ensures f[j].len >= 0
    decreases j
  {
    if j > 0 { LenNonNegative(f[0].End(), f[1..], hi, j - 1); }
  }
}
