/**
 Logprobs of many positions kept flat: one row per candidate token, and a start and end index per
 position. The reference is the plain list with one dictionary per position.
 */
module Logprobs {
  import opened Wrappers

  datatype Row = Row(token: int, logprob: real, rank: Option<int>, decoded: Option<string>)

  /** A dictionary in insertion order. */
  type Dict = seq<Row>

  ghost predicate Unique(d: Dict) { forall i, j :: 0 <= i < j < |d| ==> d[i].token != d[j].token }

  /** Setting a key keeps its place if it is there and appends it otherwise. */
  function Put(d: Dict, r: Row): (d': Dict)
    ensures |d'| > 0
  {
    if d == [] then [r]
    else if d[0].token == r.token then [r] + d[1..]
    else [d[0]] + Put(d[1..], r)
  }

  /** The dictionary a comprehension builds from rows in order. */
  function DictOf(rows: seq<Row>): Dict {
    if rows == [] then [] else Put(DictOf(rows[..|rows| - 1]), rows[|rows| - 1])
  }

  ghost predicate HasToken(d: Dict, t: int) { exists i :: 0 <= i < |d| && d[i].token == t }

  lemma {:induction false} PutFresh(d: Dict, r: Row)
    requires !HasToken(d, r.token)
    ensures Put(d, r) == d + [r]
  {
    if d != [] {
      assert d == [d[0]] + d[1..];
      HasTokenCons(d[0], d[1..], r.token);
      PutFresh(d[1..], r);
    }
  }

  lemma {:induction false} PutTokens(d: Dict, r: Row)
    ensures forall t :: HasToken(Put(d, r), t) <==> HasToken(d, t) || t == r.token
  {
    forall t ensures HasToken(Put(d, r), t) <==> HasToken(d, t) || t == r.token {
      if d == [] {
        HasTokenCons(r, [], t);
      } else if d[0].token == r.token {
        HasTokenCons(d[0], d[1..], t);
        HasTokenCons(r, d[1..], t);
        assert d == [d[0]] + d[1..];
      } else {
        PutTokens(d[1..], r);
        HasTokenCons(d[0], d[1..], t);
        HasTokenCons(d[0], Put(d[1..], r), t);
        assert d == [d[0]] + d[1..];
      }
    }
  }

  lemma HasTokenCons(r: Row, d: Dict, t: int)
    ensures HasToken([r] + d, t) <==> r.token == t || HasToken(d, t)
  {
    if HasToken(d, t) {
      var i :| 0 <= i < |d| && d[i].token == t;
      assert ([r] + d)[i + 1].token == t;
    }
    if r.token == t { assert ([r] + d)[0].token == t; }
  }

  lemma UniqueCons(r: Row, d: Dict)
    ensures Unique([r] + d) <==> Unique(d) && !HasToken(d, r.token)
  {
    var e := [r] + d;
    if Unique(e) {
      forall i, j | 0 <= i < j < |d| ensures d[i].token != d[j].token {
        assert e[i + 1].token != e[j + 1].token;
      }
      forall i | 0 <= i < |d| ensures d[i].token != r.token {
        assert e[0].token != e[i + 1].token;
      }
    }
  }

  lemma {:induction false} PutUnique(d: Dict, r: Row)
    requires Unique(d)
    ensures Unique(Put(d, r))
  {
    if d != [] {
      assert d == [d[0]] + d[1..];
      UniqueCons(d[0], d[1..]);
      if d[0].token == r.token {
        UniqueCons(r, d[1..]);
      } else {
        PutUnique(d[1..], r);
        PutTokens(d[1..], r);
        UniqueCons(d[0], Put(d[1..], r));
      }
    }
  }

  lemma {:induction false} DictUnique(rows: seq<Row>)
    ensures Unique(DictOf(rows))
  {
    if rows != [] {
      DictUnique(rows[..|rows| - 1]);
      PutUnique(DictOf(rows[..|rows| - 1]), rows[|rows| - 1]);
    }
  }

  /** Rows without repeated tokens read back unchanged and in order. */
  lemma {:induction false} DictOfUnique(rows: seq<Row>)
    requires Unique(rows)
    ensures DictOf(rows) == rows
  {
    if rows != [] {
      var front, r := rows[..|rows| - 1], rows[|rows| - 1];
      DictOfUnique(front);
      forall i | 0 <= i < |front| ensures front[i].token != r.token {
        assert rows[i].token != rows[|rows| - 1].token;
      }
      PutFresh(front, r);
      assert rows == front + [r];
    }
  }

  /** The row a dictionary holds for a token. */
  function Get(d: Dict, t: int): Option<Row> {
    if d == [] then None else if d[0].token == t then Some(d[0]) else Get(d[1..], t)
  }

  /** The last row for a token. */
  function Last(rows: seq<Row>, t: int): Option<Row> {
    if rows == [] then None
    else if rows[|rows| - 1].token == t then Some(rows[|rows| - 1])
    else Last(rows[..|rows| - 1], t)
  }

  lemma {:induction false} GetPut(d: Dict, r: Row, t: int)
    ensures Get(Put(d, r), t) == if r.token == t then Some(r) else Get(d, t)
  {
    if d != [] && d[0].token != r.token {
      GetPut(d[1..], r, t);
      assert Put(d, r)[1..] == Put(d[1..], r);
    }
  }

  /** Among repeated tokens the last row wins. */
  lemma {:induction false} LastWins(rows: seq<Row>, t: int)
    ensures Get(DictOf(rows), t) == Last(rows, t)
  {
    if rows != [] {
      LastWins(rows[..|rows| - 1], t);
      GetPut(DictOf(rows[..|rows| - 1]), rows[|rows| - 1], t);
    }
  }

  /** Where a token first appears among the rows. */
  ghost predicate FirstAt(rows: seq<Row>, t: int, i: int) {
    0 <= i < |rows| && rows[i].token == t && forall j :: 0 <= j < i ==> rows[j].token != t
  }

  /** `d` has the tokens of the rows, each in the place of its first appearance. */
  ghost predicate InOrderOf(d: Dict, rows: seq<Row>, at: seq<int>) {
    && |at| == |d| && (forall i :: 0 <= i < |d| ==> FirstAt(rows, d[i].token, at[i]))
    && (forall i, j :: 0 <= i < j < |d| ==> at[i] < at[j])
    && (forall t :: HasToken(rows, t) ==> HasToken(d, t))
  }

  lemma {:induction false} PutPlace(d: Dict, r: Row)
    requires HasToken(d, r.token)
    ensures |Put(d, r)| == |d| && forall i :: 0 <= i < |d| ==> Put(d, r)[i].token == d[i].token
  {
    if d[0].token != r.token {
      assert d == [d[0]] + d[1..];
      HasTokenCons(d[0], d[1..], r.token);
      PutPlace(d[1..], r);
    }
  }

  lemma HasTokenSnoc(rows: seq<Row>, r: Row, t: int)
    ensures HasToken(rows + [r], t) <==> HasToken(rows, t) || r.token == t
  {
    var all := rows + [r];
    if HasToken(rows, t) {
      var i :| 0 <= i < |rows| && rows[i].token == t;
      assert all[i].token == t;
    }
    if r.token == t { assert all[|rows|].token == t; }
  }

  /** Setting a token again keeps its place: a dictionary is in the order of first appearance. */
  lemma {:induction false} FirstDecidesPlace(rows: seq<Row>) returns (at: seq<int>)
    ensures InOrderOf(DictOf(rows), rows, at)
  {
    at := [];
    if rows != [] {
      var front, r := rows[..|rows| - 1], rows[|rows| - 1];
      assert rows == front + [r];
      at := FirstDecidesPlace(front);
      var d := DictOf(front);
      hide DictOf, InOrderOf;
      assert DictOf(rows) == Put(d, r) by { DictNext(rows); }
      if HasToken(d, r.token) {
        PlaceAgain(d, front, r, at);
      } else {
        PlaceNew(d, front, r, at);
        at := at + [|front|];
      }
    } else {
      assert DictOf(rows) == [];
    }
  }

  lemma DictNext(rows: seq<Row>)
    requires rows != []
    ensures DictOf(rows) == Put(DictOf(rows[..|rows| - 1]), rows[|rows| - 1])
  {
  }

  lemma FirstStays(rows: seq<Row>, r: Row, t: int, i: int)
    requires FirstAt(rows, t, i)
    ensures FirstAt(rows + [r], t, i)
  {
  }

  lemma PlaceAgain(d: Dict, rows: seq<Row>, r: Row, at: seq<int>)
    requires InOrderOf(d, rows, at) && HasToken(d, r.token)
    ensures InOrderOf(Put(d, r), rows + [r], at)
  {
    hide HasToken, FirstAt, Put;
    PutPlace(d, r);
    PutTokens(d, r);
    forall t ensures HasToken(rows + [r], t) <==> HasToken(rows, t) || r.token == t { HasTokenSnoc(rows, r, t); }
    forall i | 0 <= i < |d| ensures FirstAt(rows + [r], d[i].token, at[i]) { FirstStays(rows, r, d[i].token, at[i]); }
  }

  lemma PlaceNew(d: Dict, rows: seq<Row>, r: Row, at: seq<int>)
    requires InOrderOf(d, rows, at) && !HasToken(d, r.token)
    ensures InOrderOf(Put(d, r), rows + [r], at + [|rows|])
  {
    NotSeen(d, rows, r, at);
    hide HasToken, FirstAt, Put;
    PutFresh(d, r);
    PutTokens(d, r);
    forall t ensures HasToken(rows + [r], t) <==> HasToken(rows, t) || r.token == t { HasTokenSnoc(rows, r, t); }
    forall i | 0 <= i < |d| ensures FirstAt(rows + [r], d[i].token, at[i]) { FirstStays(rows, r, d[i].token, at[i]); }
  }

  /** A token that the dictionary does not have is not among the rows. */
  lemma NotSeen(d: Dict, rows: seq<Row>, r: Row, at: seq<int>)
    requires InOrderOf(d, rows, at) && !HasToken(d, r.token)
    ensures FirstAt(rows + [r], r.token, |rows|) && forall i :: 0 <= i < |at| ==> at[i] < |rows|
  {
    assert forall j :: 0 <= j < |rows| ==> HasToken(rows, rows[j].token);
  }

  // ---- The flat container ----

  datatype Flat = Flat(starts: seq<int>, ends: seq<int>, rows: seq<Row>)

  const EMPTY: Flat := Flat([], [], [])

  /** Index ranges are in bounds and in order. */
  ghost predicate Valid(fl: Flat) {
    && |fl.starts| == |fl.ends|
    && (forall i :: 0 <= i < |fl.starts| ==> 0 <= fl.starts[i] <= fl.ends[i] <= |fl.rows|)
    && (forall i, j :: 0 <= i < j < |fl.starts| ==> fl.ends[i] <= fl.starts[j])
  }

  /** The dictionary at a position of a valid container. */
  function DictAt(fl: Flat, i: nat): Dict
    requires i < |fl.starts| == |fl.ends| && 0 <= fl.starts[i] <= fl.ends[i] <= |fl.rows|
  {
    DictOf(fl.rows[fl.starts[i]..fl.ends[i]])
  }

  ghost function Contents(fl: Flat): (c: seq<Dict>)
    requires Valid(fl)
    ensures |c| == |fl.starts|
  {
    seq(|fl.starts|, i requires 0 <= i < |fl.starts| => DictAt(fl, i))
  }

  /** Append one position with the given rows. */
  function Append(fl: Flat, items: seq<Row>): Flat {
    Flat(fl.starts + [|fl.rows|], fl.ends + [|fl.rows| + |items|], fl.rows + items)
  }

  lemma AppendReads(fl: Flat, items: seq<Row>)
    requires Valid(fl)
    ensures Valid(Append(fl, items))
    ensures Contents(Append(fl, items)) == Contents(fl) + [DictOf(items)]
  {
    var n, fl' := |fl.starts|, Append(fl, items);
    assert fl'.rows[|fl.rows|..|fl.rows| + |items|] == items;
    forall i | 0 <= i < n ensures DictAt(fl', i) == DictAt(fl, i) {
      assert fl'.rows[fl.starts[i]..fl.ends[i]] == fl.rows[fl.starts[i]..fl.ends[i]];
    }
    assert Contents(fl') == Contents(fl) + [DictOf(items)];
  }

  function Extend(fl: Flat, dicts: seq<Dict>): Flat {
    if dicts == [] then fl else Append(Extend(fl, dicts[..|dicts| - 1]), dicts[|dicts| - 1])
  }

  lemma {:induction false} ExtendReads(fl: Flat, dicts: seq<Dict>)
    requires Valid(fl) && forall i :: 0 <= i < |dicts| ==> Unique(dicts[i])
    ensures Valid(Extend(fl, dicts))
    ensures Contents(Extend(fl, dicts)) == Contents(fl) + dicts
  {
    if dicts != [] {
      var front, d := dicts[..|dicts| - 1], dicts[|dicts| - 1];
      ExtendReads(fl, front);
      AppendReads(Extend(fl, front), d);
      DictOfUnique(d);
      assert dicts == front + [d];
    } else {
      assert Contents(fl) + [] == Contents(fl);
    }
  }

  lemma ContentsUnique(fl: Flat)
    requires Valid(fl)
    ensures forall i :: 0 <= i < |fl.starts| ==> Unique(Contents(fl)[i])
  {
    forall i | 0 <= i < |fl.starts| ensures Unique(Contents(fl)[i]) {
      DictUnique(fl.rows[fl.starts[i]..fl.ends[i]]);
    }
  }

  // ---- Reading and slicing ----

  /** List indexing: negative indices count from the end, others out of range raise. */
  function Index<T>(s: seq<T>, i: int): Option<T> {
    if 0 <= i < |s| then Some(s[i]) else if -|s| <= i < 0 then Some(s[|s| + i]) else None
  }

  /** The rows at indices `lo` up to `hi`, or `None` if one of them raises. */
  function Gather(rows: seq<Row>, lo: int, hi: int): Option<seq<Row>>
    decreases hi - lo
  {
    if hi <= lo then Some([])
    else
      match Gather(rows, lo, hi - 1)
      case None => None
      case Some(front) =>
        match Index(rows, hi - 1)
        case None => None
        case Some(r) => Some(front + [r])
  }

  /** Reading a position of any container, as the code does. */
  function Read(fl: Flat, i: int): Option<Dict> {
    match (Index(fl.starts, i), Index(fl.ends, i))
    case (Some(lo), Some(hi)) =>
      (match Gather(fl.rows, lo, hi)
       case None => None
       case Some(rows) => Some(DictOf(rows)))
    case _ => None
  }

  lemma {:induction false} GatherIn(rows: seq<Row>, lo: int, hi: int)
    requires 0 <= lo <= hi <= |rows|
    ensures Gather(rows, lo, hi) == Some(rows[lo..hi])
    decreases hi - lo
  {
    if lo < hi {
      GatherIn(rows, lo, hi - 1);
      assert rows[lo..hi] == rows[lo..hi - 1] + [rows[hi - 1]];
    } else {
      assert rows[lo..hi] == [];
    }
  }

  /** In a valid container every position reads, negative ones from the end, and others raise. */
  lemma ReadIs(fl: Flat, i: int)
    requires Valid(fl)
    ensures var n := |Contents(fl)|;
            Read(fl, i) == if 0 <= i < n then Some(Contents(fl)[i]) else if -n <= i < 0 then Some(Contents(fl)[n + i]) else None
  {
    var n := |fl.starts|;
    if -n <= i < n {
      var k := if i < 0 then n + i else i;
      GatherIn(fl.rows, fl.starts[k], fl.ends[k]);
    }
  }

  /** `list(range(from, stop, step))`. */
  function Walk(from: int, stop: int, step: int): seq<int>
    requires step != 0
    decreases if step > 0 then stop - from else from - stop
  {
    if (step > 0 && from >= stop) || (step < 0 && from <= stop) then []
    else [from] + Walk(from + step, stop, step)
  }

  datatype Slice = Slice(start: Option<int>, stop: Option<int>, step: Option<int>)

  function Clamp(i: int, low: int, high: int): int { if i < low then low else if i > high then high else i }

  /** An endpoint counted from the end if negative, then clamped. */
  function Endpoint(e: Option<int>, default: int, n: nat, low: int, high: int): int {
    match e
    case None => default
    case Some(i) => Clamp(if i < 0 then i + n else i, low, high)
  }

  /** The positions a slice of a list of length `n` selects; a zero step raises. */
  function Positions(s: Slice, n: nat): Option<seq<int>> {
    var step := if s.step.None? then 1 else s.step.value;
    if step == 0 then None
    else if step > 0 then Some(Walk(Endpoint(s.start, 0, n, 0, n), Endpoint(s.stop, n, n, 0, n), step))
    else Some(Walk(Endpoint(s.start, n - 1, n, -1, n - 1), Endpoint(s.stop, -1, n, -1, n - 1), step))
  }

  ghost predicate Increasing(ps: seq<int>) { forall i, j :: 0 <= i < j < |ps| ==> ps[i] < ps[j] }

  ghost predicate Decreasing(ps: seq<int>) { forall i, j :: 0 <= i < j < |ps| ==> ps[i] > ps[j] }

  ghost predicate Within(ps: seq<int>, n: nat) { forall i :: 0 <= i < |ps| ==> 0 <= ps[i] < n }

  lemma {:induction false} WalkUp(from: int, stop: int, step: int, n: nat)
    requires step > 0 && 0 <= from && stop <= n
    ensures Within(Walk(from, stop, step), n) && Increasing(Walk(from, stop, step))
    ensures forall i :: 0 <= i < |Walk(from, stop, step)| ==> Walk(from, stop, step)[i] >= from
    decreases stop - from
  {
    if from < stop { WalkUp(from + step, stop, step, n); }
  }

  lemma {:induction false} WalkDown(from: int, stop: int, step: int, n: nat)
    requires step < 0 && from < n && -1 <= stop
    ensures Within(Walk(from, stop, step), n) && Decreasing(Walk(from, stop, step))
    ensures forall i :: 0 <= i < |Walk(from, stop, step)| ==> Walk(from, stop, step)[i] <= from
    decreases from - stop
  {
    if from > stop { WalkDown(from + step, stop, step, n); }
  }

  lemma PositionsOrdered(s: Slice, n: nat)
    requires Positions(s, n).Some?
    ensures var ps := Positions(s, n).value;
            && Within(ps, n)
            && if s.step.None? || s.step.value > 0 then Increasing(ps) else Decreasing(ps)
  {
    if s.step.None? || s.step.value > 0 {
      WalkUp(Endpoint(s.start, 0, n, 0, n), Endpoint(s.stop, n, n, 0, n),
             if s.step.None? then 1 else s.step.value, n);
    } else {
      WalkDown(Endpoint(s.start, n - 1, n, -1, n - 1), Endpoint(s.stop, -1, n, -1, n - 1), s.step.value, n);
    }
  }

  lemma {:induction false} WalkUpHas(from: int, stop: int, step: int, x: int)
    requires step > 0
    ensures x in Walk(from, stop, step) <==> from <= x < stop && (x - from) % step == 0
    decreases stop - from
  {
    if from < stop {
      WalkUpHas(from + step, stop, step, x);
      StepBack(x - from, step);
      assert Walk(from, stop, step) == [from] + Walk(from + step, stop, step);
    }
  }

  lemma {:induction false} WalkDownHas(from: int, stop: int, step: int, x: int)
    requires step < 0
    ensures x in Walk(from, stop, step) <==> stop < x <= from && (from - x) % -step == 0
    decreases from - stop
  {
    if from > stop {
      WalkDownHas(from + step, stop, step, x);
      StepBack(from - x, -step);
      assert Walk(from, stop, step) == [from] + Walk(from + step, stop, step);
    }
  }

  lemma StepBack(y: int, step: int)
    requires step > 0
    ensures (y - step) % step == y % step
    ensures 0 < y < step ==> y % step != 0
    ensures y == 0 ==> y % step == 0
  {
    var q, p := y / step, (y - step) / step;
    assert y == q * step + y % step && y - step == p * step + (y - step) % step;
    var k := q - 1 - p;
    assert k * step == (q - 1) * step - p * step;
    assert k >= 1 ==> k * step >= step;
    assert k <= -1 ==> k * step <= -step;
    if 0 < y < step { assert q >= 1 ==> q * step >= step; }
  }

  /** A bound counted from the end if it is negative. */
  function FromEnd(i: int, n: nat): int { if i < 0 then i + n else i }

  /**
   Which positions a slice selects: those of the list from the start up to the stop, or down to it if the step is
   negative, at every step counted from the first one inside the list.
   */
  lemma PositionsIff(s: Slice, n: nat, x: int)
    ensures Positions(s, n).None? <==> s.step == Some(0)
    ensures Positions(s, n).Some? && (s.step.None? || s.step.value > 0) ==>
              var first := if s.start.None? || FromEnd(s.start.value, n) < 0 then 0 else FromEnd(s.start.value, n);
              x in Positions(s, n).value <==>
                && 0 <= x < n && first <= x && (s.stop.Some? ==> x < FromEnd(s.stop.value, n))
                && (s.step.Some? ==> (x - first) % s.step.value == 0)
    ensures s.step.Some? && s.step.value < 0 ==>
              var first := if s.start.None? || FromEnd(s.start.value, n) >= n then n - 1 else FromEnd(s.start.value, n);
              x in Positions(s, n).value <==>
                && 0 <= x < n && x <= first && (s.stop.Some? ==> x > FromEnd(s.stop.value, n))
                && (first - x) % -s.step.value == 0
  {
    hide Walk;
    var step := if s.step.None? then 1 else s.step.value;
    if step > 0 {
      WalkUpHas(Endpoint(s.start, 0, n, 0, n), Endpoint(s.stop, n, n, 0, n), step, x);
    } else if step < 0 {
      WalkDownHas(Endpoint(s.start, n - 1, n, -1, n - 1), Endpoint(s.stop, -1, n, -1, n - 1), step, x);
    }
  }

  /** A list slice with step one: negative bounds count from the end, and it is empty when they cross. */
  function Cut<T>(s: seq<T>, lo: int, hi: int): (r: seq<T>)
    ensures 0 <= lo <= |s| && 0 <= hi <= |s| ==> r == if lo <= hi then s[lo..hi] else []
  {
    var a, b := Endpoint(Some(lo), 0, |s|, 0, |s|), Endpoint(Some(hi), 0, |s|, 0, |s|);
    if a <= b then s[a..b] else []
  }

  function Shifted(s: seq<int>, ps: seq<int>, origin: int): (r: seq<int>)
    requires forall i :: 0 <= i < |ps| ==> 0 <= ps[i] < |s|
    ensures |r| == |ps|
  {
    seq(|ps|, i requires 0 <= i < |ps| => s[ps[i]] - origin)
  }

  /** The container made of the selected positions. Selecting none raises. */
  function Select(fl: Flat, ps: seq<int>): Option<Flat>
    requires |fl.starts| == |fl.ends|
    requires forall i :: 0 <= i < |ps| ==> 0 <= ps[i] < |fl.starts|
  {
    if ps == [] then None
    else
      var lo, hi := fl.starts[ps[0]], fl.ends[ps[|ps| - 1]];
      Some(Flat(Shifted(fl.starts, ps, lo), Shifted(fl.ends, ps, lo), Cut(fl.rows, lo, hi)))
  }

  /** The container reads as the selected dictionaries. */
  ghost predicate ReadsAs(fl: Option<Flat>, dicts: seq<Dict>) {
    && fl.Some? && |fl.value.starts| == |dicts|
    && forall i :: 0 <= i < |dicts| ==> Read(fl.value, i) == Some(dicts[i])
  }

  ghost function Picked(c: seq<Dict>, ps: seq<int>): (r: seq<Dict>)
    requires Within(ps, |c|)
    ensures |r| == |ps|
  {
    seq(|ps|, i requires 0 <= i < |ps| => c[ps[i]])
  }

  lemma SelectBounds(fl: Flat, ps: seq<int>)
    requires Valid(fl) && Within(ps, |fl.starts|) && Increasing(ps) && ps != []
    ensures forall i :: 0 <= i < |ps| ==>
              fl.starts[ps[0]] <= fl.starts[ps[i]] <= fl.ends[ps[i]] <= fl.ends[ps[|ps| - 1]]
  {
    forall i | 0 <= i < |ps|
      ensures fl.starts[ps[0]] <= fl.starts[ps[i]] <= fl.ends[ps[i]] <= fl.ends[ps[|ps| - 1]]
    {
      assert i > 0 ==> ps[0] < ps[i];
      assert i < |ps| - 1 ==> ps[i] < ps[|ps| - 1];
    }
  }

  lemma SelectValid(fl: Flat, ps: seq<int>)
    requires Valid(fl) && Within(ps, |fl.starts|) && Increasing(ps) && ps != []
    ensures Valid(Select(fl, ps).value)
  {
    SelectBounds(fl, ps);
    var r := Select(fl, ps).value;
    forall i, j | 0 <= i < j < |ps| ensures r.ends[i] <= r.starts[j] {
      assert ps[i] < ps[j];
    }
  }

  /** A slice in increasing order is again a valid container with the selected contents. */
  lemma SelectUp(fl: Flat, ps: seq<int>)
    requires Valid(fl) && Within(ps, |fl.starts|) && Increasing(ps) && ps != []
    ensures var r := Select(fl, ps);
            r.Some? && Valid(r.value) && Contents(r.value) == Picked(Contents(fl), ps)
  {
    SelectValid(fl, ps);
    var r, c := Select(fl, ps).value, Contents(fl);
    hide Cut, Increasing, DictAt, Valid;
    forall i | 0 <= i < |ps| ensures Contents(r)[i] == c[ps[i]] { SelectAt(fl, ps, i); }
    assert Contents(r) == Picked(c, ps);
  }

  /** Position `i` of a container cut out of another reads as the position it came from. */
  lemma CutAt(r: Flat, fl: Flat, i: nat, p: nat, lo: int, hi: int)
    requires i < |r.starts| == |r.ends| && p < |fl.starts| == |fl.ends|
    requires 0 <= lo <= fl.starts[p] <= fl.ends[p] <= hi <= |fl.rows|
    requires r.starts[i] == fl.starts[p] - lo && r.ends[i] == fl.ends[p] - lo && r.rows == fl.rows[lo..hi]
    ensures DictAt(r, i) == DictAt(fl, p)
  {
    hide DictOf;
    SubCut(fl.rows, lo, hi, fl.starts[p], fl.ends[p]);
  }

  lemma SelectAt(fl: Flat, ps: seq<int>, i: nat)
    requires Valid(fl) && Within(ps, |fl.starts|) && Increasing(ps) && i < |ps| && Valid(Select(fl, ps).value)
    ensures DictAt(Select(fl, ps).value, i) == DictAt(fl, ps[i])
  {
    SelectBounds(fl, ps);
    hide Increasing, DictAt;
    CutAt(Select(fl, ps).value, fl, i, ps[i], fl.starts[ps[0]], fl.ends[ps[|ps| - 1]]);
  }

  lemma SubCut(rows: seq<Row>, lo: int, hi: int, a: int, b: int)
    requires 0 <= lo <= a <= b <= hi <= |rows|
    ensures Cut(rows, lo, hi)[a - lo..b - lo] == rows[a..b]
  {
  }

  lemma NoRows(lo: int, hi: int)
    ensures Gather([], lo, hi) == if hi <= lo then Some([]) else None
    decreases hi - lo
  {
    if lo < hi { NoRows(lo, hi - 1); }
  }

  ghost predicate EmptyAt(fl: Flat, i: int)
    requires 0 <= i < |fl.starts| == |fl.ends|
  {
    fl.starts[i] == fl.ends[i]
  }

  /** A slice of several positions in decreasing order keeps no row, so only empty positions read. */
  lemma SelectDown(fl: Flat, ps: seq<int>)
    requires Valid(fl) && Within(ps, |fl.starts|) && Decreasing(ps) && |ps| >= 2
    ensures ReadsAs(Select(fl, ps), Picked(Contents(fl), ps)) <==>
            forall i :: 0 <= i < |ps| ==> EmptyAt(fl, ps[i])
  {
    var r := Select(fl, ps).value;
    assert ps[0] > ps[|ps| - 1];
    assert r.rows == [];
    forall i | 0 <= i < |ps|
      ensures Read(r, i) == Some(DictAt(fl, ps[i])) <==> EmptyAt(fl, ps[i])
    {
      NoRows(r.starts[i], r.ends[i]);
    }
    assert forall i :: 0 <= i < |ps| ==> Picked(Contents(fl), ps)[i] == DictAt(fl, ps[i]);
  }

  /**
   Slicing reads as the slice of the list if and only if it selects something and either goes forward,
   or selects one position, or selects only empty positions. A forward slice is valid again.
   */
  lemma SliceIff(fl: Flat, s: Slice)
    requires Valid(fl) && Positions(s, |fl.starts|).Some?
    ensures var ps := Positions(s, |fl.starts|).value;
      && Within(ps, |fl.starts|)
      && (ReadsAs(Select(fl, ps), Picked(Contents(fl), ps)) <==>
          && ps != []
          && (s.step.None? || s.step.value > 0 || |ps| == 1 || forall i :: 0 <= i < |ps| ==> EmptyAt(fl, ps[i])))
      && (ps != [] && (s.step.None? || s.step.value > 0) ==> Valid(Select(fl, ps).value))
  {
    PositionsOrdered(s, |fl.starts|);
    var ps := Positions(s, |fl.starts|).value;
    hide Positions, Read, DictAt, Contents, Picked, EmptyAt, Select;
    if ps == [] {
      NothingSelected(fl, ps);
    } else if |ps| == 1 || s.step.None? || s.step.value > 0 {
      SelectUp(fl, ps);
      ReadsContents(Select(fl, ps).value);
    } else {
      SelectDown(fl, ps);
    }
  }

  lemma TwoBackwards(n: nat, step: int)
    requires n == 2 && step == -1
    ensures Positions(Slice(None, None, Some(step)), n) == Some([1, 0])
  {
    assert Walk(n - 3, -1, step) == [];
    assert Walk(n - 2, -1, step) == [n - 2] + Walk(n - 3, -1, step);
    assert Walk(n - 1, -1, step) == [n - 1] + Walk(n - 2, -1, step) == [1, 0];
  }

  /** Two positions of one row each, read backwards: the slice keeps no row, so its first position raises. */
  lemma BackwardsLosesRows(a: Row, b: Row)
    ensures var fl, s := Append(Append(EMPTY, [a]), [b]), Slice(None, None, Some(-1));
      && Valid(fl) && Positions(s, 2) == Some([1, 0])
      && Select(fl, [1, 0]) == Some(Flat([0, -1], [1, 0], []))
      && Read(Select(fl, [1, 0]).value, 0) == None
      && !ReadsAs(Select(fl, [1, 0]), Picked(Contents(fl), [1, 0]))
  {
    var fl := Append(Append(EMPTY, [a]), [b]);
    assert fl == Flat([0, 1], [1, 2], [a, b]);
    var ps := [1, 0];
    TwoBackwards(2, -1);
    assert Shifted(fl.starts, ps, 1) == [0, -1] && Shifted(fl.ends, ps, 1) == [1, 0];
    assert Cut(fl.rows, 1, 1) == [];
    NoRows(0, 1);
  }

  lemma NothingSelected(fl: Flat, ps: seq<int>)
    requires Valid(fl) && ps == []
    ensures Select(fl, ps) == None
  {
  }

  lemma ReadsContents(fl: Flat)
    requires Valid(fl)
    ensures ReadsAs(Some(fl), Contents(fl))
  {
    forall i | 0 <= i < |fl.starts| ensures Read(fl, i) == Some(Contents(fl)[i]) {
      ReadIs(fl, i);
    }
  }

  /** Extending a container by itself: its first `k` positions are read one by one, rows being added meanwhile. */
  function SelfExtended(fl: Flat, k: nat): Option<Flat> {
    if k == 0 then Some(fl)
    else match SelfExtended(fl, k - 1)
      case None => None
      case Some(mid) =>
        match Read(mid, k - 1)
        case None => None
        case Some(dict) => Some(Append(mid, dict))
  }

  /** A valid container gets exactly its former contents appended. */
  lemma {:induction false} SelfExtends(fl: Flat, k: nat)
    requires Valid(fl) && k <= |fl.starts|
    ensures SelfExtended(fl, k) == Some(Extend(fl, Contents(fl)[..k]))
  {
    hide Contents, Read, Append, Valid;
    if k > 0 {
      SelfExtends(fl, k - 1);
      ReadOwn(fl, k - 1);
      assert Contents(fl)[..k][..k - 1] == Contents(fl)[..k - 1];
    }
  }

  lemma ReadOwn(fl: Flat, k: nat)
    requires Valid(fl) && k < |fl.starts|
    ensures Read(Extend(fl, Contents(fl)[..k]), k) == Some(Contents(fl)[k])
  {
    var dicts := Contents(fl);
    ContentsUnique(fl);
    ExtendReads(fl, dicts[..k]);
    ReadIs(Extend(fl, dicts[..k]), k);
    hide Contents, Read, Extend;
  }

  // ---- The plain list form ----

  /** Four columns side by side, as long as the shortest. */
  function Zip(tokens: seq<int>, logprobs: seq<real>, ranks: seq<int>, decoded: seq<Option<string>>): seq<Row>
    decreases |tokens|
  {
    if tokens == [] || logprobs == [] || ranks == [] || decoded == [] then []
    else [Row(tokens[0], logprobs[0], Some(ranks[0]), decoded[0])]
         + Zip(tokens[1..], logprobs[1..], ranks[1..], decoded[1..])
  }

  /** The rank of the sampled token, then ranks from one. */
  function Ranks(rank: int, n: int): seq<int> {
    [rank] + (if n <= 0 then [] else seq(n, i => i + 1))
  }

  /** The columns of the next position, with the rank count the caller's -1 stands for. */
  function NextRows(tokens: seq<int>, logprobs: seq<real>, decoded: seq<Option<string>>, rank: int, n: int): seq<Row> {
    Zip(tokens, logprobs, Ranks(rank, if n == -1 then |logprobs| else n), decoded)
  }

  lemma {:induction false} ZipAt(ts: seq<int>, ls: seq<real>, rs: seq<int>, ds: seq<Option<string>>, i: nat)
    requires i < |ts| && i < |ls| && i < |rs| && i < |ds|
    ensures i < |Zip(ts, ls, rs, ds)| && Zip(ts, ls, rs, ds)[i] == Row(ts[i], ls[i], Some(rs[i]), ds[i])
  {
    if i > 0 { ZipAt(ts[1..], ls[1..], rs[1..], ds[1..], i - 1); }
  }

  /** The number that is among the four and not above any. */
  ghost predicate Shortest(n: int, a: int, b: int, c: int, d: int) {
    n in {a, b, c, d} && n <= a && n <= b && n <= c && n <= d
  }

  lemma {:induction false} ZipLength(ts: seq<int>, ls: seq<real>, rs: seq<int>, ds: seq<Option<string>>)
    ensures Shortest(|Zip(ts, ls, rs, ds)|, |ts|, |ls|, |rs|, |ds|)
  {
    if ts != [] && ls != [] && rs != [] && ds != [] { ZipLength(ts[1..], ls[1..], rs[1..], ds[1..]); }
  }

  /**
   The rows of the next position: first the sampled token with its own rank, then as many of the others as were asked for,
   ranked from one. Minus one asks for all. A column that ends ends the rows.
   */
  lemma NextRowsExact(ts: seq<int>, ls: seq<real>, ds: seq<Option<string>>, rank: int, n: int)
    ensures var rows := NextRows(ts, ls, ds, rank, n);
            && Shortest(|rows|, |ts|, |ls|, |ds|, if n == -1 then |ls| + 1 else if n < 0 then 1 else n + 1)
            && forall j :: 0 <= j < |rows| ==> rows[j] == Row(ts[j], ls[j], Some(if j == 0 then rank else j), ds[j])
  {
    var rs := Ranks(rank, if n == -1 then |ls| else n);
    ZipLength(ts, ls, rs, ds);
    hide Zip;
    forall j | 0 <= j < |Zip(ts, ls, rs, ds)|
      ensures Zip(ts, ls, rs, ds)[j] == Row(ts[j], ls[j], Some(if j == 0 then rank else j), ds[j])
    {
      ZipAt(ts, ls, rs, ds, j);
    }
  }

  datatype Op =
    | AppendDict(d: Option<Dict>)
    | AppendFast(tokens: seq<int>, logprobs: seq<real>, ranks: seq<int>, decoded: seq<Option<string>>)
    | NextPosition(tokens: seq<int>, logprobs: seq<real>, decoded: seq<Option<string>>, rank: int, n: int)
    | ExtendWith(dicts: seq<Dict>)
    | ExtendSelf
    | TakeSlice(s: Slice)

  /** Dictionaries have distinct keys, and slices go forward and select something. */
  ghost predicate OpOk(op: Op, n: nat) {
    match op
    case AppendDict(Some(d)) => Unique(d)
    case ExtendWith(dicts) => forall i :: 0 <= i < |dicts| ==> Unique(dicts[i])
    case TakeSlice(s) =>
      && (s.step.None? || s.step.value > 0)
      && Positions(s, n).Some? && Positions(s, n).value != []
    case _ => true
  }

  ghost function OnFlat(fl: Flat, op: Op): Flat
    requires Valid(fl) && OpOk(op, |fl.starts|)
  {
    match op
    case AppendDict(d) => Append(fl, if d.None? then [] else d.value)
    case AppendFast(ts, ls, rs, ds) => Append(fl, Zip(ts, ls, rs, ds))
    case NextPosition(ts, ls, ds, rank, n) => Append(fl, NextRows(ts, ls, ds, rank, n))
    case ExtendWith(dicts) => Extend(fl, dicts)
    case ExtendSelf => Extend(fl, Contents(fl))
    case TakeSlice(s) =>
      PositionsOrdered(s, |fl.starts|);
      Select(fl, Positions(s, |fl.starts|).value).value
  }

  /** The same operations on a list of dictionaries; an absent dictionary is an empty one. */
  ghost function OnList(list: seq<Dict>, op: Op): seq<Dict>
    requires OpOk(op, |list|)
  {
    match op
    case AppendDict(d) => list + [if d.None? then [] else d.value]
    case AppendFast(ts, ls, rs, ds) => list + [DictOf(Zip(ts, ls, rs, ds))]
    case NextPosition(ts, ls, ds, rank, n) => list + [DictOf(NextRows(ts, ls, ds, rank, n))]
    case ExtendWith(dicts) => list + dicts
    case ExtendSelf => list + list
    case TakeSlice(s) =>
      PositionsOrdered(s, |list|);
      Picked(list, Positions(s, |list|).value)
  }

  lemma OpRefines(fl: Flat, op: Op)
    requires Valid(fl) && OpOk(op, |fl.starts|)
    ensures Valid(OnFlat(fl, op)) && Contents(OnFlat(fl, op)) == OnList(Contents(fl), op)
  {
    match op {
      case AppendDict(d) =>
        AppendReads(fl, if d.None? then [] else d.value);
        DictOfUnique(if d.None? then [] else d.value);
      case AppendFast(ts, ls, rs, ds) => AppendReads(fl, Zip(ts, ls, rs, ds));
      case NextPosition(ts, ls, ds, rank, n) => AppendReads(fl, NextRows(ts, ls, ds, rank, n));
      case ExtendWith(dicts) => ExtendReads(fl, dicts);
      case ExtendSelf =>
        ContentsUnique(fl);
        ExtendReads(fl, Contents(fl));
      case TakeSlice(s) =>
        PositionsOrdered(s, |fl.starts|);
        SelectUp(fl, Positions(s, |fl.starts|).value);
    }
  }

  ghost predicate FlatStep(fl: Flat, op: Op, fl': Flat) {
    Valid(fl) && OpOk(op, |fl.starts|) ==> fl' == OnFlat(fl, op)
  }

  ghost predicate ListStep(list: seq<Dict>, op: Op, list': seq<Dict>) {
    OpOk(op, |list|) && list' == OnList(list, op)
  }

  /**
   Whatever operations the plain list can do in turn, the flat container stays valid and holds, state
   by state, the same dictionaries.
   */
  lemma {:induction false} RunRefines(fls: seq<Flat>, lists: seq<seq<Dict>>, ops: seq<Op>, i: nat)
    requires |fls| == |lists| == |ops| + 1 && i <= |ops|
    requires Valid(fls[0]) && lists[0] == Contents(fls[0])
    requires forall k :: 0 <= k < |ops| ==> FlatStep(fls[k], ops[k], fls[k + 1])
    requires forall k :: 0 <= k < |ops| ==> ListStep(lists[k], ops[k], lists[k + 1])
    ensures Valid(fls[i]) && Contents(fls[i]) == lists[i]
  {
    if i > 0 {
      RunRefines(fls, lists, ops, i - 1);
      assert FlatStep(fls[i - 1], ops[i - 1], fls[i - 1 + 1]);
      assert ListStep(lists[i - 1], ops[i - 1], lists[i - 1 + 1]);
      OpRefines(fls[i - 1], ops[i - 1]);
    }
  }
}
