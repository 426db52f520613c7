/** The flat container with its six parallel lists, updated in place. */
module FlatLogprobs {
  import opened Wrappers
  import L = Logprobs

  function RowsOf(tokens: seq<int>, logprobs: seq<real>, ranks: seq<Option<int>>, decoded: seq<Option<string>>)
    : (r: seq<L.Row>)
    requires |tokens| == |logprobs| == |ranks| == |decoded|
    ensures |r| == |tokens|
  {
    seq(|tokens|, i requires 0 <= i < |tokens| => L.Row(tokens[i], logprobs[i], ranks[i], decoded[i]))
  }

  lemma RowsSnoc(ts: seq<int>, ls: seq<real>, rs: seq<Option<int>>, ds: seq<Option<string>>, row: L.Row)
    requires |ts| == |ls| == |rs| == |ds|
    ensures RowsOf(ts + [row.token], ls + [row.logprob], rs + [row.rank], ds + [row.decoded])
            == RowsOf(ts, ls, rs, ds) + [row]
  {
  }

  /** Cutting every column is cutting the rows. */
  lemma CutRows(ts: seq<int>, ls: seq<real>, rs: seq<Option<int>>, ds: seq<Option<string>>, lo: int, hi: int)
    requires |ts| == |ls| == |rs| == |ds|
    ensures |L.Cut(ts, lo, hi)| == |L.Cut(ls, lo, hi)| == |L.Cut(rs, lo, hi)| == |L.Cut(ds, lo, hi)|
    ensures RowsOf(L.Cut(ts, lo, hi), L.Cut(ls, lo, hi), L.Cut(rs, lo, hi), L.Cut(ds, lo, hi))
            == L.Cut(RowsOf(ts, ls, rs, ds), lo, hi)
  {
  }

  class Container {
    var starts: seq<int>
    var ends: seq<int>
    var tokens: seq<int>
    var logprobs: seq<real>
    var ranks: seq<Option<int>>
    var decoded: seq<Option<string>>

    ghost predicate Columns()
      reads this
    {
      |tokens| == |logprobs| == |ranks| == |decoded|
    }

    ghost function View(): L.Flat
      reads this
      requires Columns()
    {
      L.Flat(starts, ends, RowsOf(tokens, logprobs, ranks, decoded))
    }

    constructor ()
      ensures Columns() && View() == L.EMPTY
    {
      starts, ends, tokens, logprobs, ranks, decoded := [], [], [], [], [], [];
    }

    method Push(row: L.Row)
      requires Columns()
      modifies this`tokens, this`logprobs, this`ranks, this`decoded
      ensures Columns() && View() == old(View()).(rows := old(View()).rows + [row])
    {
      RowsSnoc(tokens, logprobs, ranks, decoded, row);
      tokens := tokens + [row.token];
      logprobs := logprobs + [row.logprob];
      ranks := ranks + [row.rank];
      decoded := decoded + [row.decoded];
    }

    method Append(d: Option<L.Dict>)
      requires Columns()
      modifies this
      ensures Columns() && View() == L.Append(old(View()), if d.None? then [] else d.value)
    {
      ghost var before := View();
      starts := starts + [|logprobs|];
      if d.Some? {
        for i := 0 to |d.value|
          invariant Columns() && View() == L.Flat(before.starts + [|before.rows|], before.ends, before.rows + d.value[..i])
        {
          Push(d.value[i]);
          assert d.value[..i + 1] == d.value[..i] + [d.value[i]];
        }
        assert d.value[..|d.value|] == d.value;
      }
      ends := ends + [|logprobs|];
    }

    method AppendFast(ts: seq<int>, ls: seq<real>, rs: seq<int>, ds: seq<Option<string>>)
      requires Columns()
      modifies this
      ensures Columns() && View() == L.Append(old(View()), L.Zip(ts, ls, rs, ds))
    {
      ghost var before := View();
      ghost var rows := L.Zip(ts, ls, rs, ds);
      L.ZipLength(ts, ls, rs, ds);
      starts := starts + [|logprobs|];
      var i := 0;
      while i < |ts| && i < |ls| && i < |rs| && i < |ds|
        invariant i <= |rows| && Columns()
        invariant View() == L.Flat(before.starts + [|before.rows|], before.ends, before.rows + rows[..i])
      {
        L.ZipAt(ts, ls, rs, ds, i);
        Push(L.Row(ts[i], ls[i], Some(rs[i]), ds[i]));
        assert rows[..i + 1] == rows[..i] + [rows[i]];
        i := i + 1;
      }
      assert rows[..i] == rows;
      ends := ends + [|logprobs|];
    }

    method NextPosition(ts: seq<int>, ls: seq<real>, ds: seq<Option<string>>, rank: int, n: int)
      requires Columns()
      modifies this
      ensures Columns() && View() == L.Append(old(View()), L.NextRows(ts, ls, ds, rank, n))
      ensures L.Shortest(|tokens| - |old(tokens)|, |ts|, |ls|, |ds|, if n == -1 then |ls| + 1 else if n < 0 then 1 else n + 1)
      ensures forall j :: 0 <= j < |tokens| - |old(tokens)| ==>
                View().rows[|old(tokens)| + j] == L.Row(ts[j], ls[j], Some(if j == 0 then rank else j), ds[j])
    {
      hide RowsOf, L.Zip, L.Ranks;
      L.NextRowsExact(ts, ls, ds, rank, n);
      var count := n;
      if n == -1 { count := |ls|; }
      AppendFast(ts, ls, L.Ranks(rank, count), ds);
    }

    method Extend(dicts: seq<L.Dict>)
      requires Columns()
      modifies this
      ensures Columns() && View() == L.Extend(old(View()), dicts)
    {
      ghost var before := View();
      for i := 0 to |dicts|
        invariant Columns() && View() == L.Extend(before, dicts[..i])
      {
        Append(Some(dicts[i]));
        assert dicts[..i + 1][..i] == dicts[..i];
      }
      assert dicts[..|dicts|] == dicts;
    }

    /** Read one position into a new dictionary. */
    method GetItem(i: int) returns (r: Option<L.Dict>)
      requires Columns()
      ensures r == L.Read(View(), i)
    {
      var lo, hi := L.Index(starts, i), L.Index(ends, i);
      if lo.None? || hi.None? { return None; }
      var k := lo.value;
      var d: L.Dict := [];
      ghost var rows := [];
      while k < hi.value
        invariant lo.value <= k && (k <= hi.value || k == lo.value)
        invariant L.Gather(View().rows, lo.value, k) == Some(rows) && d == L.DictOf(rows)
      {
        var t := L.Index(tokens, k);
        if t.None? {
          GatherStops(View().rows, lo.value, k + 1, hi.value);
          return None;
        }
        var at := if k < 0 then |tokens| + k else k;
        var row := L.Row(tokens[at], logprobs[at], ranks[at], decoded[at]);
        d := L.Put(d, row);
        assert (rows + [row])[..|rows|] == rows;
        rows := rows + [row];
        k := k + 1;
      }
      GatherEmpty(View().rows, lo.value, hi.value);
      return Some(d);
    }

    /**
     Each position is read and appended; the positions to read are counted before any is added. A read that
     raises, which takes a container that a backward slice left, stops there.
     */
    method ExtendSelf() returns (ok: bool)
      requires Columns()
      modifies this
      ensures Columns() && ok == L.SelfExtended(old(View()), old(|starts|)).Some?
      ensures ok ==> Some(View()) == L.SelfExtended(old(View()), old(|starts|))
      ensures old(L.Valid(View())) ==> ok && View() == L.Extend(old(View()), L.Contents(old(View())))
    {
      hide L.Contents, L.Read, L.Valid, L.Append, L.Extend, RowsOf;
      ghost var before := View();
      var n := |starts|;
      if L.Valid(before) {
        L.SelfExtends(before, n);
        assert L.Contents(before)[..n] == L.Contents(before);
      }
      for i := 0 to n
        invariant Columns() && L.SelfExtended(before, i) == Some(View())
      {
        var d := GetItem(i);
        if d.None? {
          SelfExtendedStops(before, i + 1, n);
          return false;
        }
        Append(d);
      }
      return true;
    }

    /** A new container for a slice, or `None` where the code raises. */
    method GetSlice(s: L.Slice) returns (r: Option<Container>)
      requires Columns() && |starts| == |ends|
      ensures r.Some? ==> fresh(r.value) && r.value.Columns()
      ensures r.None? <==> L.Positions(s, |starts|).None? || L.Positions(s, |starts|).value == []
      ensures r.Some? ==> L.Within(L.Positions(s, |starts|).value, |starts|)
      ensures r.Some? ==> Some(r.value.View()) == L.Select(View(), L.Positions(s, |starts|).value)
    {
      hide L.Cut, L.Positions;
      var positions := L.Positions(s, |starts|);
      if positions.None? || positions.value == [] { return None; }
      L.PositionsOrdered(s, |starts|);
      var ps := positions.value;
      var lo, hi := starts[ps[0]], ends[ps[|ps| - 1]];
      var c := new Container();
      c.starts := L.Shifted(starts, ps, lo);
      c.ends := L.Shifted(ends, ps, lo);
      c.tokens := L.Cut(tokens, lo, hi);
      c.logprobs := L.Cut(logprobs, lo, hi);
      c.ranks := L.Cut(ranks, lo, hi);
      c.decoded := L.Cut(decoded, lo, hi);
      CutRows(tokens, logprobs, ranks, decoded, lo, hi);
      return Some(c);
    }
  }

  lemma {:induction false} GatherStops(rows: seq<L.Row>, lo: int, k: int, hi: int)
    requires lo <= k <= hi && L.Gather(rows, lo, k) == None
    ensures L.Gather(rows, lo, hi) == None
    decreases hi - k
  {
    if k < hi { GatherStops(rows, lo, k, hi - 1); }
  }

  lemma {:induction false} SelfExtendedStops(fl: L.Flat, k: nat, n: nat)
    requires k <= n && L.SelfExtended(fl, k) == None
    ensures L.SelfExtended(fl, n) == None
  {
    if k < n { SelfExtendedStops(fl, k, n - 1); }
  }

  lemma GatherEmpty(rows: seq<L.Row>, lo: int, hi: int)
    ensures hi <= lo ==> L.Gather(rows, lo, hi) == L.Gather(rows, lo, lo)
  {
  }
}
