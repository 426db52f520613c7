/** Merging a stream of partial request outputs into one. */
module Outputs {
  import opened Wrappers
  import L = Logprobs

  datatype Completion = Completion(
    index: int,
    text: string,
    tokens: seq<int>,
    logprobs: Option<seq<L.Dict>>,
    cumulative: Option<real>,
    finish: Option<string>,
    stop: Option<string>)

  function Entries(lp: Option<seq<L.Dict>>): seq<L.Dict> { if lp.None? then [] else lp.value }

  /** Appending one partial completion to another; logprobs with nothing to extend raise. */
  function Merged(c: Completion, d: Completion): Option<Completion> {
    if Entries(d.logprobs) != [] && c.logprobs.None? then None
    else Some(Completion(
      c.index, c.text + d.text, c.tokens + d.tokens,
      if c.logprobs.None? then None else Some(c.logprobs.value + Entries(d.logprobs)),
      d.cumulative, d.finish, d.stop))
  }

  /** One partial completion into a list: merged into the first with its index, or appended. */
  function AddOne(outs: seq<Completion>, d: Completion): Option<seq<Completion>> {
    if outs == [] then Some([d])
    else if outs[0].index == d.index then
      (match Merged(outs[0], d) case None => None case Some(m) => Some([m] + outs[1..]))
    else match AddOne(outs[1..], d) case None => None case Some(rest) => Some([outs[0]] + rest)
  }

  function AddAll(outs: seq<Completion>, ds: seq<Completion>): Option<seq<Completion>> {
    if ds == [] then Some(outs)
    else match AddAll(outs, ds[..|ds| - 1]) case None => None case Some(o) => AddOne(o, ds[|ds| - 1])
  }

  /** The same without aggregation: the newest completion of an index takes its place. */
  function PutOne(outs: seq<Completion>, d: Completion): seq<Completion> {
    if outs == [] then [d]
    else if outs[0].index == d.index then [d] + outs[1..]
    else [outs[0]] + PutOne(outs[1..], d)
  }

  function PutAll(outs: seq<Completion>, ds: seq<Completion>): seq<Completion> {
    if ds == [] then outs else PutOne(PutAll(outs, ds[..|ds| - 1]), ds[|ds| - 1])
  }

  // ---- What the whole stream amounts to ----

  function Indices(s: seq<Completion>): (r: seq<int>)
    ensures |r| == |s|
  {
    seq(|s|, i requires 0 <= i < |s| => s[i].index)
  }

  /** `acc`, then the numbers of `more` not seen before, each once, in order. */
  function Extended(acc: seq<int>, more: seq<int>): seq<int> {
    if more == [] then acc
    else
      var e := Extended(acc, more[..|more| - 1]);
      if more[|more| - 1] in e then e else e + [more[|more| - 1]]
  }

  function Firsts(s: seq<Completion>): seq<int> { Extended([], Indices(s)) }

  /** The completions of one index, in order. */
  function Of(s: seq<Completion>, i: int): seq<Completion> {
    if s == [] then []
    else Of(s[..|s| - 1], i) + if s[|s| - 1].index == i then [s[|s| - 1]] else []
  }

  function Texts(cs: seq<Completion>): string { if cs == [] then "" else Texts(cs[..|cs| - 1]) + cs[|cs| - 1].text }

  function Tokens(cs: seq<Completion>): seq<int> { if cs == [] then [] else Tokens(cs[..|cs| - 1]) + cs[|cs| - 1].tokens }

  function Rows(cs: seq<Completion>): seq<L.Dict> {
    if cs == [] then [] else Rows(cs[..|cs| - 1]) + Entries(cs[|cs| - 1].logprobs)
  }

  /** All texts, tokens and logprobs in order, and the final state of the last one. */
  function Joined(cs: seq<Completion>): Completion
    requires cs != []
  {
    var last := cs[|cs| - 1];
    Completion(cs[0].index, Texts(cs), Tokens(cs), if cs[0].logprobs.None? then None else Some(Rows(cs)),
               last.cumulative, last.finish, last.stop)
  }

  /** A later part brings logprobs to a completion that started without. */
  ghost predicate Mismatch(s: seq<Completion>, k: nat) {
    k < |s| && Entries(s[k].logprobs) != [] && Of(s[..k], s[k].index) != [] && Of(s[..k], s[k].index)[0].logprobs.None?
  }

  ghost predicate Accepted(s: seq<Completion>) { forall k: nat :: k < |s| ==> !Mismatch(s, k) }

  lemma {:induction false} OfIndex(s: seq<Completion>, i: int)
    ensures forall k :: 0 <= k < |Of(s, i)| ==> Of(s, i)[k].index == i
    ensures Of(s, i) != [] <==> i in Indices(s)
  {
    if s != [] {
      OfIndex(s[..|s| - 1], i);
      assert Indices(s) == Indices(s[..|s| - 1]) + [s[|s| - 1].index];
    }
  }

  lemma {:induction false} ExtendedHas(acc: seq<int>, more: seq<int>)
    ensures forall i :: i in Extended(acc, more) <==> i in acc || i in more
  {
    if more != [] {
      ExtendedHas(acc, more[..|more| - 1]);
      assert more == more[..|more| - 1] + [more[|more| - 1]];
    }
  }

  lemma {:induction false} ExtendedDistinct(acc: seq<int>, more: seq<int>)
    requires Distinct(acc)
    ensures Distinct(Extended(acc, more))
  {
    if more != [] { ExtendedDistinct(acc, more[..|more| - 1]); }
  }

  lemma FirstsOf(s: seq<Completion>, i: int)
    ensures i in Firsts(s) <==> Of(s, i) != []
  {
    ExtendedHas([], Indices(s));
    OfIndex(s, i);
  }

  /** One joined completion per index, in order of first appearance. */
  function Whole(s: seq<Completion>): (r: seq<Completion>)
    ensures |r| == |Firsts(s)|
  {
    var firsts := Firsts(s);
    seq(|firsts|, k requires 0 <= k < |firsts| => (FirstsOf(s, firsts[k]); assert firsts[k] in firsts; Joined(Of(s, firsts[k]))))
  }

  lemma WholeIndices(s: seq<Completion>)
    ensures Indices(Whole(s)) == Firsts(s)
  {
    var firsts := Firsts(s);
    forall k | 0 <= k < |firsts| ensures Whole(s)[k].index == firsts[k] {
      assert firsts[k] in firsts;
      FirstsOf(s, firsts[k]);
      OfIndex(s, firsts[k]);
    }
  }

  lemma {:induction false} AddOneAbsent(outs: seq<Completion>, d: Completion)
    requires d.index !in Indices(outs)
    ensures AddOne(outs, d) == Some(outs + [d])
  {
    if outs != [] {
      assert outs[0].index == Indices(outs)[0];
      assert forall k :: 0 <= k < |outs| - 1 ==> Indices(outs[1..])[k] == Indices(outs)[k + 1];
      AddOneAbsent(outs[1..], d);
      assert [outs[0]] + (outs[1..] + [d]) == outs + [d];
    } else {
      assert outs + [d] == [d];
    }
  }

  lemma {:induction false} AddOneAt(outs: seq<Completion>, d: Completion, k: nat)
    requires k < |outs| && outs[k].index == d.index && forall j :: 0 <= j < k ==> outs[j].index != d.index
    ensures AddOne(outs, d) == match Merged(outs[k], d) case None => None case Some(m) => Some(outs[k := m])
  {
    if k == 0 {
      assert Merged(outs[0], d).Some? ==> [Merged(outs[0], d).value] + outs[1..] == outs[0 := Merged(outs[0], d).value];
    } else {
      AddOneAt(outs[1..], d, k - 1);
      match Merged(outs[k], d) {
        case None =>
        case Some(m) => assert [outs[0]] + outs[1..][k - 1 := m] == outs[k := m];
      }
    }
  }

  lemma JoinedSnoc(cs: seq<Completion>, d: Completion)
    requires cs != [] && cs[0].index == d.index
    ensures Merged(Joined(cs), d) ==
            if Entries(d.logprobs) != [] && cs[0].logprobs.None? then None else Some(Joined(cs + [d]))
  {
    assert (cs + [d])[..|cs|] == cs;
  }

  lemma FirstsSnoc(s: seq<Completion>, d: Completion)
    ensures Firsts(s + [d]) == if d.index in Firsts(s) then Firsts(s) else Firsts(s) + [d.index]
    ensures forall i :: Of(s + [d], i) == Of(s, i) + if d.index == i then [d] else []
  {
    var t := s + [d];
    assert t[..|s|] == s;
    assert Indices(t)[..|s|] == Indices(s);
  }

  lemma WholeOld(s: seq<Completion>, d: Completion, k: nat)
    requires k < |Firsts(s)| && Firsts(s)[k] == d.index && Of(s, d.index) != []
    ensures Whole(s + [d]) == Whole(s)[k := Joined(Of(s, d.index) + [d])]
  {
    FirstsSnoc(s, d);
    assert d.index in Firsts(s);
    ExtendedDistinct([], Indices(s));
    var firsts := Firsts(s);
    forall j | 0 <= j < |firsts| && j != k ensures Whole(s + [d])[j] == Whole(s)[j] {
      assert firsts[j] != d.index;
      assert Of(s + [d], firsts[j]) == Of(s, firsts[j]) + [] == Of(s, firsts[j]);
    }
    assert Of(s + [d], d.index) == Of(s, d.index) + [d];
  }

  lemma WholeNew(s: seq<Completion>, d: Completion)
    requires d.index !in Firsts(s)
    ensures Whole(s + [d]) == Whole(s) + [d]
  {
    FirstsSnoc(s, d);
    FirstsOf(s, d.index);
    JoinedOne(d);
    var firsts := Firsts(s);
    hide Firsts, Joined;
    forall j | 0 <= j < |firsts| ensures Whole(s + [d])[j] == Whole(s)[j] {
      assert firsts[j] in firsts;
      assert Of(s + [d], firsts[j]) == Of(s, firsts[j]);
    }
    assert Of(s + [d], d.index) == [d];
  }

  lemma JoinedOne(d: Completion)
    ensures Joined([d]) == d
  {
    var cs := [d];
    assert cs[..|cs| - 1] == [];
    assert Texts(cs) == [] + d.text == d.text;
    assert Tokens(cs) == [] + d.tokens == d.tokens;
    assert Rows(cs) == [] + Entries(d.logprobs) == Entries(d.logprobs);
  }

  lemma AcceptedSnoc(s: seq<Completion>, d: Completion)
    ensures Accepted(s + [d]) <==>
            && Accepted(s)
            && !(Entries(d.logprobs) != [] && Of(s, d.index) != [] && Of(s, d.index)[0].logprobs.None?)
  {
    var t := s + [d];
    assert t[..|s|] == s;
    assert forall k: nat :: k < |s| ==> t[k] == s[k] && t[..k] == s[..k];
    assert Mismatch(t, |s|) <==> Entries(d.logprobs) != [] && Of(s, d.index) != [] && Of(s, d.index)[0].logprobs.None?;
    assert forall k: nat :: k < |s| ==> (Mismatch(t, k) <==> Mismatch(s, k));
  }

  /**
   Folding a whole stream gives one completion per index, in order of first appearance, with its texts,
   tokens and logprobs joined in order; it raises if and only if a part brings logprobs to a completion
   that started without.
   */
  lemma {:induction false} StreamExact(s: seq<Completion>)
    ensures AddAll([], s) == if Accepted(s) then Some(Whole(s)) else None
  {
    if s == [] {
      assert Whole(s) == [];
    } else {
      var front, d := s[..|s| - 1], s[|s| - 1];
      assert s == front + [d];
      StreamExact(front);
      AcceptedSnoc(front, d);
      if Accepted(front) { StreamNext(front, d); }
    }
  }

  lemma StreamNext(s: seq<Completion>, d: Completion)
    requires Accepted(s)
    ensures AddOne(Whole(s), d) == if Accepted(s + [d]) then Some(Whole(s + [d])) else None
  {
    hide Whole, Firsts, Accepted, Joined, Merged, AddOne;
    AcceptedSnoc(s, d);
    WholeIndices(s);
    FirstsOf(s, d.index);
    OfIndex(s, d.index);
    if d.index in Firsts(s) {
      var k :| 0 <= k < |Firsts(s)| && Firsts(s)[k] == d.index;
      AtIndex(s, d, k);
      JoinedSnoc(Of(s, d.index), d);
      WholeOld(s, d, k);
    } else {
      AddOneAbsent(Whole(s), d);
      WholeNew(s, d);
    }
  }

  lemma AtIndex(s: seq<Completion>, d: Completion, k: nat)
    requires k < |Firsts(s)| && Firsts(s)[k] == d.index && Of(s, d.index) != []
    ensures AddOne(Whole(s), d) ==
            match Merged(Joined(Of(s, d.index)), d) case None => None case Some(m) => Some(Whole(s)[k := m])
  {
    WholeIndices(s);
    ExtendedDistinct([], Indices(s));
    assert forall j :: 0 <= j < |Whole(s)| ==> Whole(s)[j].index == Indices(Whole(s))[j];
    AddOneAt(Whole(s), d, k);
  }

  lemma {:induction false} PutOneAt(outs: seq<Completion>, d: Completion, k: nat)
    requires k < |outs| && outs[k].index == d.index && forall j :: 0 <= j < k ==> outs[j].index != d.index
    ensures PutOne(outs, d) == outs[k := d]
  {
    if k > 0 { PutOneAt(outs[1..], d, k - 1); }
  }

  lemma {:induction false} PutOneAbsent(outs: seq<Completion>, d: Completion)
    requires forall j :: 0 <= j < |outs| ==> outs[j].index != d.index
    ensures PutOne(outs, d) == outs + [d]
  {
    if outs != [] { PutOneAbsent(outs[1..], d); }
  }

  /** The newest completion of each index, in order of first appearance. */
  ghost predicate Newest(s: seq<Completion>, outs: seq<Completion>) {
    && Indices(outs) == Firsts(s)
    && forall k :: 0 <= k < |outs| ==> Of(s, outs[k].index) != [] && outs[k] == Of(s, outs[k].index)[|Of(s, outs[k].index)| - 1]
  }

  /** That is what a stream leaves without aggregation. */
  lemma {:induction false} NewestStays(s: seq<Completion>)
    ensures Newest(s, PutAll([], s))
  {
    if s != [] {
      var front, d := s[..|s| - 1], s[|s| - 1];
      assert s == front + [d];
      NewestStays(front);
      hide Newest;
      NewestNext(front, d, PutAll([], front));
    }
  }

  lemma NewestNext(s: seq<Completion>, d: Completion, outs: seq<Completion>)
    requires Newest(s, outs)
    ensures Newest(s + [d], PutOne(outs, d))
  {
    hide Firsts, PutOne, Of;
    FirstsSnoc(s, d);
    FirstsOf(s, d.index);
    FirstsDiffer(s);
    assert forall j :: 0 <= j < |outs| ==> outs[j].index == Indices(outs)[j];
    if d.index in Firsts(s) {
      var k :| 0 <= k < |Firsts(s)| && Firsts(s)[k] == d.index;
      PutOneAt(outs, d, k);
      assert Indices(outs[k := d]) == Indices(outs);
    } else {
      PutOneAbsent(outs, d);
      assert Indices(outs + [d]) == Indices(outs) + [d.index];
    }
  }

  lemma FirstsDiffer(s: seq<Completion>)
    ensures Distinct(Firsts(s))
  {
    ExtendedDistinct([], Indices(s));
  }

  // ---- Grouping does not matter ----

  lemma {:induction false} AddAllConcat(outs: seq<Completion>, x: seq<Completion>, y: seq<Completion>)
    ensures AddAll(outs, x + y) == match AddAll(outs, x) case None => None case Some(o) => AddAll(o, y)
  {
    if y == [] {
      assert x + y == x;
    } else {
      AddAllConcat(outs, x, y[..|y| - 1]);
      assert (x + y)[..|x + y| - 1] == x + y[..|y| - 1];
    }
  }

  lemma {:induction false} ExtendedConcat(acc: seq<int>, x: seq<int>, y: seq<int>)
    ensures Extended(acc, x + y) == Extended(Extended(acc, x), y)
  {
    if y == [] {
      assert x + y == x;
    } else {
      ExtendedConcat(acc, x, y[..|y| - 1]);
      assert (x + y)[..|x + y| - 1] == x + y[..|y| - 1];
    }
  }

  /** Extending by the distinct numbers is the same as extending by all of them. */
  lemma {:induction false} ExtendedTwice(acc: seq<int>, more: seq<int>)
    ensures Extended(acc, Extended([], more)) == Extended(acc, more)
  {
    if more != [] {
      var front, m := more[..|more| - 1], more[|more| - 1];
      ExtendedTwice(acc, front);
      ExtendedHas([], front);
      ExtendedHas(acc, front);
      var e := Extended([], front);
      assert (e + [m])[..|e|] == e;
    }
  }

  lemma {:induction false} OfConcat(x: seq<Completion>, y: seq<Completion>, i: int)
    ensures Of(x + y, i) == Of(x, i) + Of(y, i)
  {
    if y == [] {
      assert x + y == x;
    } else {
      OfConcat(x, y[..|y| - 1], i);
      assert (x + y)[..|x + y| - 1] == x + y[..|y| - 1];
    }
  }

  lemma {:induction false} OfDistinct(s: seq<Completion>, k: nat)
    requires Distinct(Indices(s)) && k < |s|
    ensures Of(s, s[k].index) == [s[k]]
  {
    var n := |s| - 1;
    assert Indices(s)[..n] == Indices(s[..n]);
    if k == n {
      OfIndex(s[..n], s[n].index);
      assert s[n].index == Indices(s)[n];
    } else {
      OfDistinct(s[..n], k);
      assert Indices(s)[k] != Indices(s)[n];
    }
  }

  lemma Associate<T>(x: seq<T>, y: seq<T>, z: seq<T>)
    ensures x + y + z == x + (y + z)
  {
  }

  lemma {:induction false} TextsConcat(x: seq<Completion>, y: seq<Completion>)
    ensures Texts(x + y) == Texts(x) + Texts(y)
  {
    if y == [] {
      assert x + y == x;
    } else {
      var z := x + y;
      TextsConcat(x, y[..|y| - 1]);
      assert z[..|z| - 1] == x + y[..|y| - 1] && z[|z| - 1] == y[|y| - 1];
      Associate(Texts(x), Texts(y[..|y| - 1]), y[|y| - 1].text);
    }
  }

  lemma {:induction false} TokensConcat(x: seq<Completion>, y: seq<Completion>)
    ensures Tokens(x + y) == Tokens(x) + Tokens(y)
  {
    if y == [] {
      assert x + y == x;
    } else {
      var z := x + y;
      TokensConcat(x, y[..|y| - 1]);
      assert z[..|z| - 1] == x + y[..|y| - 1] && z[|z| - 1] == y[|y| - 1];
      Associate(Tokens(x), Tokens(y[..|y| - 1]), y[|y| - 1].tokens);
    }
  }

  lemma {:induction false} RowsConcat(x: seq<Completion>, y: seq<Completion>)
    ensures Rows(x + y) == Rows(x) + Rows(y)
  {
    if y == [] {
      assert x + y == x;
    } else {
      var z := x + y;
      RowsConcat(x, y[..|y| - 1]);
      assert z[..|z| - 1] == x + y[..|y| - 1] && z[|z| - 1] == y[|y| - 1];
      Associate(Rows(x), Rows(y[..|y| - 1]), Entries(y[|y| - 1].logprobs));
    }
  }

  /** Joining a part that was joined before is joining its pieces. */
  lemma JoinedAgain(x: seq<Completion>, y: seq<Completion>)
    requires y != [] && (y[0].logprobs.None? ==> Rows(y) == [])
    requires x != [] ==> x[0].index == y[0].index
    ensures Joined(x + [Joined(y)]) == Joined(x + y)
  {
    var j := Joined(y);
    TextsConcat(x, y);
    TextsConcat(x, [j]);
    TokensConcat(x, y);
    TokensConcat(x, [j]);
    RowsConcat(x, y);
    RowsConcat(x, [j]);
    JoinedOne(j);
    assert Rows([j]) == Rows(y) by { assert [j][..0] == []; }
    assert Texts([j]) == Texts(y) && Tokens([j]) == Tokens(y);
  }

  lemma OfWhole(b: seq<Completion>, i: int)
    ensures Of(Whole(b), i) == if Of(b, i) == [] then [] else [Joined(Of(b, i))]
  {
    WholeIndices(b);
    FirstsOf(b, i);
    if i in Firsts(b) {
      var k :| 0 <= k < |Firsts(b)| && Firsts(b)[k] == i;
      ExtendedDistinct([], Indices(b));
      assert Whole(b)[k].index == Indices(Whole(b))[k];
      OfDistinct(Whole(b), k);
    } else {
      OfIndex(Whole(b), i);
    }
  }

  lemma FirstsRegroup(a: seq<Completion>, b: seq<Completion>)
    ensures Firsts(a + Whole(b)) == Firsts(a + b)
  {
    WholeIndices(b);
    assert Indices(a + Whole(b)) == Indices(a) + Firsts(b);
    assert Indices(a + b) == Indices(a) + Indices(b);
    ExtendedConcat([], Indices(a), Firsts(b));
    ExtendedConcat([], Indices(a), Indices(b));
    ExtendedTwice(Firsts(a), Indices(b));
  }

  /** An index that starts without logprobs brings none later. */
  ghost predicate Clean(cs: seq<Completion>) { cs != [] && cs[0].logprobs.None? ==> Rows(cs) == [] }

  lemma CleanSnoc(cs: seq<Completion>, d: Completion)
    ensures Clean(cs + [d]) <==>
            Clean(cs) && !(Entries(d.logprobs) != [] && cs != [] && cs[0].logprobs.None?)
  {
    var t := cs + [d];
    assert t[..|t| - 1] == cs;
    assert Rows(t) == Rows(cs) + Entries(d.logprobs);
    assert Rows([]) == [];
    hide Rows;
    EmptyConcat(Rows(cs), Entries(d.logprobs));
    assert cs != [] ==> t[0] == cs[0];
    assert cs == [] ==> t == [d];
  }

  lemma EmptyConcat<T>(x: seq<T>, y: seq<T>)
    ensures x + y == [] <==> x == [] && y == []
  {
    assert |x + y| == |x| + |y|;
  }

  ghost predicate CleanAt(s: seq<Completion>, i: int) { Clean(Of(s, i)) }

  ghost predicate AllClean(s: seq<Completion>) { forall i :: CleanAt(s, i) }

  lemma AllCleanSnoc(s: seq<Completion>, d: Completion)
    ensures AllClean(s + [d]) <==>
            AllClean(s) && !(Entries(d.logprobs) != [] && Of(s, d.index) != [] && Of(s, d.index)[0].logprobs.None?)
  {
    FirstsSnoc(s, d);
    CleanSnoc(Of(s, d.index), d);
    forall i | i != d.index ensures CleanAt(s + [d], i) == CleanAt(s, i) { assert Of(s, i) + [] == Of(s, i); }
    hide Clean;
    assert CleanAt(s + [d], d.index) <==> Clean(Of(s, d.index) + [d]);
    assert CleanAt(s, d.index) <==> Clean(Of(s, d.index));
    if AllClean(s + [d]) {
      forall i ensures CleanAt(s, i) { assert CleanAt(s + [d], i); }
    }
  }

  /** A stream is accepted if and only if each of its indices is clean. */
  lemma {:induction false} AcceptedIff(s: seq<Completion>)
    ensures Accepted(s) <==> AllClean(s)
  {
    if s == [] {
      assert forall i :: CleanAt(s, i);
    } else {
      var front, d := s[..|s| - 1], s[|s| - 1];
      assert s == front + [d];
      AcceptedIff(front);
      AcceptedSnoc(front, d);
      AllCleanSnoc(front, d);
    }
  }

  lemma WholeRegroup(a: seq<Completion>, b: seq<Completion>)
    requires Accepted(b)
    ensures Whole(a + Whole(b)) == Whole(a + b)
  {
    FirstsRegroup(a, b);
    AcceptedIff(b);
    var firsts := Firsts(a + b);
    forall k | 0 <= k < |firsts| ensures Whole(a + Whole(b))[k] == Whole(a + b)[k] {
      var i := firsts[k];
      assert i in firsts;
      FirstsOf(a + b, i);
      OfConcat(a, b, i);
      OfConcat(a, Whole(b), i);
      OfWhole(b, i);
      assert CleanAt(b, i);
      OfIndex(a, i);
      OfIndex(b, i);
      if Of(b, i) != [] { JoinedAgain(Of(a, i), Of(b, i)); }
    }
  }

  lemma CleanJoined(x: seq<Completion>, y: seq<Completion>)
    requires y != [] && Clean(y)
    ensures Clean(x + [Joined(y)]) <==> Clean(x + y)
  {
    var j := Joined(y);
    RowsConcat(x, y);
    RowsConcat(x, [j]);
    JoinedOne(j);
    assert Rows([j]) == Rows(y) by { assert [j][..0] == []; }
    assert (x + [j])[0].logprobs.None? == (x + y)[0].logprobs.None?;
  }

  /** Merging the second half first makes no difference to whether the stream is accepted. */
  lemma AcceptedRegroup(a: seq<Completion>, b: seq<Completion>)
    requires Accepted(b)
    ensures Accepted(a + Whole(b)) <==> Accepted(a + b)
  {
    AcceptedIff(b);
    AcceptedIff(a + b);
    AcceptedIff(a + Whole(b));
    forall i ensures CleanAt(a + Whole(b), i) <==> CleanAt(a + b, i) {
      OfConcat(a, b, i);
      OfConcat(a, Whole(b), i);
      OfWhole(b, i);
      assert CleanAt(b, i);
      if Of(b, i) != [] { CleanJoined(Of(a, i), Of(b, i)); }
    }
  }

  /**
   Merging is associative on accepted halves: adding an output that was itself merged gives what adding
   its parts one by one gives, or raises with it.
   */
  lemma Regroup(a: seq<Completion>, b: seq<Completion>)
    requires Accepted(a) && Accepted(b)
    ensures AddAll(Whole(a), Whole(b)) == AddAll(Whole(a), b) == if Accepted(a + b) then Some(Whole(a + b)) else None
  {
    hide AddAll, Whole, Accepted;
    StreamExact(a);
    StreamExact(a + b);
    StreamExact(a + Whole(b));
    AddAllConcat([], a, b);
    AddAllConcat([], a, Whole(b));
    WholeRegroup(a, b);
    AcceptedRegroup(a, b);
  }

  function Flattened(groups: seq<seq<Completion>>): seq<Completion> {
    if groups == [] then [] else Flattened(groups[..|groups| - 1]) + groups[|groups| - 1]
  }

  /** Merge each group by itself, then the groups in order. */
  function MergeGroups(groups: seq<seq<Completion>>): Option<seq<Completion>> {
    if groups == [] then Some([])
    else
      match (MergeGroups(groups[..|groups| - 1]), AddAll([], groups[|groups| - 1]))
      case (Some(o), Some(g)) => AddAll(o, g)
      case _ => None
  }

  ghost predicate AllAccepted(groups: seq<seq<Completion>>) {
    forall k :: 0 <= k < |groups| ==> Accepted(groups[k])
  }

  lemma {:induction false} AcceptedPrefix(a: seq<Completion>, b: seq<Completion>)
    requires Accepted(a + b)
    ensures Accepted(a)
  {
    if b == [] {
      assert a + b == a;
    } else {
      var front, d := b[..|b| - 1], b[|b| - 1];
      assert a + b == (a + front) + [d];
      AcceptedSnoc(a + front, d);
      AcceptedPrefix(a, front);
    }
  }

  lemma {:induction false} GroupsMerge(groups: seq<seq<Completion>>)
    requires AllAccepted(groups)
    ensures MergeGroups(groups) == if Accepted(Flattened(groups)) then Some(Whole(Flattened(groups))) else None
  {
    if groups == [] {
      StreamExact([]);
      assert Accepted([]);
    } else {
      var front, g := groups[..|groups| - 1], groups[|groups| - 1];
      assert groups[|groups| - 1] == g;
      GroupsMerge(front);
      StreamExact(g);
      hide Whole, AddAll;
      if Accepted(Flattened(front)) {
        Regroup(Flattened(front), g);
      } else if Accepted(Flattened(front) + g) {
        AcceptedPrefix(Flattened(front), g);
      }
    }
  }

  lemma {:induction false} GroupRaises(groups: seq<seq<Completion>>, k: nat)
    requires k < |groups| && !Accepted(groups[k])
    ensures MergeGroups(groups) == None
  {
    if k == |groups| - 1 {
      StreamExact(groups[k]);
    } else {
      GroupRaises(groups[..|groups| - 1], k);
    }
  }

  /**
   Merging in groups gives what merging the whole stream gives if and only if every group is accepted by
   itself, or the whole stream is not accepted either.
   */
  lemma GroupingIff(groups: seq<seq<Completion>>)
    ensures MergeGroups(groups) == AddAll([], Flattened(groups)) <==>
            AllAccepted(groups) || !Accepted(Flattened(groups))
  {
    hide MergeGroups, AddAll, Whole, Flattened, Accepted;
    StreamExact(Flattened(groups));
    if AllAccepted(groups) {
      GroupsMerge(groups);
    } else {
      var k :| 0 <= k < |groups| && !Accepted(groups[k]);
      GroupRaises(groups, k);
    }
  }

  // ---- Streams that agree on logprobs ----

  /** Completions of one index either all carry logprobs or all do not. */
  ghost predicate Uniform(s: seq<Completion>) {
    forall i, j :: 0 <= i < |s| && 0 <= j < |s| && s[i].index == s[j].index ==>
      s[i].logprobs.None? == s[j].logprobs.None?
  }

  lemma {:induction false} OfMembers(s: seq<Completion>, i: int)
    ensures forall k :: 0 <= k < |Of(s, i)| ==> Of(s, i)[k] in s && Of(s, i)[k].index == i
  {
    if s != [] { OfMembers(s[..|s| - 1], i); }
  }

  lemma UniformAccepted(s: seq<Completion>)
    requires Uniform(s)
    ensures Accepted(s)
  {
    forall k: nat | k < |s| ensures !Mismatch(s, k) {
      var before := Of(s[..k], s[k].index);
      OfMembers(s[..k], s[k].index);
      assert before != [] ==> before[0] in s[..k];
    }
  }

  lemma UniformParts(a: seq<Completion>, b: seq<Completion>)
    requires Uniform(a + b)
    ensures Uniform(a) && Uniform(b)
  {
    var s := a + b;
    assert forall i :: 0 <= i < |a| ==> s[i] == a[i];
    assert forall i :: 0 <= i < |b| ==> s[|a| + i] == b[i];
  }

  lemma {:induction false} UniformGroups(groups: seq<seq<Completion>>)
    requires Uniform(Flattened(groups))
    ensures AllAccepted(groups)
  {
    if groups != [] {
      var front, g := groups[..|groups| - 1], groups[|groups| - 1];
      UniformParts(Flattened(front), g);
      UniformGroups(front);
      UniformAccepted(g);
      forall k | 0 <= k < |groups| ensures Accepted(groups[k]) { assert k < |front| ==> groups[k] == front[k]; }
    }
  }

  /** In particular, how such a stream is cut into groups is irrelevant. */
  lemma GroupingIsIrrelevant(groups: seq<seq<Completion>>)
    requires Uniform(Flattened(groups))
    ensures MergeGroups(groups) == AddAll([], Flattened(groups)) == Some(Whole(Flattened(groups)))
  {
    hide MergeGroups, AddAll, Whole, Flattened, Uniform;
    UniformGroups(groups);
    UniformAccepted(Flattened(groups));
    GroupingIff(groups);
    StreamExact(Flattened(groups));
  }

  const PLAIN := Completion(0, "", [], None, None, None, None)
  const SCORED := Completion(0, "", [], Some([[]]), None, None, None)

  /** A stream whose result depends on the grouping: scores, none, scores. */
  lemma GroupingMatters()
    ensures AddAll([], [SCORED, PLAIN, SCORED]).Some? && MergeGroups([[SCORED], [PLAIN, SCORED]]) == None
  {
    var m := Merged(SCORED, PLAIN).value;
    var a, b := [SCORED], [PLAIN];
    AddOneOnly([], SCORED);
    AddOneOnly([SCORED], PLAIN);
    AddOneOnly([m], SCORED);
    AddOneOnly([], PLAIN);
    AddOneOnly([PLAIN], SCORED);
    AddAllConcat([], a, b);
    AddAllConcat([], a + b, a);
    AddAllConcat([], b, a);
    assert a + b + a == [SCORED, PLAIN, SCORED] && b + a == [PLAIN, SCORED];
    assert m.logprobs.Some? && m.index == 0;
    AddSame(SCORED, PLAIN);
    AddSame(m, SCORED);
    AddSame(PLAIN, SCORED);
    assert AddOne([], SCORED) == Some([SCORED]) && AddOne([], PLAIN) == Some([PLAIN]);
    hide AddAll, AddOne;
    var groups := [[SCORED], [PLAIN, SCORED]];
    assert groups[|groups| - 1] == b + a;
  }

  lemma AddSame(c: Completion, d: Completion)
    requires c.index == d.index
    ensures AddOne([c], d) == match Merged(c, d) case None => None case Some(m) => Some([m])
  {
    AddOneAt([c], d, 0);
    if Merged(c, d).Some? { assert [c][0 := Merged(c, d).value] == [Merged(c, d).value]; }
  }

  lemma AddOneOnly(outs: seq<Completion>, d: Completion)
    ensures AddAll(outs, [d]) == AddOne(outs, d)
  {
    var ds := [d];
    assert ds[..|ds| - 1] == [];
  }
}
