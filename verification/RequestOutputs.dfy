/** Request outputs whose completions are shared, mutable objects. */
module RequestOutputs {
  import opened Wrappers
  import opened Outputs
  import L = Logprobs

  class CompletionOutput {
    const index: int
    var text: string
    var tokens: seq<int>
    var logprobs: Option<seq<L.Dict>>
    var cumulative: Option<real>
    var finish: Option<string>
    var stop: Option<string>

    constructor (c: Completion)
      ensures View() == c
    {
      index, text, tokens, logprobs := c.index, c.text, c.tokens, c.logprobs;
      cumulative, finish, stop := c.cumulative, c.finish, c.stop;
    }

    ghost function View(): Completion
      reads this
    {
      Completion(index, text, tokens, logprobs, cumulative, finish, stop)
    }

    /** Extend in place by the next part, itself included; fails where logprobs have nothing to extend. */
    method Absorb(next: CompletionOutput) returns (ok: bool)
      modifies this
      ensures ok == Merged(old(View()), old(next.View())).Some?
      ensures ok ==> View() == Merged(old(View()), old(next.View())).value
    {
      text := text + next.text;
      tokens := tokens + next.tokens;
      if next.logprobs.Some? && next.logprobs.value != [] {
        if logprobs.None? { return false; }
        logprobs := Some(logprobs.value + next.logprobs.value);
      } else if logprobs.Some? {
        assert logprobs.value + [] == logprobs.value;
      }
      cumulative, finish, stop := next.cumulative, next.finish, next.stop;
      return true;
    }
  }

  ghost function Views(objs: seq<CompletionOutput>): (r: seq<Completion>)
    reads objs
    ensures |r| == |objs|
  {
    seq(|objs|, i requires 0 <= i < |objs| reads objs => objs[i].View())
  }

  ghost function Objects(objs: seq<CompletionOutput>): set<CompletionOutput> { set o | o in objs }

  // ---- Outputs that may share completions ----

  /** What the objects hold, and which of them are the outputs, in order. */
  datatype Store = Store(vals: map<CompletionOutput, Completion>, outs: seq<CompletionOutput>)

  ghost function Snap(objs: set<CompletionOutput>): (m: map<CompletionOutput, Completion>)
    reads objs
    ensures m.Keys == objs
  {
    map o | o in objs :: o.View()
  }

  ghost predicate Known(s: Store, nexts: seq<CompletionOutput>) {
    (forall o :: o in s.outs ==> o in s.vals) && (forall o :: o in nexts ==> o in s.vals)
  }

  /** The first output with the index of `c`, or the number of outputs. */
  ghost function Place(outs: seq<CompletionOutput>, c: CompletionOutput): (i: nat)
    ensures i <= |outs| && (i < |outs| ==> outs[i].index == c.index)
    ensures forall j :: 0 <= j < i ==> outs[j].index != c.index
  {
    if outs == [] || outs[0].index == c.index then 0 else 1 + Place(outs[1..], c)
  }

  /** Merge or place one completion, as it is at that moment. */
  ghost function TakeOn(s: Store, c: CompletionOutput, aggregate: bool): Option<Store>
    requires Known(s, [c])
  {
    assert c in [c];
    var i := Place(s.outs, c);
    if i == |s.outs| then Some(s.(outs := s.outs + [c]))
    else if !aggregate then Some(s.(outs := s.outs[i := c]))
    else match Merged(s.vals[s.outs[i]], s.vals[c])
      case None => None
      case Some(m) => Some(s.(vals := s.vals[s.outs[i] := m]))
  }

  ghost function AddOn(s: Store, nexts: seq<CompletionOutput>, k: nat, aggregate: bool): (r: Option<Store>)
    requires Known(s, nexts) && k <= |nexts|
    ensures r.Some? ==> Known(r.value, nexts)
  {
    if k == 0 then Some(s)
    else match AddOn(s, nexts, k - 1, aggregate)
      case None => None
      case Some(mid) => TakeOn(mid, nexts[k - 1], aggregate)
  }

  lemma {:induction false} AddOnStops(s: Store, nexts: seq<CompletionOutput>, j: nat, k: nat, aggregate: bool)
    requires Known(s, nexts) && j <= k <= |nexts| && AddOn(s, nexts, j, aggregate) == None
    ensures AddOn(s, nexts, k, aggregate) == None
  {
    if j < k { AddOnStops(s, nexts, j, k - 1, aggregate); }
  }

  class RequestOutput {
    var outputs: seq<CompletionOutput>
    var finished: bool
    var kvTransfer: Option<int>

    constructor (outputs: seq<CompletionOutput>, finished: bool, kvTransfer: Option<int>)
      ensures this.outputs == outputs && this.finished == finished && this.kvTransfer == kvTransfer
    {
      this.outputs, this.finished, this.kvTransfer := outputs, finished, kvTransfer;
    }

    /** Merge or place one completion; one with a new index is kept as the same object. */
    method Take(c: CompletionOutput, aggregate: bool, ghost all: set<CompletionOutput>) returns (ok: bool)
      requires Objects(outputs) + {c} <= all
      modifies this`outputs, Objects(outputs)
      ensures Objects(outputs) <= all && (!ok ==> outputs == old(outputs))
      ensures var r := TakeOn(Store(old(Snap(all)), old(outputs)), c, aggregate);
              ok == r.Some? && (ok ==> Store(Snap(all), outputs) == r.value)
    {
      ghost var before, olds := Snap(all), outputs;
      for i := 0 to |outputs|
        invariant outputs == olds && Snap(all) == before
        invariant forall j :: 0 <= j < i ==> outputs[j].index != c.index
      {
        if outputs[i].index == c.index {
          assert Place(olds, c) == i;
          if aggregate {
            ok := outputs[i].Absorb(c);
            if ok { assert Snap(all) == before[olds[i] := olds[i].View()]; }
            return;
          } else {
            outputs := outputs[i := c];
            assert Snap(all) == before;
            return true;
          }
        }
      }
      assert Place(olds, c) == |olds|;
      outputs := outputs + [c];
      assert Snap(all) == before;
      return true;
    }

    /** Take the completions in order; a failure stops after some of them. */
    method TakeAll(nexts: seq<CompletionOutput>, aggregate: bool, ghost all: set<CompletionOutput>) returns (ok: bool)
      requires Objects(outputs) + Objects(nexts) <= all
      modifies this`outputs, all
      ensures Objects(outputs) <= all
      ensures Reached(Store(old(Snap(all)), old(outputs)), nexts, aggregate, ok, Store(Snap(all), outputs))
    {
      hide TakeOn;
      ghost var s := Store(Snap(all), outputs);
      for k := 0 to |nexts|
        invariant Objects(outputs) <= all && AddOn(s, nexts, k, aggregate) == Some(Store(Snap(all), outputs))
      {
        ok := Take(nexts[k], aggregate, all);
        if !ok {
          AddOnStops(s, nexts, k + 1, |nexts|, aggregate);
          return;
        }
      }
      return true;
    }

    /**
     Merge the next output into this one, whatever completions the two share. Completions with a new
     index are shared with the next output from then on, so later merges change them there too.
     */
    method Add(next: RequestOutput, aggregate: bool) returns (ok: bool)
      modifies this, Objects(outputs), Objects(next.outputs)
      ensures finished == (old(finished) || old(next.finished)) && kvTransfer == old(next.kvTransfer)
      ensures forall o :: o in outputs ==> o in old(outputs) || o in old(next.outputs)
      ensures var all := old(Objects(outputs) + Objects(next.outputs));
              Reached(Store(old(Snap(all)), old(outputs)), old(next.outputs), aggregate, ok, Store(Snap(all), outputs))
      ensures old(Distinct(outputs + next.outputs)) ==>
                && Distinct(outputs)
                && MergesAs(old(Views(outputs)), old(Views(next.outputs)), aggregate, ok, Views(outputs))
    {
      hide *;
      var nexts := next.outputs;
      ghost var all := Objects(outputs) + Objects(nexts);
      ghost var start := Store(Snap(all), outputs);
      SnapIs(all, outputs);
      SnapIs(all, nexts);
      AllKnown(start, nexts, all);
      finished := finished || next.finished;
      kvTransfer := next.kvTransfer;
      ok := TakeAll(nexts, aggregate, all);
      SnapIs(all, outputs);
      if Distinct(start.outs + nexts) {
        UnsharedExact(start, nexts, aggregate, ok, Store(Snap(all), outputs));
      }
    }
  }

  /** Either all parts were taken, or taking one failed and the outputs are those before it. */
  ghost predicate Reached(s: Store, nexts: seq<CompletionOutput>, aggregate: bool, ok: bool, end: Store) {
    && Known(s, nexts)
    && ok == AddOn(s, nexts, |nexts|, aggregate).Some?
    && (ok ==> AddOn(s, nexts, |nexts|, aggregate).value == end)
    && exists k: nat :: k <= |nexts| && AddOn(s, nexts, k, aggregate).Some? && AddOn(s, nexts, k, aggregate).value.outs == end.outs
  }

  /** The merge of the values, or replacement by the later ones; merging fails exactly where it raises. */
  ghost predicate MergesAs(outs: seq<Completion>, parts: seq<Completion>, aggregate: bool, ok: bool, after: seq<Completion>) {
    if aggregate then ok == AddAll(outs, parts).Some? && (ok ==> Some(after) == AddAll(outs, parts))
    else ok && after == PutAll(outs, parts)
  }

  /** The values of the given objects. */
  ghost function Held(vals: map<CompletionOutput, Completion>, objs: seq<CompletionOutput>): (r: seq<Completion>)
    requires forall o :: o in objs ==> o in vals
    ensures |r| == |objs|
  {
    seq(|objs|, i requires 0 <= i < |objs| => vals[objs[i]])
  }

  lemma SnapIs(all: set<CompletionOutput>, objs: seq<CompletionOutput>)
    requires Objects(objs) <= all
    ensures forall o :: o in objs ==> o in all && o in Snap(all)
    ensures Held(Snap(all), objs) == Views(objs) && Labelled(Snap(all))
  {
    assert forall o :: o in objs ==> o in Objects(objs);
  }

  lemma AllKnown(s: Store, nexts: seq<CompletionOutput>, all: set<CompletionOutput>)
    requires s.vals.Keys == all == Objects(s.outs) + Objects(nexts)
    ensures Known(s, nexts) && forall o :: o in all ==> o in s.outs || o in nexts
  {
  }

  ghost predicate Labelled(vals: map<CompletionOutput, Completion>) { forall o :: o in vals ==> vals[o].index == o.index }

  /** After `k` parts: all outputs differ, come from the two lists, and the parts still to come are untouched. */
  ghost predicate Untouched(s: Store, mid: Store, nexts: seq<CompletionOutput>, k: nat)
    requires k <= |nexts|
  {
    && Known(s, nexts) && Known(mid, nexts) && Distinct(mid.outs) && Labelled(mid.vals)
    && (forall j :: k <= j < |nexts| ==> nexts[j] !in mid.outs && mid.vals[nexts[j]] == s.vals[nexts[j]])
  }

  lemma {:induction false} UnsharedAt(s: Store, nexts: seq<CompletionOutput>, k: nat, aggregate: bool)
    requires Known(s, nexts) && Labelled(s.vals) && Distinct(s.outs + nexts) && k <= |nexts|
    ensures var r, parts := AddOn(s, nexts, k, aggregate), Held(s.vals, nexts);
            && (r.Some? ==> Untouched(s, r.value, nexts, k))
            && (aggregate ==> (if r.Some? then Some(Held(r.value.vals, r.value.outs)) else None) ==
                              AddAll(Held(s.vals, s.outs), parts[..k]))
            && (!aggregate ==> r.Some? && Held(r.value.vals, r.value.outs) == PutAll(Held(s.vals, s.outs), parts[..k]))
  {
    var parts := Held(s.vals, nexts);
    hide AddAll, PutAll, TakeOn, AddOne, PutOne;
    if k == 0 {
      FoldStart(Held(s.vals, s.outs));
      DifferentParts(s.outs, nexts);
    } else {
      UnsharedAt(s, nexts, k - 1, aggregate);
      FoldNext(Held(s.vals, s.outs), parts, k - 1);
      DifferentParts(s.outs, nexts);
      var mid := AddOn(s, nexts, k - 1, aggregate);
      if mid.Some? { TakeUnshared(s, mid.value, nexts, k - 1, aggregate); }
    }
  }

  lemma TakeUnshared(s: Store, mid: Store, nexts: seq<CompletionOutput>, k: nat, aggregate: bool)
    requires k < |nexts| && Untouched(s, mid, nexts, k) && Distinct(nexts)
    ensures var r, c, outs := TakeOn(mid, nexts[k], aggregate), s.vals[nexts[k]], Held(mid.vals, mid.outs);
            && (r.Some? ==> Untouched(s, r.value, nexts, k + 1))
            && (aggregate ==> (if r.Some? then Some(Held(r.value.vals, r.value.outs)) else None) == AddOne(outs, c))
            && (!aggregate ==> r.Some? && Held(r.value.vals, r.value.outs) == PutOne(outs, c))
  {
    hide Merged, AddOne, PutOne;
    var c, outs := nexts[k], Held(mid.vals, mid.outs);
    var i := Place(mid.outs, c);
    assert mid.vals[c].index == c.index;
    assert forall j :: 0 <= j < |outs| ==> outs[j].index == mid.outs[j].index;
    if i == |outs| {
      AddOneAbsent(outs, mid.vals[c]);
      PutOneAbsent(outs, mid.vals[c]);
      assert Held(mid.vals, mid.outs + [c]) == outs + [mid.vals[c]];
    } else {
      AddOneAt(outs, mid.vals[c], i);
      PutOneAt(outs, mid.vals[c], i);
      if !aggregate {
        assert Held(mid.vals, mid.outs[i := c]) == outs[i := mid.vals[c]];
      } else if Merged(outs[i], mid.vals[c]).Some? {
        var m := Merged(outs[i], mid.vals[c]).value;
        MergedIndex(outs[i], mid.vals[c]);
        assert Held(mid.vals[mid.outs[i] := m], mid.outs) == outs[i := m];
      }
    }
  }

  lemma MergedIndex(a: Completion, b: Completion)
    ensures Merged(a, b).Some? ==> Merged(a, b).value.index == a.index
  {
  }

  /** Without sharing, this is the merge of the values. */
  lemma UnsharedExact(s: Store, nexts: seq<CompletionOutput>, aggregate: bool, ok: bool, end: Store)
    requires Reached(s, nexts, aggregate, ok, end) && Labelled(s.vals) && Distinct(s.outs + nexts)
    requires forall o :: o in end.outs ==> o in end.vals
    ensures Distinct(end.outs)
    ensures MergesAs(Held(s.vals, s.outs), Held(s.vals, nexts), aggregate, ok, Held(end.vals, end.outs))
  {
    hide AddAll, PutAll, AddOn;
    var parts := Held(s.vals, nexts);
    UnsharedAt(s, nexts, |nexts|, aggregate);
    assert parts[..|nexts|] == parts;
    var k: nat :| k <= |nexts| && AddOn(s, nexts, k, aggregate).Some? && AddOn(s, nexts, k, aggregate).value.outs == end.outs;
    UnsharedAt(s, nexts, k, aggregate);
  }

  ghost predicate OneEach(outs: seq<CompletionOutput>) {
    forall i, j :: 0 <= i < j < |outs| ==> outs[i].index != outs[j].index
  }

  ghost predicate Doubled(s: Store, end: Store, k: nat)
    requires Known(s, s.outs) && k <= |s.outs|
  {
    && Known(end, s.outs) && end.outs == s.outs
    && (forall i :: 0 <= i < k ==> Some(end.vals[s.outs[i]]) == Merged(s.vals[s.outs[i]], s.vals[s.outs[i]]))
    && (forall i :: k <= i < |s.outs| ==> end.vals[s.outs[i]] == s.vals[s.outs[i]])
  }

  /** Merged into itself, an output with one completion per index repeats each of them. */
  lemma {:induction false} SelfMergeDoubles(s: Store, k: nat)
    requires Known(s, s.outs) && OneEach(s.outs) && k <= |s.outs|
    ensures var r := AddOn(s, s.outs, k, true);
            r.Some? && Doubled(s, r.value, k)
  {
    hide TakeOn, Merged, Place;
    if k > 0 {
      SelfMergeDoubles(s, k - 1);
      DoubleNext(s, AddOn(s, s.outs, k - 1, true).value, k - 1);
    }
  }

  lemma DoubleNext(s: Store, mid: Store, k: nat)
    requires Known(s, s.outs) && OneEach(s.outs) && k < |s.outs| && Doubled(s, mid, k)
    ensures var r := TakeOn(mid, s.outs[k], true);
            r.Some? && Doubled(s, r.value, k + 1)
  {
    hide Merged;
    SelfMerges(s.vals[s.outs[k]]);
    assert Place(s.outs, s.outs[k]) == k;
    assert forall i :: 0 <= i < |s.outs| && i != k ==> s.outs[i] != s.outs[k];
  }

  lemma SelfMerges(c: Completion)
    ensures Merged(c, c).Some?
  {
  }

  lemma DifferentParts(a: seq<CompletionOutput>, b: seq<CompletionOutput>)
    requires Distinct(a + b)
    ensures Distinct(a) && Distinct(b)
    ensures forall j :: 0 <= j < |b| ==> b[j] !in a
  {
    var s := a + b;
    forall i, j | 0 <= i < j < |a| ensures a[i] != a[j] { assert s[i] != s[j]; }
    forall i, j | 0 <= i < j < |b| ensures b[i] != b[j] { assert s[|a| + i] != s[|a| + j]; }
    forall i, j | 0 <= i < |a| && 0 <= j < |b| ensures a[i] != b[j] { assert s[i] != s[|a| + j]; }
  }

  lemma FoldStart(outs: seq<Completion>)
    ensures AddAll(outs, []) == Some(outs) && PutAll(outs, []) == outs
  {
  }

  lemma FoldNext(outs: seq<Completion>, ds: seq<Completion>, k: nat)
    requires k < |ds|
    ensures AddAll(outs, ds[..k + 1]) == match AddAll(outs, ds[..k]) case None => None case Some(o) => AddOne(o, ds[k])
    ensures PutAll(outs, ds[..k + 1]) == PutOne(PutAll(outs, ds[..k]), ds[k])
  {
    assert ds[..k + 1][..k] == ds[..k];
  }
}
