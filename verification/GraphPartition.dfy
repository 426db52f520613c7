/**
 Signatures of graph partitions. A backward pass over the partitions decides which buffers each one
 takes in, frees and hands on. Here the signatures are computed as the pass does, the partitions are
 run forward with nothing but what the signatures declare, and the two are related.

 Ordered sets are modelled as sets: the order of inputs and outputs within one signature is not used.
 */
module GraphPartition {
  import opened Wrappers

  type Name = string

  datatype Node = Node(outputs: set<Name>, readNames: set<Name>, writtenNames: set<Name>, lastUsage: set<Name>)

  datatype Buf = Buf(noneLayout: bool, mutationOutput: bool)

  /** `nodes` are the keys of the name-to-node table; `inputs` are the buffers present at the start. */
  datatype Graph = Graph(
    inputs: set<Name>, outputs: set<Name>, nodes: set<Name>, constants: set<Name>,
    bufs: map<Name, Buf>, realName: map<Name, Name>)

  type Partition = seq<Node>

  datatype Signature = Signature(inputs: set<Name>, outputs: set<Name>, dealloc: map<Name, bool>, constants: set<Name>)

  // ------------------------------------------------- buffers without memory

  /** The buffer a mutation output stands for, when the layout test has to look further. */
  function Next(g: Graph, n: Name): Option<Name> {
    if n in g.bufs && g.bufs[n].noneLayout && g.bufs[n].mutationOutput && n in g.realName && g.realName[n] != ""
    then Some(g.realName[n]) else None
  }

  /** The recursive layout test. `None` means that it came back to a name it had seen and would not return. */
  function Chase(g: Graph, n: Name, seen: set<Name>): Option<bool>
    decreases g.realName.Keys - seen
  {
    if n !in g.bufs || !g.bufs[n].noneLayout then Some(false)
    else if Next(g, n).None? then Some(true)
    else if n in seen then None
    else Chase(g, g.realName[n], seen + {n})
  }

  predicate IsNone(g: Graph, n: Name) { Chase(g, n, {}) == Some(true) }

  /** Follow `Next` k times. */
  ghost function Hop(g: Graph, n: Name, k: nat): Option<Name>
    decreases k
  {
    if k == 0 then Some(n)
    else if Next(g, n).None? then None
    else Hop(g, Next(g, n).value, k - 1)
  }

  ghost predicate Reaches(g: Graph, n: Name, m: Name) { exists k :: k > 0 && Hop(g, n, k) == Some(m) }

  ghost predicate OnCycle(g: Graph, n: Name) { Reaches(g, n, n) }

  ghost predicate Terminates(g: Graph) { forall n :: Chase(g, n, {}).Some? }

  lemma {:induction false} HopMore(g: Graph, n: Name, k: nat)
    ensures Hop(g, n, k + 1) == if Hop(g, n, k).Some? then Next(g, Hop(g, n, k).value) else None
    decreases k
  {
    if k == 0 {
      assert Hop(g, n, 1) == if Next(g, n).None? then None else Hop(g, Next(g, n).value, 0);
    } else if Next(g, n).Some? {
      HopMore(g, Next(g, n).value, k - 1);
    }
  }

  lemma {:induction false} HopAdd(g: Graph, n: Name, j: nat, k: nat)
    requires Hop(g, n, j).Some?
    ensures Hop(g, n, j + k) == Hop(g, Hop(g, n, j).value, k)
    decreases j
  {
    if j > 0 { HopAdd(g, Next(g, n).value, j - 1, k); }
  }

  /** A test that returns has reached the end of its chain. */
  lemma {:induction false} ChaseEnds(g: Graph, n: Name, seen: set<Name>) returns (k: nat)
    requires Chase(g, n, seen).Some?
    ensures Hop(g, n, k).Some? && Next(g, Hop(g, n, k).value).None?
    decreases g.realName.Keys - seen
  {
    k := 0;
    if Next(g, n).Some? {
      k := ChaseEnds(g, g.realName[n], seen + {n});
      k := k + 1;
    }
  }

  lemma {:induction false} CycleNeverEnds(g: Graph, n: Name, p: nat, k: nat)
    requires p > 0 && Hop(g, n, p) == Some(n)
    ensures Hop(g, n, k).Some? && Next(g, Hop(g, n, k).value).Some?
    decreases k
  {
    if k < p {
      HopPrefix(g, n, k, p);
    } else {
      CycleNeverEnds(g, n, p, k - p);
      HopAdd(g, n, p, k - p);
    }
  }

  lemma {:induction false} HopPrefix(g: Graph, n: Name, k: nat, p: nat)
    requires k < p && Hop(g, n, p).Some?
    ensures Hop(g, n, k).Some? && Next(g, Hop(g, n, k).value).Some?
    decreases p - k
  {
    if k + 1 < p { HopPrefix(g, n, k + 1, p); }
    HopMore(g, n, k);
  }

  /** A test that does not return has found a cycle. */
  lemma {:induction false} ChaseLoops(g: Graph, n: Name, seen: set<Name>) returns (m: Name)
    requires Chase(g, n, seen).None?
    requires forall s :: s in seen ==> Reaches(g, s, n)
    ensures OnCycle(g, m)
    decreases g.realName.Keys - seen
  {
    if n in seen { return n; }
    var n' := g.realName[n];
    forall s | s in seen + {n} ensures Reaches(g, s, n') {
      var j := 0;
      if s in seen { j :| j > 0 && Hop(g, s, j) == Some(n); }
      HopMore(g, s, j);
      assert j + 1 > 0 && Hop(g, s, j + 1) == Some(n');
    }
    m := ChaseLoops(g, n', seen + {n});
  }

  /** The layout test returns on every name if and only if no chain of renamings runs in a circle. */
  lemma TerminatesIff(g: Graph)
    ensures Terminates(g) <==> forall n :: !OnCycle(g, n)
  {
    if Terminates(g) {
      forall n ensures !OnCycle(g, n) {
        if OnCycle(g, n) {
          var p :| p > 0 && Hop(g, n, p) == Some(n);
          assert Chase(g, n, {}).Some?;
          var k := ChaseEnds(g, n, {});
          CycleNeverEnds(g, n, p, k);
        }
      }
    } else {
      var n :| Chase(g, n, {}).None?;
      var m := ChaseLoops(g, n, {});
    }
  }

  /** A chain of renamings from `n`, read off the tables, whose last name has no layout and no further renaming. */
  ghost predicate EndsWithoutMemory(g: Graph, n: Name, chain: seq<Name>) {
    && chain != [] && chain[0] == n
    && (forall k :: 0 <= k < |chain| ==> chain[k] in g.bufs && g.bufs[chain[k]].noneLayout)
    && (forall k, m :: 0 <= k < m < |chain| && m == k + 1 ==> Renamed(g, chain[k], chain[m]))
    && Final(g, chain[|chain| - 1])
  }

  ghost predicate Final(g: Graph, n: Name) { forall m :: !Renamed(g, n, m) }

  /** `n` is a mutation output and the table gives it the other name. */
  ghost predicate Renamed(g: Graph, n: Name, m: Name) {
    n in g.bufs && g.bufs[n].mutationOutput && n in g.realName && g.realName[n] == m && m != ""
  }

  lemma {:induction false} ChaseChain(g: Graph, n: Name, seen: set<Name>) returns (chain: seq<Name>)
    requires Chase(g, n, seen) == Some(true)
    ensures EndsWithoutMemory(g, n, chain)
    decreases g.realName.Keys - seen
  {
    chain := [n];
    if Next(g, n).Some? {
      var rest := ChaseChain(g, g.realName[n], seen + {n});
      chain := chain + rest;
      assert Renamed(g, n, rest[0]);
      assert chain[|chain| - 1] == rest[|rest| - 1];
    } else {
      assert Final(g, n);
    }
  }

  lemma {:induction false} ChainChase(g: Graph, n: Name, seen: set<Name>, chain: seq<Name>)
    requires EndsWithoutMemory(g, n, chain) && Chase(g, n, seen).Some?
    ensures Chase(g, n, seen) == Some(true)
    decreases g.realName.Keys - seen
  {
    if Next(g, n).Some? {
      assert Renamed(g, n, g.realName[n]);
      assert Renamed(g, n, chain[1]);
      assert chain[1..][|chain| - 2] == chain[|chain| - 1];
      var rest := chain[1..];
      forall k, m | 0 <= k < m < |rest| && m == k + 1 ensures Renamed(g, rest[k], rest[m]) {
        assert Renamed(g, chain[k + 1], chain[m + 1]);
      }
      ChainChase(g, chain[1], seen + {n}, chain[1..]);
    }
  }

  /** A buffer is without memory exactly when a chain of renamings leads from it to one without a layout. */
  lemma IsNoneIff(g: Graph, n: Name)
    requires Chase(g, n, {}).Some?
    ensures IsNone(g, n) <==> exists chain :: EndsWithoutMemory(g, n, chain)
  {
    if IsNone(g, n) {
      var chain := ChaseChain(g, n, {});
    }
    if exists chain :: EndsWithoutMemory(g, n, chain) {
      var chain :| EndsWithoutMemory(g, n, chain);
      ChainChase(g, n, {}, chain);
    }
  }

  // ------------------------------------------------------------ what the nodes of a partition do

  ghost predicate Made(p: Partition, x: Name) { exists k :: 0 <= k < |p| && x in p[k].outputs }

  ghost predicate Touched(p: Partition, x: Name) {
    exists k :: 0 <= k < |p| && (x in p[k].readNames || x in p[k].writtenNames)
  }

  ghost predicate Freed(p: Partition, x: Name) { exists k :: 0 <= k < |p| && x in p[k].lastUsage }

  /** The table gives `x` the real name `n`, or has nothing to say about it. */
  ghost predicate StandsFor(g: Graph, x: Name, n: Name) {
    if x in g.realName then g.realName[x] == n else x == n
  }

  /** A node touches, under some name that has memory, or frees, buffer `n`, which no node of the partition makes. */
  ghost predicate Asks(g: Graph, p: Partition, n: Name) {
    || (exists x :: Touched(p, x) && !IsNone(g, x) && !Made(p, x) && StandsFor(g, x, n))
    || (Freed(p, n) && !Made(p, n) && n in g.nodes)
  }

  /** Returned: made here and wanted, or handed in and not freed. */
  ghost predicate Returns(g: Graph, p: Partition, wanted: set<Name>, n: Name) {
    exists x :: StandsFor(g, x, n) && ((Made(p, x) && x in wanted) || (x in g.nodes && Asks(g, p, x) && !Freed(p, x)))
  }

  // ------------------------------------------------------------ one partition

  function Outs(p: Partition): set<Name> { if p == [] then {} else p[0].outputs + Outs(p[1..]) }

  function Uses(p: Partition): set<Name> { if p == [] then {} else p[0].readNames + p[0].writtenNames + Uses(p[1..]) }

  function Frees(p: Partition): set<Name> { if p == [] then {} else p[0].lastUsage + Frees(p[1..]) }

  function Real(g: Graph, n: Name): Name { if n in g.realName then g.realName[n] else n }

  /** What the partition touches or frees but does not produce, under real names. */
  function InputNames(g: Graph, p: Partition): set<Name> {
    (set x | x in Uses(p) && !IsNone(g, x) && x !in Outs(p) :: Real(g, x))
    + (set x | x in Frees(p) && x !in Outs(p) && x in g.nodes)
  }

  function Inputs(g: Graph, p: Partition): set<Name> { InputNames(g, p) * g.nodes }

  /** Its own outputs that are wanted later, and the inputs it does not free, under real names. */
  function Returned(g: Graph, p: Partition, unmet: set<Name>): set<Name> {
    set x | x in Outs(p) * unmet + (Inputs(g, p) - Frees(p)) :: Real(g, x)
  }

  function OutputNames(g: Graph, p: Partition, unmet: set<Name>): set<Name> {
    set x | x in Returned(g, p, unmet) && !IsNone(g, x)
  }

  /** `None` when an output has no node to name it, where the source raises a KeyError. */
  function SignatureOf(g: Graph, p: Partition, unmet: set<Name>): Option<Signature> {
    if OutputNames(g, p, unmet) <= g.nodes then
      Some(Signature(Inputs(g, p), OutputNames(g, p, unmet), map n | n in Inputs(g, p) :: n in Frees(p),
                     InputNames(g, p) * g.constants))
    else None
  }

  function Unmet(g: Graph, p: Partition, unmet: set<Name>): set<Name> {
    InputNames(g, p) + (unmet - Returned(g, p, unmet))
  }

  /** The names still wanted just before partition `i` runs. */
  function UnmetAt(g: Graph, ps: seq<Partition>, i: nat): set<Name>
    requires i <= |ps|
    decreases |ps| - i
  {
    if i == |ps| then g.outputs else Unmet(g, ps[i], UnmetAt(g, ps, i + 1))
  }

  function SignatureAt(g: Graph, ps: seq<Partition>, i: nat): Option<Signature>
    requires i < |ps|
  {
    SignatureOf(g, ps[i], UnmetAt(g, ps, i + 1))
  }

  // ------------------------------------------------------------ what a signature says

  lemma {:induction false} NamesIff(p: Partition, x: Name)
    ensures (x in Outs(p) <==> Made(p, x)) && (x in Uses(p) <==> Touched(p, x)) && (x in Frees(p) <==> Freed(p, x))
  {
    if p != [] {
      NamesIff(p[1..], x);
      assert forall k :: 0 < k < |p| ==> p[k] == p[1..][k - 1];
      assert forall k :: 0 <= k < |p| - 1 ==> p[1..][k] == p[k + 1];
    }
  }

  lemma InputNamesIff(g: Graph, p: Partition, n: Name)
    ensures n in InputNames(g, p) <==> Asks(g, p, n)
  {
    hide IsNone, Outs, Uses, Frees, Made, Touched, Freed;
    forall x
      ensures (x in Outs(p) <==> Made(p, x)) && (x in Uses(p) <==> Touched(p, x)) && (x in Frees(p) <==> Freed(p, x))
    {
      NamesIff(p, x);
    }
  }

  lemma ReturnedIff(g: Graph, p: Partition, wanted: set<Name>, n: Name)
    ensures n in Returned(g, p, wanted) <==> Returns(g, p, wanted, n)
  {
    hide IsNone, Outs, Uses, Frees, Made, Touched, Freed, Asks, InputNames;
    forall x
      ensures (x in Outs(p) <==> Made(p, x)) && (x in Frees(p) <==> Freed(p, x)) && (x in InputNames(g, p) <==> Asks(g, p, x))
    {
      NamesIff(p, x);
      InputNamesIff(g, p, x);
    }
    if n in Returned(g, p, wanted) {
      var x :| x in Outs(p) * wanted + (Inputs(g, p) - Frees(p)) && Real(g, x) == n;
      assert StandsFor(g, x, n);
    }
    if Returns(g, p, wanted, n) {
      var x :| StandsFor(g, x, n) && ((Made(p, x) && x in wanted) || (x in g.nodes && Asks(g, p, x) && !Freed(p, x)));
      assert Real(g, x) in Returned(g, p, wanted);
    }
  }

  /**
   A signature, from the fields of the nodes alone. It lists as inputs the buffers asked for that have a node, marks
   those freed here, lists the constants asked for, and hands on what is returned and has memory. There is none
   exactly when a buffer to hand on has no node.
   */
  lemma SignatureIff(g: Graph, p: Partition, wanted: set<Name>, n: Name)
    ensures var sig := SignatureOf(g, p, wanted);
            && (sig.None? <==> exists o :: Returns(g, p, wanted, o) && !IsNone(g, o) && o !in g.nodes)
            && (sig.Some? ==>
                  && (n in sig.value.inputs <==> n in g.nodes && Asks(g, p, n))
                  && sig.value.dealloc.Keys == sig.value.inputs
                  && (n in sig.value.dealloc ==> (sig.value.dealloc[n] <==> Freed(p, n)))
                  && (n in sig.value.constants <==> n in g.constants && Asks(g, p, n))
                  && (n in sig.value.outputs <==> Returns(g, p, wanted, n) && !IsNone(g, n)))
  {
    hide IsNone, Outs, Uses, Frees, Made, Touched, Freed, Asks, InputNames, Returned, Returns;
    NamesIff(p, n);
    InputNamesIff(g, p, n);
    ReturnedIff(g, p, wanted, n);
    forall o ensures o in Returned(g, p, wanted) <==> Returns(g, p, wanted, o) { ReturnedIff(g, p, wanted, o); }
    if SignatureOf(g, p, wanted).None? {
      var o :| o in OutputNames(g, p, wanted) && o !in g.nodes;
      assert Returns(g, p, wanted, o);
    }
    if o :| Returns(g, p, wanted, o) && !IsNone(g, o) && o !in g.nodes {
      assert o in OutputNames(g, p, wanted);
    }
  }

  // ------------------------------------------------------------- running them

  /** The partition allocates the buffer itself. */
  ghost predicate Owns(g: Graph, p: Partition, n: Name) { Made(p, n) && Real(g, n) == n }

  /** The buffer behind every name with memory that a node touches or makes was handed in or is its own. */
  ghost predicate AtHand(g: Graph, p: Partition, sig: Signature) {
    forall x :: (Touched(p, x) || Made(p, x)) && !IsNone(g, x) ==>
      Real(g, x) in sig.inputs || Real(g, x) in sig.constants || Owns(g, p, Real(g, x))
  }

  /** What is returned is an input or its own, and not freed inside. */
  ghost predicate HandsOn(g: Graph, p: Partition, sig: Signature) {
    forall n :: n in sig.outputs ==> (n in sig.inputs || Owns(g, p, n)) && !Freed(p, n)
  }

  /** Call one partition. Its declared inputs must be there and are handed over; its nodes have nothing else. */
  ghost function Call(g: Graph, p: Partition, sig: Option<Signature>, env: set<Name>): Option<set<Name>> {
    if sig.Some? && sig.value.inputs <= env && AtHand(g, p, sig.value) && HandsOn(g, p, sig.value)
    then Some(env - sig.value.inputs + sig.value.outputs) else None
  }

  ghost function Execute(g: Graph, ps: seq<Partition>, i: nat, env: set<Name>): Option<set<Name>>
    requires i <= |ps|
    decreases |ps| - i
  {
    if i == |ps| then Some(env)
    else
      var env' := Call(g, ps[i], SignatureAt(g, ps, i), env);
      if env'.None? then None else Execute(g, ps, i + 1, env'.value)
  }

  /** Every graph output that has memory is there at the end. */
  ghost predicate Delivers(g: Graph, env: set<Name>) {
    forall o :: o in g.outputs && o in g.nodes && !IsNone(g, Real(g, o)) ==> Real(g, o) in env
  }

  ghost predicate RunsThrough(g: Graph, ps: seq<Partition>) {
    var env := Execute(g, ps, 0, g.inputs);
    env.Some? && Delivers(g, env.value)
  }

  // ------------------------------------------------------------ well-formed schedules

  ghost predicate DefinedBefore(g: Graph, ps: seq<Partition>, i: nat, n: Name)
    requires i <= |ps|
  {
    n in g.inputs || exists k, o :: 0 <= k < i && Made(ps[k], o) && Real(g, o) == n
  }

  ghost predicate FreedBefore(ps: seq<Partition>, i: nat, n: Name)
    requires i <= |ps|
  {
    exists k :: 0 <= k < i && Freed(ps[k], n)
  }

  ghost predicate Ready(g: Graph, ps: seq<Partition>, i: nat, n: Name)
    requires i <= |ps|
  {
    DefinedBefore(g, ps, i, n) && !FreedBefore(ps, i, n)
  }

  /** Names: the layout test returns, real names are final and known, graph inputs are real memory. */
  ghost predicate Named(g: Graph, ps: seq<Partition>) {
    && Terminates(g)
    && (forall n :: Real(g, Real(g, n)) == Real(g, n))
    && (forall n :: n in g.nodes ==> Real(g, n) in g.nodes)
    && (forall n :: n in g.inputs ==> n in g.nodes && !IsNone(g, n))
    && (forall i, n :: 0 <= i < |ps| && Made(ps[i], n) ==> n in g.nodes)
    && (forall i, n :: 0 <= i < |ps| && Freed(ps[i], n) ==> Real(g, n) == n)
  }

  /** A buffer with a node that is read, written or freed was made before and not freed before. */
  ghost predicate InOrder(g: Graph, ps: seq<Partition>, i: nat)
    requires i < |ps|
  {
    && (forall x :: Touched(ps[i], x) && !IsNone(g, x) && !Made(ps[i], x) && Real(g, x) in g.nodes ==>
          Ready(g, ps, i, Real(g, x)))
    && (forall n :: Freed(ps[i], n) && !Made(ps[i], n) && n in g.nodes ==> Ready(g, ps, i, n))
  }

  /** Order: defined once, touched after definition, never used after being freed, mutated where it is asked for. */
  ghost predicate Ordered(g: Graph, ps: seq<Partition>) {
    && (forall i, j, o :: 0 <= i < j < |ps| && Made(ps[i], o) ==> !Made(ps[j], o))
    && (forall i :: 0 <= i < |ps| ==> InOrder(g, ps, i))
    && (forall i, o :: 0 <= i < |ps| && Made(ps[i], o) ==> Made(ps[i], Real(g, o)) || Asks(g, ps[i], Real(g, o)))
    && (forall o :: o in g.outputs && o in g.nodes ==>
          && !FreedBefore(ps, |ps|, Real(g, o))
          && ((o in g.inputs && Real(g, o) == o) || exists k :: 0 <= k < |ps| && Made(ps[k], o)))
  }

  /**
   Nothing freed here but made elsewhere, and nothing used here under another name, is without memory; what is used
   and has no node is a constant.
   */
  ghost predicate AsksForMemory(g: Graph, p: Partition) {
    && (forall n :: Freed(p, n) && !Made(p, n) && n in g.nodes ==> !IsNone(g, n))
    && (forall x :: Touched(p, x) && !Made(p, x) && !IsNone(g, x) ==>
          if Real(g, x) in g.nodes then !IsNone(g, Real(g, x)) else Real(g, x) in g.constants)
  }

  ghost predicate AsksForMemoryOnly(g: Graph, ps: seq<Partition>) {
    forall i :: 0 <= i < |ps| ==> AsksForMemory(g, ps[i])
  }

  // -------------------------------------------------------------------- proof

  /** The set forms and the node forms together. */
  lemma FormsAgree(g: Graph, p: Partition)
    ensures forall x :: x in Outs(p) <==> Made(p, x)
    ensures forall x :: x in Frees(p) <==> Freed(p, x)
    ensures forall x :: x in InputNames(g, p) <==> Asks(g, p, x)
  {
    hide *;
    forall x
      ensures (x in Outs(p) <==> Made(p, x)) && (x in Frees(p) <==> Freed(p, x)) && (x in InputNames(g, p) <==> Asks(g, p, x))
    {
      NamesIff(p, x);
      InputNamesIff(g, p, x);
    }
  }

  /** That is exactly when no declared input is without memory and everything else asked for is a constant. */
  lemma AsksIff(g: Graph, p: Partition)
    ensures AsksForMemory(g, p) <==>
            && (forall n :: n in Inputs(g, p) ==> !IsNone(g, n))
            && (forall n :: n in InputNames(g, p) && n !in g.nodes ==> n in g.constants)
  {
    hide IsNone, Made, Touched, Freed, InputNames, Outs, Frees;
    FormsAgree(g, p);
    if !AsksForMemory(g, p) {
      if n :| Freed(p, n) && !Made(p, n) && n in g.nodes && IsNone(g, n) {
        assert Asks(g, p, n);
      } else {
        var x :| Touched(p, x) && !Made(p, x) && !IsNone(g, x) &&
          !(if Real(g, x) in g.nodes then !IsNone(g, Real(g, x)) else Real(g, x) in g.constants);
        assert StandsFor(g, x, Real(g, x)) && Asks(g, p, Real(g, x));
      }
    }
  }

  /** Names asked for are real names, and those with a node are there to be asked for. */
  lemma AskedIsReady(g: Graph, ps: seq<Partition>, i: nat, n: Name)
    requires Named(g, ps) && i < |ps| && Asks(g, ps[i], n)
    ensures Real(g, n) == n && (InOrder(g, ps, i) && n in g.nodes ==> Ready(g, ps, i, n))
  {
    hide IsNone, Made, Touched, Freed, Ready, Terminates;
    if !(Freed(ps[i], n) && !Made(ps[i], n) && n in g.nodes) {
      var x :| Touched(ps[i], x) && !IsNone(g, x) && !Made(ps[i], x) && StandsFor(g, x, n);
      assert Real(g, Real(g, x)) == Real(g, x);
    }
  }

  lemma NamedHere(g: Graph, ps: seq<Partition>, i: nat)
    requires Named(g, ps) && i < |ps|
    ensures forall n :: n in InputNames(g, ps[i]) ==> Real(g, n) == n
    ensures forall n :: n in Frees(ps[i]) ==> Real(g, n) == n
    ensures Outs(ps[i]) <= g.nodes && forall n :: n in g.nodes ==> Real(g, n) in g.nodes
    ensures forall n :: Real(g, Real(g, n)) == Real(g, n)
  {
    hide IsNone, Made, Touched, Freed, InputNames, Outs, Frees, Terminates, Asks;
    FormsAgree(g, ps[i]);
    forall n | n in InputNames(g, ps[i]) ensures Real(g, n) == n { AskedIsReady(g, ps, i, n); }
  }

  lemma OrderedHere(g: Graph, ps: seq<Partition>, i: nat)
    requires Named(g, ps) && Ordered(g, ps) && i < |ps|
    ensures forall n :: n in Inputs(g, ps[i]) ==> Ready(g, ps, i, n)
    ensures forall o :: o in Outs(ps[i]) ==> Real(g, o) in Outs(ps[i]) || Real(g, o) in InputNames(g, ps[i])
  {
    hide IsNone, Made, Touched, Freed, InputNames, Outs, Frees, Named, Asks, Ready;
    FormsAgree(g, ps[i]);
    assert InOrder(g, ps, i);
    hide InOrder;
    forall n | n in Inputs(g, ps[i]) ensures Ready(g, ps, i, n) { AskedIsReady(g, ps, i, n); }
  }

  /** A wanted name that the partition does not produce is still wanted before it. */
  lemma Persists(g: Graph, ps: seq<Partition>, i: nat, n: Name)
    requires Named(g, ps) && i < |ps|
    requires n in UnmetAt(g, ps, i + 1) && n !in Outs(ps[i])
    requires forall o :: o in Outs(ps[i]) ==> Real(g, o) in Outs(ps[i]) || Real(g, o) in InputNames(g, ps[i])
    ensures n in UnmetAt(g, ps, i)
  {
    hide Named, Outs, Frees, InputNames;
    NamedHere(g, ps, i);
  }

  /** Wanted names come from later partitions or from the graph's outputs. */
  lemma {:induction false} WantedBy(g: Graph, ps: seq<Partition>, i: nat, n: Name)
    requires i <= |ps| && n in UnmetAt(g, ps, i)
    ensures n in g.outputs || exists j :: i <= j < |ps| && Asks(g, ps[j], n)
    decreases |ps| - i
  {
    hide InputNames, Asks, Returned;
    if i < |ps| {
      InputNamesIff(g, ps[i], n);
      if n !in InputNames(g, ps[i]) { WantedBy(g, ps, i + 1, n); }
    }
  }

  lemma ProducedOnce(g: Graph, ps: seq<Partition>, k: nat, i: nat, o: Name)
    requires Ordered(g, ps) && k < i < |ps| && o in Outs(ps[k])
    ensures o !in Outs(ps[i])
  {
    hide Outs, Made;
    NamesIff(ps[k], o);
    NamesIff(ps[i], o);
  }

  /** What a partition makes and the graph or a later partition asks for is wanted until then. */
  lemma {:induction false} MadeIsWanted(g: Graph, ps: seq<Partition>, k: nat, i: nat, o: Name)
    requires Named(g, ps) && Ordered(g, ps) && k < i <= |ps| && o in Outs(ps[k])
    requires o in g.outputs || exists j :: i <= j < |ps| && Asks(g, ps[j], o)
    ensures o in UnmetAt(g, ps, i)
    decreases |ps| - i
  {
    hide Named, Ordered, Outs, Asks, InputNames, Returned;
    if i < |ps| {
      InputNamesIff(g, ps[i], o);
      if !Asks(g, ps[i], o) {
        ProducedOnce(g, ps, k, i, o);
        MadeIsWanted(g, ps, k, i + 1, o);
        OrderedHere(g, ps, i);
        Persists(g, ps, i, o);
      }
    }
  }

  /**
   In a well-formed schedule a partition hands on exactly the buffers with memory that it makes and that the graph or
   a later partition asks for, and those handed in that it does not free.
   */
  lemma HandedOnIff(g: Graph, ps: seq<Partition>, i: nat, n: Name)
    requires Named(g, ps) && Ordered(g, ps) && i < |ps| && SignatureAt(g, ps, i).Some?
    ensures n in SignatureAt(g, ps, i).value.outputs <==>
            && !IsNone(g, n)
            && ((n in g.nodes && Asks(g, ps[i], n) && !Freed(ps[i], n)) ||
                exists x :: StandsFor(g, x, n) && Made(ps[i], x) &&
                  (x in g.outputs || exists j :: i < j < |ps| && Asks(g, ps[j], x)))
  {
    hide *;
    SignatureHands(g, ps, i, n);
    forall x | Made(ps[i], x)
      ensures x in UnmetAt(g, ps, i + 1) <==> x in g.outputs || exists j :: i < j < |ps| && Asks(g, ps[j], x)
    {
      NamesIff(ps[i], x);
      if x in UnmetAt(g, ps, i + 1) { WantedBy(g, ps, i + 1, x); }
      if x in g.outputs || exists j :: i < j < |ps| && Asks(g, ps[j], x) { MadeIsWanted(g, ps, i, i + 1, x); }
    }
  }

  lemma SignatureHands(g: Graph, ps: seq<Partition>, i: nat, n: Name)
    requires Named(g, ps) && i < |ps| && SignatureAt(g, ps, i).Some?
    ensures n in SignatureAt(g, ps, i).value.outputs <==>
            && !IsNone(g, n)
            && ((n in g.nodes && Asks(g, ps[i], n) && !Freed(ps[i], n)) ||
                exists x :: StandsFor(g, x, n) && Made(ps[i], x) && x in UnmetAt(g, ps, i + 1))
  {
    hide Named, Made, Freed, Asks, SignatureOf, IsNone;
    SignatureIff(g, ps[i], UnmetAt(g, ps, i + 1), n);
    forall x | Asks(g, ps[i], x) ensures Real(g, x) == x { AskedIsReady(g, ps, i, x); }
  }

  /** Everything wanted that exists, has memory and was not freed is in the environment. */
  ghost predicate Covers(g: Graph, ps: seq<Partition>, i: nat, env: set<Name>)
    requires i <= |ps|
  {
    && (forall n :: n in env ==> !IsNone(g, n))
    && (forall n :: n in UnmetAt(g, ps, i) && Real(g, n) == n && Ready(g, ps, i, n) && !IsNone(g, n) ==> n in env)
    && (forall o :: o in g.outputs && o in g.nodes && !IsNone(g, Real(g, o)) && ProducedBefore(g, ps, i, o) ==>
          Real(g, o) in env)
  }

  ghost predicate ProducedBefore(g: Graph, ps: seq<Partition>, i: nat, o: Name)
    requires i <= |ps|
  {
    (o in g.inputs && Real(g, o) == o) || exists k :: 0 <= k < i && Made(ps[k], o)
  }

  lemma InputsFound(g: Graph, ps: seq<Partition>, i: nat, env: set<Name>)
    requires Named(g, ps) && Ordered(g, ps) && i < |ps| && Covers(g, ps, i, env)
    requires forall n :: n in Inputs(g, ps[i]) ==> !IsNone(g, n)
    ensures Inputs(g, ps[i]) <= env
  {
    hide Named, Ordered, Ready, IsNone, InputNames, Returned;
    NamedHere(g, ps, i);
    OrderedHere(g, ps, i);
    forall n | n in Inputs(g, ps[i]) ensures n in env {
      assert n in UnmetAt(g, ps, i);
    }
  }

  lemma OutputNotFreed(g: Graph, ps: seq<Partition>, i: nat, x: Name)
    requires Named(g, ps) && Ordered(g, ps) && i < |ps|
    requires x in Outs(ps[i]) && x in UnmetAt(g, ps, i + 1)
    ensures !Freed(ps[i], Real(g, x))
  {
    hide Named, IsNone, UnmetAt, Freed, Made, Outs, InOrder, Asks;
    NamesIff(ps[i], x);
    NamedHere(g, ps, i);
    WantedBy(g, ps, i + 1, x);
    assert Freed(ps[i], Real(g, x)) ==> FreedBefore(ps, |ps|, Real(g, x));
    if x !in g.outputs {
      var j :| i + 1 <= j < |ps| && Asks(g, ps[j], x);
      assert InOrder(g, ps, j);
      AskedIsReady(g, ps, j, x);
      assert Freed(ps[i], x) ==> FreedBefore(ps, j, x);
    }
  }

  /** What is returned was handed in or allocated here, has a node, and was not freed here. */
  lemma OutputsSound(g: Graph, ps: seq<Partition>, i: nat, n: Name)
    requires Named(g, ps) && Ordered(g, ps) && i < |ps|
    requires n in Returned(g, ps[i], UnmetAt(g, ps, i + 1))
    ensures n in g.nodes && !Freed(ps[i], n) && (n in Inputs(g, ps[i]) || Owns(g, ps[i], n))
  {
    hide Named, Ordered, IsNone, UnmetAt, Freed, Made, Outs, Frees, InputNames;
    var p, u := ps[i], UnmetAt(g, ps, i + 1);
    FormsAgree(g, p);
    NamedHere(g, ps, i);
    OrderedHere(g, ps, i);
    var x :| x in Outs(p) * u + (Inputs(g, p) - Frees(p)) && Real(g, x) == n;
    if x in Outs(p) && x in u { OutputNotFreed(g, ps, i, x); }
  }

  ghost function After(g: Graph, ps: seq<Partition>, i: nat, env: set<Name>): set<Name>
    requires i < |ps|
  {
    env - Inputs(g, ps[i]) + OutputNames(g, ps[i], UnmetAt(g, ps, i + 1))
  }

  /** Every name with memory that a node of the partition touches or makes is at hand. */
  lemma AllAtHand(g: Graph, ps: seq<Partition>, i: nat)
    requires Named(g, ps) && Ordered(g, ps) && i < |ps| && AsksForMemory(g, ps[i]) && SignatureAt(g, ps, i).Some?
    ensures AtHand(g, ps[i], SignatureAt(g, ps, i).value)
  {
    hide Named, Ordered, IsNone, UnmetAt, Freed, Made, Touched, Outs, Frees, InputNames, Asks;
    var p := ps[i];
    FormsAgree(g, p);
    NamedHere(g, ps, i);
    OrderedHere(g, ps, i);
    AsksIff(g, p);
    hide AsksForMemory;
    forall x | (Touched(p, x) || Made(p, x)) && !IsNone(g, x)
      ensures Real(g, x) in Inputs(g, p) || Real(g, x) in InputNames(g, p) * g.constants || Owns(g, p, Real(g, x))
    {
      if !Made(p, x) { TouchedIsAsked(g, p, x); }
    }
  }

  lemma TouchedIsAsked(g: Graph, p: Partition, x: Name)
    requires Touched(p, x) && !Made(p, x) && !IsNone(g, x)
    ensures Asks(g, p, Real(g, x))
  {
    hide IsNone, Touched, Made, Freed;
    assert StandsFor(g, x, Real(g, x));
  }

  lemma SignatureFound(g: Graph, ps: seq<Partition>, i: nat)
    requires Named(g, ps) && Ordered(g, ps) && i < |ps|
    ensures SignatureAt(g, ps, i).Some? && HandsOn(g, ps[i], SignatureAt(g, ps, i).value)
  {
    hide Named, Ordered, IsNone, UnmetAt, Freed, Owns, Inputs, Returned;
    var u := UnmetAt(g, ps, i + 1);
    forall n | n in OutputNames(g, ps[i], u)
      ensures n in g.nodes && (n in Inputs(g, ps[i]) || Owns(g, ps[i], n)) && !Freed(ps[i], n)
    {
      OutputsSound(g, ps, i, n);
    }
  }

  lemma CallSucceeds(g: Graph, ps: seq<Partition>, i: nat, env: set<Name>)
    requires Named(g, ps) && Ordered(g, ps) && i < |ps| && Covers(g, ps, i, env) && AsksForMemory(g, ps[i])
    ensures Call(g, ps[i], SignatureAt(g, ps, i), env) == Some(After(g, ps, i, env))
  {
    hide Named, Ordered, IsNone, UnmetAt, Covers, AtHand, HandsOn, InputNames, AsksForMemory;
    AsksIff(g, ps[i]);
    InputsFound(g, ps, i, env);
    SignatureFound(g, ps, i);
    AllAtHand(g, ps, i);
  }

  /** A name that is there, has memory and is not freed is still there after the call. */
  lemma Stays(g: Graph, ps: seq<Partition>, i: nat, env: set<Name>, n: Name)
    requires Named(g, ps) && i < |ps| && n in env && !Freed(ps[i], n) && !IsNone(g, n)
    ensures n in After(g, ps, i, env)
  {
    hide Named, Freed, Frees, InputNames, IsNone, UnmetAt;
    if n in Inputs(g, ps[i]) {
      NamesIff(ps[i], n);
      NamedHere(g, ps, i);
      assert Real(g, n) in Returned(g, ps[i], UnmetAt(g, ps, i + 1));
    }
  }

  /** A name that is ready after a partition that neither makes it nor asks for it was ready before. */
  lemma ReadyBefore(g: Graph, ps: seq<Partition>, i: nat, n: Name)
    requires Named(g, ps) && Ordered(g, ps) && i < |ps| && Ready(g, ps, i + 1, n) && n !in Outs(ps[i])
    ensures Ready(g, ps, i, n) && !Freed(ps[i], n)
  {
    hide Named, Ordered, Freed, Made, Outs, InputNames;
    if n !in g.inputs {
      var k, o :| 0 <= k < i + 1 && Made(ps[k], o) && Real(g, o) == n;
      if k == i {
        NamesIff(ps[i], o);
        NamedHere(g, ps, i);
        OrderedHere(g, ps, i);
        assert n in Inputs(g, ps[i]);
      }
    }
  }

  lemma CoversWanted(g: Graph, ps: seq<Partition>, i: nat, env: set<Name>, n: Name)
    requires Named(g, ps) && Ordered(g, ps) && i < |ps| && Covers(g, ps, i, env)
    requires n in UnmetAt(g, ps, i + 1) && Real(g, n) == n && Ready(g, ps, i + 1, n) && !IsNone(g, n)
    ensures n in After(g, ps, i, env)
  {
    hide Named, Ordered, Ready, Freed, Outs, InputNames, IsNone, UnmetAt;
    if n in Outs(ps[i]) {
      assert Real(g, n) in Returned(g, ps[i], UnmetAt(g, ps, i + 1));
    } else {
      OrderedHere(g, ps, i);
      Persists(g, ps, i, n);
      ReadyBefore(g, ps, i, n);
      Stays(g, ps, i, env, n);
    }
  }

  lemma CoversOutput(g: Graph, ps: seq<Partition>, i: nat, env: set<Name>, o: Name)
    requires Named(g, ps) && Ordered(g, ps) && i < |ps| && Covers(g, ps, i, env)
    requires o in g.outputs && o in g.nodes && !IsNone(g, Real(g, o)) && ProducedBefore(g, ps, i + 1, o)
    ensures Real(g, o) in After(g, ps, i, env)
  {
    hide Named, Freed, Outs, Made, InputNames, IsNone, UnmetAt, InOrder, Asks;
    if ProducedBefore(g, ps, i, o) {
      assert Freed(ps[i], Real(g, o)) ==> FreedBefore(ps, |ps|, Real(g, o));
      Stays(g, ps, i, env, Real(g, o));
    } else {
      NamesIff(ps[i], o);
      MadeIsWanted(g, ps, i, i + 1, o);
      assert Real(g, o) in Returned(g, ps[i], UnmetAt(g, ps, i + 1));
    }
  }

  lemma CallCovers(g: Graph, ps: seq<Partition>, i: nat, env: set<Name>)
    requires Named(g, ps) && Ordered(g, ps) && i < |ps| && Covers(g, ps, i, env)
    ensures Covers(g, ps, i + 1, After(g, ps, i, env))
  {
    hide Named, Ordered, Ready, IsNone, UnmetAt, Returned, ProducedBefore, Inputs;
    var env' := After(g, ps, i, env);
    forall n | n in UnmetAt(g, ps, i + 1) && Real(g, n) == n && Ready(g, ps, i + 1, n) && !IsNone(g, n)
      ensures n in env'
    {
      CoversWanted(g, ps, i, env, n);
    }
    forall o | o in g.outputs && o in g.nodes && !IsNone(g, Real(g, o)) && ProducedBefore(g, ps, i + 1, o)
      ensures Real(g, o) in env'
    {
      CoversOutput(g, ps, i, env, o);
    }
  }

  lemma CoversDelivers(g: Graph, ps: seq<Partition>, env: set<Name>)
    requires Ordered(g, ps) && Covers(g, ps, |ps|, env)
    ensures Delivers(g, env)
  {
    hide InOrder, Asks, Made, Freed, IsNone;
    forall o | o in g.outputs && o in g.nodes && !IsNone(g, Real(g, o)) ensures Real(g, o) in env {
      assert ProducedBefore(g, ps, |ps|, o);
    }
  }

  lemma {:induction false} RunsFrom(g: Graph, ps: seq<Partition>, i: nat, env: set<Name>)
    requires Named(g, ps) && Ordered(g, ps) && AsksForMemoryOnly(g, ps) && i <= |ps| && Covers(g, ps, i, env)
    ensures Execute(g, ps, i, env).Some? && Delivers(g, Execute(g, ps, i, env).value)
    decreases |ps| - i
  {
    hide Covers, Ordered, Named, Delivers, AsksForMemory, Call, SignatureOf;
    if i == |ps| {
      CoversDelivers(g, ps, env);
    } else {
      CallSucceeds(g, ps, i, env);
      CallCovers(g, ps, i, env);
      RunsFrom(g, ps, i + 1, After(g, ps, i, env));
    }
  }

  /** A call that succeeds asked for memory only. */
  lemma CalledAsks(g: Graph, p: Partition, wanted: set<Name>, env: set<Name>)
    requires (forall x :: x in env ==> !IsNone(g, x)) && Call(g, p, SignatureOf(g, p, wanted), env).Some?
    requires forall n :: n in g.nodes ==> Real(g, n) in g.nodes
    requires forall n :: Made(p, n) ==> n in g.nodes
    ensures AsksForMemory(g, p)
  {
    hide IsNone, Made, Touched, Freed, InputNames, Outs, Frees, HandsOn, OutputNames, Asks;
    var sig := SignatureOf(g, p, wanted).value;
    FormsAgree(g, p);
    AsksIff(g, p);
    forall n | n in InputNames(g, p) && n !in g.nodes ensures n in g.constants { NodelessIsTouched(g, p, n); }
  }

  lemma NodelessIsTouched(g: Graph, p: Partition, n: Name)
    requires Asks(g, p, n) && n !in g.nodes
    ensures exists x :: Touched(p, x) && !IsNone(g, x) && Real(g, x) == n
  {
    hide IsNone, Made, Touched, Freed;
  }

  /** An environment never holds a buffer without memory, so a request for one stops the run. */
  lemma {:induction false} StopsFrom(g: Graph, ps: seq<Partition>, i: nat, env: set<Name>, j: nat)
    requires Named(g, ps) && i <= j < |ps| && !AsksForMemory(g, ps[j]) && forall x :: x in env ==> !IsNone(g, x)
    ensures Execute(g, ps, i, env).None?
    decreases j - i
  {
    hide IsNone, AsksForMemory, AtHand, HandsOn, Returned, UnmetAt, Inputs;
    var env' := Call(g, ps[i], SignatureAt(g, ps, i), env);
    if env'.Some? {
      CalledAsks(g, ps[i], UnmetAt(g, ps, i + 1), env);
      StopsFrom(g, ps, i + 1, env'.value, j);
    }
  }

  /**
   For every well-formed schedule: running the partitions with only what their signatures declare finds
   every input, gives every node the buffers it reads and writes, returns only what is at hand, and delivers
   every graph output, if and only if no partition frees a buffer without memory made elsewhere or uses one
   under another name, and every name used that has no node is a constant.
   */
  lemma RunsThroughIff(g: Graph, ps: seq<Partition>)
    requires Named(g, ps) && Ordered(g, ps)
    ensures RunsThrough(g, ps) <==> AsksForMemoryOnly(g, ps)
  {
    hide Ordered, Execute, Delivers, AsksForMemory, UnmetAt;
    if AsksForMemoryOnly(g, ps) {
      assert forall n :: DefinedBefore(g, ps, 0, n) ==> n in g.inputs;
      RunsFrom(g, ps, 0, g.inputs);
    } else {
      var j :| 0 <= j < |ps| && !AsksForMemory(g, ps[j]);
      StopsFrom(g, ps, 0, g.inputs, j);
    }
  }

  /** Deleting only the inputs marked for deallocation has the same effect as handing all of them over. */
  lemma DeallocationSuffices(g: Graph, ps: seq<Partition>, i: nat, env: set<Name>)
    requires Named(g, ps) && AsksForMemoryOnly(g, ps) && i < |ps| && SignatureAt(g, ps, i).Some?
    ensures var sig := SignatureAt(g, ps, i).value;
            env - sig.inputs + sig.outputs == env - (set n | n in sig.dealloc && sig.dealloc[n]) + sig.outputs
  {
    hide Named, AsksForMemory, IsNone, UnmetAt, Frees, InputNames;
    var sig := SignatureAt(g, ps, i).value;
    AsksIff(g, ps[i]);
    NamedHere(g, ps, i);
    forall n | n in sig.inputs && !sig.dealloc[n] ensures n in sig.outputs {
      assert Real(g, n) in Returned(g, ps[i], UnmetAt(g, ps, i + 1));
    }
  }

  // ------------------------------------------------------- a schedule that stops

  /**
   The condition is not idle. Buffer `b` has no memory; the first partition produces it and the second
   has its last use. Uses are filtered by layout but last uses are not, so `b` becomes an input that no
   partition ever returns.
   */
  lemma FreedWithoutMemory()
    ensures var g := Graph({}, {}, {"b"}, {}, map["b" := Buf(true, false)], map[]);
            var ps := [[Node({"b"}, {}, {"b"}, {})], [Node({}, {"b"}, {}, {"b"})]];
            Named(g, ps) && Ordered(g, ps) && !RunsThrough(g, ps)
  {
    var g := Graph({}, {}, {"b"}, {}, map["b" := Buf(true, false)], map[]);
    var p0, p1 := [Node({"b"}, {}, {"b"}, {})], [Node({}, {"b"}, {}, {"b"})];
    var ps := [p0, p1];
    assert forall n :: Chase(g, n, {}).Some?;
    assert IsNone(g, "b");
    hide Chase, UnmetAt, Execute, Delivers;
    forall x ensures (Made(p0, x) <==> x == "b") && !Made(p1, x) && !Freed(p0, x) && (Freed(p1, x) <==> x == "b")
      && (Touched(p0, x) <==> x == "b") && (Touched(p1, x) <==> x == "b")
    {
      assert x == "b" ==> x in p0[0].outputs && x in p1[0].lastUsage && x in p0[0].writtenNames && x in p1[0].readNames;
    }
    assert DefinedBefore(g, ps, 1, "b") by { assert Made(ps[0], "b") && Real(g, "b") == "b"; }
    assert Ready(g, ps, 1, "b") && InOrder(g, ps, 0) && InOrder(g, ps, 1);
    assert Named(g, ps) && Ordered(g, ps);
    RunsThroughIff(g, ps);
    assert !AsksForMemory(g, ps[1]);
  }

  // ------------------------------------------------------------ the pass itself

  method NamesOf(p: Partition) returns (outs: set<Name>, uses: set<Name>, frees: set<Name>)
    ensures outs == Outs(p) && uses == Uses(p) && frees == Frees(p)
  {
    outs, uses, frees := {}, {}, {};
    for k := 0 to |p|
      invariant outs + Outs(p[k..]) == Outs(p) && uses + Uses(p[k..]) == Uses(p) && frees + Frees(p[k..]) == Frees(p)
    {
      assert p[k..][1..] == p[k + 1..];
      outs := outs + p[k].outputs;
      uses := uses + p[k].readNames + p[k].writtenNames;
      frees := frees + p[k].lastUsage;
    }
  }

  lemma SignatureAll(g: Graph, p: Partition, wanted: set<Name>)
    ensures var sig := SignatureOf(g, p, wanted);
            sig.Some? ==>
              && (forall n :: n in sig.value.inputs <==> n in g.nodes && Asks(g, p, n))
              && (forall n :: n in sig.value.outputs <==> Returns(g, p, wanted, n) && !IsNone(g, n))
    ensures forall n :: n in Unmet(g, p, wanted) <==> Asks(g, p, n) || (n in wanted && !Returns(g, p, wanted, n))
  {
    hide SignatureOf, Asks, Returns, InputNames, Returned, IsNone;
    forall n
      ensures SignatureOf(g, p, wanted).Some? ==>
                && (n in SignatureOf(g, p, wanted).value.inputs <==> n in g.nodes && Asks(g, p, n))
                && (n in SignatureOf(g, p, wanted).value.outputs <==> Returns(g, p, wanted, n) && !IsNone(g, n))
      ensures n in Unmet(g, p, wanted) <==> Asks(g, p, n) || (n in wanted && !Returns(g, p, wanted, n))
    {
      SignatureIff(g, p, wanted, n);
      InputNamesIff(g, p, n);
      ReturnedIff(g, p, wanted, n);
    }
  }

  /** One turn of the pass: the partition's signature, and what is wanted before it. */
  method SignOne(g: Graph, p: Partition, unmet: set<Name>) returns (sig: Option<Signature>, before: set<Name>)
    ensures sig == SignatureOf(g, p, unmet) && before == Unmet(g, p, unmet)
    ensures sig.Some? ==> forall n :: n in sig.value.inputs <==> n in g.nodes && Asks(g, p, n)
    ensures sig.Some? ==> forall n :: n in sig.value.outputs <==> Returns(g, p, unmet, n) && !IsNone(g, n)
    ensures forall n :: n in before <==> Asks(g, p, n) || (n in unmet && !Returns(g, p, unmet, n))
  {
    SignatureAll(g, p, unmet);
    hide Asks, Returns;
    var outs, uses, frees := NamesOf(p);
    var returned := outs * unmet;
    var names := set x | x in uses && !IsNone(g, x) && x !in outs :: Real(g, x);
    var extra := set x | x in frees && x !in outs && x in g.nodes;
    names := names + extra;
    assert names == InputNames(g, p);
    var inputs := names * g.nodes;
    var dealloc := map n | n in inputs :: n in frees;
    returned := set x | x in returned + (inputs - frees) :: Real(g, x);
    assert returned == Returned(g, p, unmet);
    var outputs := set x | x in returned && !IsNone(g, x);
    before := names + (unmet - returned);
    sig := if outputs <= g.nodes then Some(Signature(inputs, outputs, dealloc, names * g.constants)) else None;
  }

  /** The backward pass: one signature per partition, in the order of the partitions. */
  method GetSignatures(g: Graph, ps: seq<Partition>) returns (r: Option<seq<Signature>>)
    ensures r.Some? <==> forall i :: 0 <= i < |ps| ==> SignatureAt(g, ps, i).Some?
    ensures r.Some? ==> |r.value| == |ps| && forall i :: 0 <= i < |ps| ==> Some(r.value[i]) == SignatureAt(g, ps, i)
    ensures r.Some? ==>
              forall i, n :: 0 <= i < |ps| ==> (n in r.value[i].inputs <==> n in g.nodes && Asks(g, ps[i], n))
  {
    hide SignatureOf, Unmet, Asks;
    forall i | 0 <= i < |ps|
      ensures SignatureAt(g, ps, i).Some? ==>
                forall n :: n in SignatureAt(g, ps, i).value.inputs <==> n in g.nodes && Asks(g, ps[i], n)
    {
      SignatureAll(g, ps[i], UnmetAt(g, ps, i + 1));
    }
    var signatures: seq<Signature> := [];
    var unmet := g.outputs;
    var i := |ps|;
    while i > 0
      invariant 0 <= i <= |ps| && unmet == UnmetAt(g, ps, i) && |signatures| == |ps| - i
      invariant forall k :: i <= k < |ps| ==> SignatureAt(g, ps, k) == Some(signatures[|ps| - 1 - k])
    {
      i := i - 1;
      var sig, before := SignOne(g, ps[i], unmet);
      assert sig == SignatureAt(g, ps, i);
      if sig.None? { return None; }
      signatures := signatures + [sig.value];
      unmet := before;
    }
    return Some(seq(|ps|, k requires 0 <= k < |ps| => signatures[|ps| - 1 - k]));
  }
}
