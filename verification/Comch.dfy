/** Send tasks and connections of the communication channel between host and DPU. */
module Comch {
  import opened Wrappers

  datatype Status = Success | NotFound | InvalidValue | Again | Failed

  /** The library's pool of send tasks: those it can still hand out and those on their way. */
  datatype Pool = Pool(size: nat, free: set<nat>, inFlight: set<nat>, handedOut: nat, freed: nat)

  function Tasks(n: nat): set<nat> { if n == 0 then {} else Tasks(n - 1) + {n - 1} }

  function Fresh(size: nat): Pool { Pool(size, Tasks(size), {}, 0, 0) }

  ghost predicate Split(a: set<nat>, b: set<nat>, n: nat) {
    a !! b && |a| + |b| == n && a + b == Tasks(n)
  }

  /** Every task is free or in flight, and each one handed out came back once unless it is in flight. */
  ghost predicate Conserved(p: Pool) {
    Split(p.free, p.inFlight, p.size) && p.handedOut == p.freed + |p.inFlight|
  }

  /** The library's answer to a request for a task: none is left, another error, or a task. */
  datatype Answer = NoMemory | AllocError | Allocated(task: nat, submitted: bool)

  /** Sending a message of `len` bytes; `known` says whether the connection leads to its channel. */
  function Send(p: Pool, known: bool, len: nat, max: nat, a: Answer): (Status, Pool) {
    if !known then (NotFound, p)
    else if len > max then (InvalidValue, p)
    else match a
      case NoMemory => (Again, p)
      case AllocError => (Failed, p)
      case Allocated(task, submitted) =>
        var out := p.(free := p.free - {task}, handedOut := p.handedOut + 1);
        if submitted then (Success, out.(inFlight := out.inFlight + {task}))
        else (Failed, out.(free := out.free + {task}, freed := out.freed + 1))
  }

  /** Both completion callbacks free their send task. */
  function Complete(p: Pool, task: nat): Pool {
    p.(inFlight := p.inFlight - {task}, free := p.free + {task}, freed := p.freed + 1)
  }

  datatype Event = Sending(known: bool, len: nat, max: nat, a: Answer) | Completed(task: nat, good: bool)

  /** The library hands out free tasks, says that none is left only then, and completes tasks in flight. */
  ghost predicate Honest(p: Pool, a: Answer) {
    match a
    case NoMemory => p.free == {}
    case AllocError => true
    case Allocated(task, _) => task in p.free
  }

  ghost predicate Possible(p: Pool, e: Event) {
    match e
    case Sending(_, _, _, a) => Honest(p, a)
    case Completed(task, _) => task in p.inFlight
  }

  function Step(p: Pool, e: Event): Pool {
    match e
    case Sending(known, len, max, a) => Send(p, known, len, max, a).1
    case Completed(task, _) => Complete(p, task)
  }

  lemma {:induction false} TasksSize(n: nat)
    ensures |Tasks(n)| == n && forall t :: t in Tasks(n) ==> t < n
  {
    if n > 0 { TasksSize(n - 1); }
  }

  /** Moving one task between the two sets keeps the split. */
  lemma Moved(a: set<nat>, b: set<nat>, t: nat, n: nat)
    requires t in a && Split(a, b, n)
    ensures Split(a - {t}, b + {t}, n) && Split(b + {t}, a - {t}, n)
    ensures |a - {t}| == |a| - 1 && |b + {t}| == |b| + 1
  {
    hide Tasks;
    assert (a - {t}) + (b + {t}) == a + b;
    assert (b + {t}) + (a - {t}) == a + b;
  }

  lemma Swapped(a: set<nat>, b: set<nat>, n: nat)
    requires Split(a, b, n)
    ensures Split(b, a, n)
  {
    assert a + b == b + a;
  }

  lemma PutBack(a: set<nat>, t: nat)
    requires t in a
    ensures a - {t} + {t} == a
  {
  }

  lemma SendConserves(p: Pool, known: bool, len: nat, max: nat, a: Answer)
    requires Conserved(p) && Honest(p, a)
    ensures Conserved(Send(p, known, len, max, a).1) && Send(p, known, len, max, a).1.size == p.size
  {
    hide Split;
    if a.Allocated? {
      Moved(p.free, p.inFlight, a.task, p.size);
      PutBack(p.free, a.task);
    }
  }

  lemma CompleteConserves(p: Pool, task: nat)
    requires Conserved(p) && task in p.inFlight
    ensures Conserved(Complete(p, task))
  {
    hide Split;
    Swapped(p.free, p.inFlight, p.size);
    Moved(p.inFlight, p.free, task, p.size);
  }

  lemma StepConserves(p: Pool, e: Event)
    requires Conserved(p) && Possible(p, e)
    ensures Conserved(Step(p, e)) && Step(p, e).size == p.size
  {
    hide Conserved, Send;
    match e {
      case Sending(known, len, max, a) => SendConserves(p, known, len, max, a);
      case Completed(task, _) => CompleteConserves(p, task);
    }
  }

  ghost predicate Run(ps: seq<Pool>, es: seq<Event>) {
    && |ps| == |es| + 1
    && forall i :: 0 <= i < |es| ==> Possible(ps[i], es[i]) && ps[i + 1] == Step(ps[i], es[i])
  }

  /** Over every interleaving no task is lost or freed twice. */
  lemma {:induction false} RunConserves(size: nat, ps: seq<Pool>, es: seq<Event>, i: nat)
    requires Run(ps, es) && ps[0] == Fresh(size) && i <= |es|
    ensures Conserved(ps[i]) && ps[i].size == size
  {
    if i == 0 {
      TasksSize(size);
      assert ps[0].free + {} == ps[0].free;
    } else {
      RunConserves(size, ps, es, i - 1);
      assert Possible(ps[i - 1], es[i - 1]) && ps[i - 1 + 1] == Step(ps[i - 1], es[i - 1]);
      StepConserves(ps[i - 1], es[i - 1]);
    }
  }

  /** No task is left exactly when all are in flight. */
  lemma NoneLeft(p: Pool)
    requires Conserved(p)
    ensures p.free == {} <==> |p.inFlight| == p.size
  {
    assert |p.free| == 0 <==> p.free == {};
  }

  /** The caller is told to retry exactly when every task is in flight and the library has no other complaint. */
  lemma AgainIff(p: Pool, known: bool, len: nat, max: nat, a: Answer)
    requires Conserved(p) && Honest(p, a)
    ensures Send(p, known, len, max, a).0 == Again <==>
            known && len <= max && |p.inFlight| == p.size && a != AllocError
  {
    hide Conserved;
    NoneLeft(p);
  }

  /** Each other answer: no such connection, a message too long, or an error of the library. */
  lemma SendAnswers(p: Pool, known: bool, len: nat, max: nat, a: Answer)
    ensures var status := Send(p, known, len, max, a).0;
            && (status == NotFound <==> !known) && (status == InvalidValue <==> known && len > max)
            && (status == Failed <==> known && len <= max && (a == AllocError || (a.Allocated? && !a.submitted)))
  {
  }

  /** A send that succeeds puts its task in flight; any other send leaves every task where it was. */
  lemma SendMoves(p: Pool, known: bool, len: nat, max: nat, a: Answer)
    requires Honest(p, a)
    ensures var (status, q) := Send(p, known, len, max, a);
            && (status == Success <==> known && len <= max && a.Allocated? && a.submitted)
            && q.inFlight == p.inFlight + (if status == Success then {a.task} else {})
            && q.free == p.free - (if status == Success then {a.task} else {})
  {
    if a.Allocated? { PutBack(p.free, a.task); }
  }

  // ---- Connections ----

  datatype Link = Link(connected: set<nat>, active: Option<nat>)

  /** `found` and `stored` say whether the lookups of the callback succeed. */
  datatype Change =
    | Connect(conn: nat, successful: bool, found: bool, stored: bool)
    | Disconnect(conn: nat, found: bool)

  function Changed(l: Link, c: Change): Link {
    match c
    case Connect(conn, successful, found, stored) =>
      if !successful then l
      else Link(l.connected + {conn}, if found && stored then Some(conn) else l.active)
    case Disconnect(conn, found) =>
      Link(l.connected - {conn}, if found then None else l.active)
  }

  ghost predicate Alive(l: Link) { l.active.Some? ==> l.active.value in l.connected }

  /**
   The active connection stays a connected one if and only if the change is not a disconnection of the
   active connection whose lookup fails.
   */
  lemma AliveIff(l: Link, c: Change)
    requires Alive(l)
    ensures Alive(Changed(l, c)) <==> !(c.Disconnect? && !c.found && l.active == Some(c.conn))
  {
  }

  /** No connection is active exactly when nobody is connected. */
  ghost predicate Told(l: Link) { l.active.None? <==> l.connected == {} }

  ghost predicate KeepsTold(l: Link, c: Change) {
    match c
    case Connect(_, successful, found, stored) => !successful || (found && stored) || l.connected != {}
    case Disconnect(conn, found) => if found then l.connected <= {conn} else l.connected != {conn}
  }

  /**
   An event keeps "none active exactly when none connected" if and only if: a connection that succeeds is
   recorded, unless others are connected; and a disconnection that is noticed is the last one, or one that
   is not noticed is not.
   */
  lemma ToldIff(l: Link, c: Change)
    requires Told(l)
    ensures Told(Changed(l, c)) <==> KeepsTold(l, c)
  {
    match c {
      case Connect(conn, _, _, _) => assert conn in l.connected + {conn};
      case Disconnect(conn, found) =>
        assert l.connected - {conn} == {} <==> l.connected <= {conn};
    }
  }

  ghost predicate Links(ls: seq<Link>, cs: seq<Change>) {
    |ls| == |cs| + 1 && forall i :: 0 <= i < |cs| ==> ls[i + 1] == Changed(ls[i], cs[i])
  }

  /** Over whole runs: every state is told exactly if every event keeps it so. */
  lemma {:induction false} RunToldIff(ls: seq<Link>, cs: seq<Change>)
    requires Links(ls, cs) && ls[0] == Link({}, None)
    ensures (forall i :: 0 <= i < |ls| ==> Told(ls[i])) <==> (forall i :: 0 <= i < |cs| ==> KeepsTold(ls[i], cs[i]))
  {
    if forall i :: 0 <= i < |ls| ==> Told(ls[i]) {
      forall i | 0 <= i < |cs| ensures KeepsTold(ls[i], cs[i]) {
        assert Told(ls[i + 1]) && ls[i + 1] == Changed(ls[i], cs[i]);
        ToldIff(ls[i], cs[i]);
      }
    }
    if forall i :: 0 <= i < |cs| ==> KeepsTold(ls[i], cs[i]) {
      forall i | 0 <= i < |ls| ensures Told(ls[i]) { KeptTold(ls, cs, i); }
    }
  }

  lemma {:induction false} KeptTold(ls: seq<Link>, cs: seq<Change>, i: nat)
    requires Links(ls, cs) && ls[0] == Link({}, None) && i <= |cs|
    requires forall k :: 0 <= k < |cs| ==> KeepsTold(ls[k], cs[k])
    ensures Told(ls[i])
  {
    if i > 0 {
      KeptTold(ls, cs, i - 1);
      assert ls[i - 1 + 1] == Changed(ls[i - 1], cs[i - 1]);
      assert KeepsTold(ls[i - 1], cs[i - 1]);
      ToldIff(ls[i - 1], cs[i - 1]);
    }
  }

  /** The change decides which connection is active, or whether `conn` is connected. */
  ghost predicate Decides(c: Change) { c.found && (c.Connect? ==> c.successful && c.stored) }

  ghost predicate Concerns(c: Change, conn: nat) { c.conn == conn && (c.Connect? ==> c.successful) }

  /** The last connection that was recorded is the active one, unless a disconnection was noticed after it. */
  lemma {:induction false} LastDecides(ls: seq<Link>, cs: seq<Change>, n: nat, i: nat)
    requires Links(ls, cs) && n < i <= |cs| && Decides(cs[n]) && forall k :: n < k < i ==> !Decides(cs[k])
    ensures ls[i].active == if cs[n].Connect? then Some(cs[n].conn) else None
    decreases i
  {
    assert ls[i - 1 + 1] == Changed(ls[i - 1], cs[i - 1]);
    if n < i - 1 {
      LastDecides(ls, cs, n, i - 1);
      assert !Decides(cs[i - 1]);
    }
  }

  /** Connected are those whose last event was a connection that succeeded. */
  lemma {:induction false} LastConnects(ls: seq<Link>, cs: seq<Change>, conn: nat, n: nat, i: nat)
    requires Links(ls, cs) && n < i <= |cs| && Concerns(cs[n], conn) && forall k :: n < k < i ==> !Concerns(cs[k], conn)
    ensures conn in ls[i].connected <==> cs[n].Connect?
    decreases i
  {
    assert ls[i - 1 + 1] == Changed(ls[i - 1], cs[i - 1]);
    if n < i - 1 {
      LastConnects(ls, cs, conn, n, i - 1);
      assert !Concerns(cs[i - 1], conn);
    }
  }

  ghost predicate LookupsSucceed(cs: seq<Change>) {
    forall i :: 0 <= i < |cs| ==> cs[i].found && (cs[i].Connect? ==> cs[i].stored)
  }

  /** In every run whose lookups succeed an active connection is still connected. */
  lemma {:induction false} RunStaysAlive(ls: seq<Link>, cs: seq<Change>, i: nat)
    requires Links(ls, cs) && ls[0] == Link({}, None) && LookupsSucceed(cs) && i <= |cs|
    ensures Alive(ls[i])
  {
    if i > 0 {
      RunStaysAlive(ls, cs, i - 1);
      assert ls[i - 1 + 1] == Changed(ls[i - 1], cs[i - 1]);
    }
  }

  /** With one client whose connections succeed, every event keeps it so. */
  lemma {:induction false} SingleClient(ls: seq<Link>, cs: seq<Change>, client: nat, i: nat)
    requires Links(ls, cs) && ls[0] == Link({}, None) && LookupsSucceed(cs) && i <= |cs|
    requires forall k :: 0 <= k < |cs| ==> cs[k].conn == client && (cs[k].Connect? ==> cs[k].successful)
    ensures Told(ls[i]) && ls[i].connected <= {client}
  {
    if i > 0 {
      SingleClient(ls, cs, client, i - 1);
      assert ls[i - 1 + 1] == Changed(ls[i - 1], cs[i - 1]);
      assert cs[i - 1].conn == client;
      ToldIff(ls[i - 1], cs[i - 1]);
    }
  }

  /** With two clients the channel forgets the one that stays when the other leaves. */
  lemma TwoClients()
    ensures var l := Changed(Changed(Link({}, None), Connect(1, true, true, true)), Connect(2, true, true, true));
            Told(l) && !KeepsTold(l, Disconnect(2, true)) && Changed(l, Disconnect(2, true)) == Link({1}, None)
  {
    assert {1, 2} - {2} == {1};
  }

  // ---- The channel object ----

  /** The library's tasks, the connections open on the channel, and the one the channel remembers. */
  class Channel {
    const size: nat
    const maxMessage: nat
    var free: set<nat>
    var inFlight: set<nat>
    var handedOut: nat
    var freed: nat
    var active: Option<nat>
    ghost var connected: set<nat>

    constructor (size: nat, maxMessage: nat)
      ensures Valid() && View() == Fresh(size) && active == None && connected == {}
      ensures this.size == size && this.maxMessage == maxMessage
    {
      this.size, this.maxMessage := size, maxMessage;
      free, inFlight, handedOut, freed, active, connected := Tasks(size), {}, 0, 0, None, {};
      new;
      TasksSize(size);
      assert free + {} == free;
    }

    ghost function View(): Pool
      reads this
    {
      Pool(size, free, inFlight, handedOut, freed)
    }

    ghost predicate Valid()
      reads this
    {
      Conserved(View())
    }

    method FreeTask(task: nat)
      modifies this`free, this`freed
      ensures free == old(free) + {task} && freed == old(freed) + 1
    {
      free := free + {task};
      freed := freed + 1;
    }

    /**
     Told to retry exactly when the library has every task in flight; a task is in flight after success
     and back in the pool after any failure.
     */
    method SendMessage(known: bool, len: nat, a: Answer) returns (status: Status)
      requires Valid() && Honest(View(), a)
      modifies this`free, this`inFlight, this`handedOut, this`freed
      ensures Valid() && (status, View()) == Send(old(View()), known, len, maxMessage, a)
      ensures status == Again <==> known && len <= maxMessage && |old(inFlight)| == size && a != AllocError
      ensures status == Success <==> known && len <= maxMessage && a.Allocated? && a.submitted
      ensures (status == NotFound <==> !known) && (status == InvalidValue <==> known && len > maxMessage)
      ensures inFlight == old(inFlight) + (if status == Success then {a.task} else {})
      ensures free == old(free) - (if status == Success then {a.task} else {})
    {
      hide Conserved, Honest;
      SendConserves(View(), known, len, maxMessage, a);
      AgainIff(View(), known, len, maxMessage, a);
      SendMoves(View(), known, len, maxMessage, a);
      if !known { return NotFound; }
      if len > maxMessage { return InvalidValue; }
      if a.NoMemory? { return Again; }
      if a.AllocError? { return Failed; }
      free, handedOut := free - {a.task}, handedOut + 1;
      if !a.submitted {
        FreeTask(a.task);
        return Failed;
      }
      inFlight := inFlight + {a.task};
      return Success;
    }

    /** A finished send, good or bad, can be reused; no other task moves. */
    method OnCompletion(task: nat)
      requires Valid() && task in inFlight
      modifies this`free, this`inFlight, this`freed
      ensures Valid() && View() == Complete(old(View()), task)
    {
      hide Conserved;
      CompleteConserves(View(), task);
      inFlight := inFlight - {task};
      FreeTask(task);
    }

    /** A recorded connection is the active one and is alive. */
    method OnConnection(c: Change)
      requires c.Connect? && Alive(Link(connected, active))
      modifies this`active, this`connected
      ensures Link(connected, active) == Changed(old(Link(connected, active)), c) && Alive(Link(connected, active))
      ensures old(Told(Link(connected, active))) ==>
              (Told(Link(connected, active)) <==> old(KeepsTold(Link(connected, active), c)))
    {
      if old(Told(Link(connected, active))) { ToldIff(Link(connected, active), c); }
      if !c.successful { return; }
      connected := connected + {c.conn};
      if !c.found { return; }
      if !c.stored { return; }
      active := Some(c.conn);
    }

    /** What is remembered stays alive unless the active connection leaves without being noticed. */
    method OnDisconnection(c: Change)
      requires c.Disconnect? && Alive(Link(connected, active))
      modifies this`active, this`connected
      ensures Link(connected, active) == Changed(old(Link(connected, active)), c)
      ensures Alive(Link(connected, active)) <==> c.found || old(active) != Some(c.conn)
      ensures old(Told(Link(connected, active))) ==>
              (Told(Link(connected, active)) <==> old(KeepsTold(Link(connected, active), c)))
    {
      if old(Told(Link(connected, active))) { ToldIff(Link(connected, active), c); }
      connected := connected - {c.conn};
      if !c.found { return; }
      active := None;
    }
  }
}
