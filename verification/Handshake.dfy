/**
 The distributed start-up (`ViaNetIO::init` with `CONNECT_SYNC`): every task node starts its server if it has
 clients, creates its client objects, sends a flag to each of its servers, and waits for a flag from each of its
 clients. The last two loops visit the nodes one at a time in an order fixed by the hash maps, so a node blocks on
 one particular peer.
 */
module Handshake {
  import opened Topology

  /**
   A configuration with the visiting orders of every node. A synchronous server writes a flag to the mailbox at once
   and answers even a node that is not one of its clients (dropping the data); an asynchronous one queues the flag for
   its worker, and never completes a call from a node that is not a client.
   */
  datatype Net = Net(
    cfg: Config,
    sendOrder: map<NodeId, seq<NodeId>>,
    recvOrder: map<NodeId, seq<NodeId>>,
    async: bool)

  ghost predicate Lists(order: seq<NodeId>, nodes: set<NodeId>) {
    && (forall n :: n in order <==> n in nodes)
    && (forall i, j :: 0 <= i < j < |order| ==> order[i] != order[j])
  }

  /** All the nodes that the policy connects take part, and the orders visit each peer once. */
  ghost predicate WellFormed(net: Net) {
    && net.sendOrder.Keys == net.recvOrder.Keys == net.cfg.taskNodes
    && (forall n :: n in net.cfg.taskNodes ==>
          && Servers(net.cfg, n) <= net.cfg.taskNodes
          && Clients(net.cfg, n) <= net.cfg.taskNodes
          && Lists(net.sendOrder[n], Servers(net.cfg, n))
          && Lists(net.recvOrder[n], Clients(net.cfg, n)))
  }

  /** How far a node has got: server phase, client objects, flags sent, flags received. */
  datatype Local = Local(started: bool, created: bool, sent: nat, received: nat)

  /**
   `flags[(m, n)]` is the number of unread flags from `m` in the mailbox of `n`, and `queued[(m, n)]` the number of
   those that the worker of `n` has yet to write there.
   */
  datatype State = State(
    local: map<NodeId, Local>,
    flags: map<(NodeId, NodeId), nat>,
    queued: map<(NodeId, NodeId), nat>)
  {
    function Unread(from: NodeId, to: NodeId): nat {
      if (from, to) in flags then flags[(from, to)] else 0
    }

    function Queued(from: NodeId, to: NodeId): nat {
      if (from, to) in queued then queued[(from, to)] else 0
    }

    /** The flags on their way to the receiver, or waiting for it. */
    function Held(from: NodeId, to: NodeId): nat {
      Unread(from, to) + Queued(from, to)
    }
  }

  /**
   `Resend` is an attempt that fails after its dispatch: the flag is delivered and the sender tries again. `Write` is
   the worker of `n` moving a flag to the mailbox.
   */
  datatype Step =
    | Start(n: NodeId)
    | Create(n: NodeId)
    | Send(n: NodeId)
    | Resend(n: NodeId)
    | Write(n: NodeId, from: NodeId)
    | Receive(n: NodeId)

  function Initial(net: Net): State {
    State(map n | n in net.cfg.taskNodes :: Local(false, false, 0, 0), map[], map[])
  }

  ghost predicate Shaped(net: Net, s: State) {
    WellFormed(net) && s.local.Keys == net.cfg.taskNodes
  }

  /** A call of `from` on `to` completes: the server runs, and it answers `from`. */
  ghost predicate Answers(net: Net, s: State, from: NodeId, to: NodeId)
    requires Shaped(net, s) && to in s.local
  {
    && s.local[to].started && Clients(net.cfg, to) != {}
    && (from in Clients(net.cfg, to) || !net.async)
  }

  ghost predicate Enabled(net: Net, s: State, step: Step)
    requires Shaped(net, s)
  {
    step.n in net.cfg.taskNodes &&
    var n, l := step.n, s.local[step.n];
    match step
    case Start(_) => !l.started
    case Create(_) => l.started && !l.created
    case Send(_) => l.created && l.sent < |net.sendOrder[n]| && Answers(net, s, n, net.sendOrder[n][l.sent])
    case Resend(_) => l.created && l.sent < |net.sendOrder[n]| && Answers(net, s, n, net.sendOrder[n][l.sent])
    case Write(_, from) => from in net.cfg.taskNodes && s.Queued(from, n) > 0
    case Receive(_) =>
      && l.created && l.sent == |net.sendOrder[n]|
      && l.received < |net.recvOrder[n]| && s.Unread(net.recvOrder[n][l.received], n) > 0
  }

  /** The flag reaches the mailbox, or its queue, if the receiver keeps one for the sender. */
  ghost function Delivered(net: Net, s: State, from: NodeId, to: NodeId): State {
    if from !in Clients(net.cfg, to) then s
    else if net.async then s.(queued := s.queued[(from, to) := s.Queued(from, to) + 1])
    else s.(flags := s.flags[(from, to) := s.Unread(from, to) + 1])
  }

  /** How far a step takes the node that makes it. */
  function Advance(l: Local, step: Step): Local {
    match step
    case Start(_) => l.(started := true)
    case Create(_) => l.(created := true)
    case Send(_) => l.(sent := l.sent + 1)
    case Receive(_) => l.(received := l.received + 1)
    case _ => l
  }

  /** What a step does to the flags. */
  ghost function Moved(net: Net, s: State, step: Step): State
    requires Shaped(net, s) && Enabled(net, s, step)
  {
    var n, l := step.n, s.local[step.n];
    match step
    case Send(_) => Delivered(net, s, n, net.sendOrder[n][l.sent])
    case Resend(_) => Delivered(net, s, n, net.sendOrder[n][l.sent])
    case Write(_, m) =>
      s.(queued := s.queued[(m, n) := s.Queued(m, n) - 1], flags := s.flags[(m, n) := s.Unread(m, n) + 1])
    case Receive(_) =>
      var m := net.recvOrder[n][l.received];
      s.(flags := s.flags[(m, n) := s.Unread(m, n) - 1])
    case _ => s
  }

  ghost function Next(net: Net, s: State, step: Step): (s': State)
    requires Shaped(net, s) && Enabled(net, s, step)
    ensures Shaped(net, s') && s'.local == s.local[step.n := Advance(s.local[step.n], step)]
  {
    Moved(net, s, step).(local := s.local[step.n := Advance(s.local[step.n], step)])
  }

  ghost predicate CanRun(net: Net, s: State, steps: seq<Step>)
    requires Shaped(net, s)
    decreases steps
  {
    steps == [] || (Enabled(net, s, steps[0]) && CanRun(net, Next(net, s, steps[0]), steps[1..]))
  }

  ghost function Exec(net: Net, s: State, steps: seq<Step>): (s': State)
    requires Shaped(net, s) && CanRun(net, s, steps)
    ensures Shaped(net, s')
    decreases steps
  {
    if steps == [] then s else Exec(net, Next(net, s, steps[0]), steps[1..])
  }

  /** `init` has returned on node `n`. */
  ghost predicate Done(net: Net, s: State, n: NodeId)
    requires Shaped(net, s) && n in s.local
  {
    && s.local[n].created
    && s.local[n].sent == |net.sendOrder[n]|
    && s.local[n].received == |net.recvOrder[n]|
  }

  ghost predicate AllDone(net: Net, s: State)
    requires Shaped(net, s)
  {
    forall n :: n in s.local ==> Done(net, s, n)
  }

  ghost predicate SentTo(net: Net, s: State, m: NodeId, n: NodeId)
    requires Shaped(net, s) && m in s.local && s.local[m].sent <= |net.sendOrder[m]|
  {
    n in net.sendOrder[m][..s.local[m].sent]
  }

  ghost predicate GotFrom(net: Net, s: State, n: NodeId, m: NodeId)
    requires Shaped(net, s) && n in s.local && s.local[n].received <= |net.recvOrder[n]|
  {
    m in net.recvOrder[n][..s.local[n].received]
  }

  /** The phases of one node come in order. */
  ghost predicate InPhase(net: Net, s: State, n: NodeId)
    requires Shaped(net, s) && n in s.local
  {
    var l := s.local[n];
    && l.sent <= |net.sendOrder[n]| && l.received <= |net.recvOrder[n]|
    && (l.created ==> l.started)
    && (l.sent > 0 ==> l.created)
    && (l.received > 0 ==> l.created && l.sent == |net.sendOrder[n]|)
  }

  /** Between two nodes, a sent flag is queued, unread or read, and no flag comes before its sender is ready. */
  ghost predicate Linked(net: Net, s: State, m: NodeId, n: NodeId)
    requires Shaped(net, s) && m in s.local && n in s.local && InPhase(net, s, m) && InPhase(net, s, n)
  {
    && (SentTo(net, s, m, n) ==> Answers(net, s, m, n))
    && (SentTo(net, s, m, n) && m in Clients(net.cfg, n) ==> s.Held(m, n) > 0 || GotFrom(net, s, n, m))
    && (s.Held(m, n) > 0 || GotFrom(net, s, n, m) ==> s.local[m].created)
  }

  ghost predicate Inv(net: Net, s: State) {
    && Shaped(net, s)
    && (forall n :: n in s.local ==> InPhase(net, s, n))
    && (forall m, n :: m in s.local && n in s.local ==> Linked(net, s, m, n))
  }

  lemma StepInPhase(net: Net, s: State, step: Step, n: NodeId)
    requires Inv(net, s) && Enabled(net, s, step) && n in s.local
    ensures InPhase(net, Next(net, s, step), n)
  {
    hide Servers, Clients, Linked, Lists, Next;
    assert InPhase(net, s, n);
  }

  /** The step puts a flag of `m` into the mailbox or the queue that `n` keeps for it. */
  ghost predicate Puts(net: Net, s: State, step: Step, m: NodeId, n: NodeId)
    requires Shaped(net, s) && Enabled(net, s, step)
  {
    && (step.Send? || step.Resend?)
    && m == step.n && n == net.sendOrder[m][s.local[m].sent] && m in Clients(net.cfg, n)
  }

  /** The step takes a flag of `m` out of the mailbox of `n`. */
  ghost predicate Takes(net: Net, s: State, step: Step, m: NodeId, n: NodeId)
    requires Shaped(net, s) && Enabled(net, s, step)
  {
    step.Receive? && n == step.n && m == net.recvOrder[n][s.local[n].received]
  }

  function One(b: bool): nat {
    if b then 1 else 0
  }

  /** A flag goes to the mailbox at once or, with an asynchronous server, through the queue. */
  lemma StepFlags(net: Net, s: State, step: Step, m: NodeId, n: NodeId)
    requires Shaped(net, s) && Enabled(net, s, step)
    ensures var s', put := Next(net, s, step), Puts(net, s, step, m, n);
            && s'.Queued(m, n) == s.Queued(m, n) + One(net.async && put) - One(step == Write(n, m))
            && s'.Unread(m, n) == s.Unread(m, n) + One(!net.async && put) + One(step == Write(n, m))
                                  - One(Takes(net, s, step, m, n))
  {
    hide Clients, Servers, Lists;
  }

  lemma StepHeld(net: Net, s: State, step: Step, m: NodeId, n: NodeId)
    requires Shaped(net, s) && Enabled(net, s, step)
    ensures Next(net, s, step).Held(m, n)
         == s.Held(m, n) + One(Puts(net, s, step, m, n)) - One(Takes(net, s, step, m, n))
  {
    hide Next, Enabled, Puts, Takes, State.Unread, State.Queued;
    StepFlags(net, s, step, m, n);
  }

  lemma SendLinked(net: Net, s: State, step: Step, m: NodeId, n: NodeId)
    requires Inv(net, s) && Enabled(net, s, step) && m in s.local && n in s.local
    requires InPhase(net, Next(net, s, step), m) && InPhase(net, Next(net, s, step), n)
    requires step.Send? || step.Resend?
    ensures Linked(net, Next(net, s, step), m, n)
  {
    hide Servers, Clients, InPhase, Lists, Next, State.Held;
    assert Linked(net, s, m, n);
    StepHeld(net, s, step, m, n);
    if step == Send(m) {
      var k := s.local[m].sent;
      assert net.sendOrder[m][..k + 1] == net.sendOrder[m][..k] + [net.sendOrder[m][k]];
    }
  }

  lemma ReceiveLinked(net: Net, s: State, step: Step, m: NodeId, n: NodeId)
    requires Inv(net, s) && Enabled(net, s, step) && m in s.local && n in s.local
    requires InPhase(net, Next(net, s, step), m) && InPhase(net, Next(net, s, step), n)
    requires step.Receive?
    ensures Linked(net, Next(net, s, step), m, n)
  {
    hide Servers, Clients, InPhase, Lists, Next;
    assert Linked(net, s, m, n);
    StepHeld(net, s, step, m, n);
    if step == Receive(n) {
      var k := s.local[n].received;
      assert net.recvOrder[n][..k + 1] == net.recvOrder[n][..k] + [net.recvOrder[n][k]];
    }
  }

  lemma StepLinked(net: Net, s: State, step: Step, m: NodeId, n: NodeId)
    requires Inv(net, s) && Enabled(net, s, step) && m in s.local && n in s.local
    requires InPhase(net, Next(net, s, step), m) && InPhase(net, Next(net, s, step), n)
    ensures Linked(net, Next(net, s, step), m, n)
  {
    hide Servers, Clients, InPhase, Lists, Next, State.Held;
    if step.Send? || step.Resend? {
      SendLinked(net, s, step, m, n);
    } else if step.Receive? {
      ReceiveLinked(net, s, step, m, n);
    } else {
      StepHeld(net, s, step, m, n);
      assert Linked(net, s, m, n);
    }
  }

  lemma StepInv(net: Net, s: State, step: Step)
    requires Inv(net, s) && Enabled(net, s, step)
    ensures Inv(net, Next(net, s, step))
  {
    hide Servers, Clients, InPhase, WellFormed, Linked;
    forall n | n in s.local
      ensures InPhase(net, Next(net, s, step), n)
    {
      StepInPhase(net, s, step, n);
    }
    forall m, n | m in s.local && n in s.local
      ensures Linked(net, Next(net, s, step), m, n)
    {
      StepLinked(net, s, step, m, n);
    }
  }

  lemma {:induction false} RunKeepsInv(net: Net, s: State, steps: seq<Step>)
    requires Inv(net, s) && CanRun(net, s, steps)
    ensures Inv(net, Exec(net, s, steps))
    decreases steps
  {
    if steps != [] {
      StepInv(net, s, steps[0]);
      RunKeepsInv(net, Next(net, s, steps[0]), steps[1..]);
    }
  }

  lemma EveryRun(net: Net, steps: seq<Step>)
    requires WellFormed(net) && CanRun(net, Initial(net), steps)
    ensures Inv(net, Exec(net, Initial(net), steps))
  {
    RunKeepsInv(net, Initial(net), steps);
  }

  // ---------- counting the flags ----------

  /** How many attempts to send a flag from `m` to `n` failed after the flag had been delivered. */
  ghost function ResendsOn(net: Net, s: State, steps: seq<Step>, m: NodeId, n: NodeId): (k: nat)
    requires Shaped(net, s) && CanRun(net, s, steps)
    decreases steps
  {
    if steps == [] then 0
    else
      One(steps[0].Resend? && Puts(net, s, steps[0], m, n))
      + ResendsOn(net, Next(net, s, steps[0]), steps[1..], m, n)
  }

  /** Flags held and read, less those whose send has succeeded. */
  ghost function Surplus(net: Net, s: State, m: NodeId, n: NodeId): int
    requires Shaped(net, s) && m in s.local && n in s.local && InPhase(net, s, m) && InPhase(net, s, n)
  {
    s.Held(m, n) + One(GotFrom(net, s, n, m)) - One(SentTo(net, s, m, n) && m in Clients(net.cfg, n))
  }

  /** An order visits each node once. */
  lemma Visit(order: seq<NodeId>, nodes: set<NodeId>, k: nat, x: NodeId)
    requires Lists(order, nodes) && k < |order|
    ensures One(x in order[..k + 1]) == One(x in order[..k]) + One(x == order[k])
  {
    assert order[..k + 1] == order[..k] + [order[k]];
  }

  lemma StepSends(net: Net, s: State, step: Step, m: NodeId, n: NodeId)
    requires Shaped(net, s) && Enabled(net, s, step) && m in s.local && n in s.local
    requires InPhase(net, s, m) && InPhase(net, Next(net, s, step), m)
    ensures One(SentTo(net, Next(net, s, step), m, n) && m in Clients(net.cfg, n))
         == One(SentTo(net, s, m, n) && m in Clients(net.cfg, n)) + One(step.Send? && Puts(net, s, step, m, n))
  {
    hide Servers, Clients, Next, Lists;
    if step == Send(m) {
      Visit(net.sendOrder[m], Servers(net.cfg, m), s.local[m].sent, n);
    }
  }

  lemma StepReceives(net: Net, s: State, step: Step, m: NodeId, n: NodeId)
    requires Shaped(net, s) && Enabled(net, s, step) && m in s.local && n in s.local
    requires InPhase(net, s, n) && InPhase(net, Next(net, s, step), n)
    ensures One(GotFrom(net, Next(net, s, step), n, m)) == One(GotFrom(net, s, n, m)) + One(Takes(net, s, step, m, n))
  {
    hide Servers, Clients, Next, Lists;
    if step == Receive(n) {
      Visit(net.recvOrder[n], Clients(net.cfg, n), s.local[n].received, m);
    }
  }

  lemma StepSurplus(net: Net, s: State, step: Step, m: NodeId, n: NodeId)
    requires Inv(net, s) && Enabled(net, s, step) && m in s.local && n in s.local
    requires Inv(net, Next(net, s, step))
    ensures InPhase(net, s, m) && InPhase(net, s, n)
    ensures InPhase(net, Next(net, s, step), m) && InPhase(net, Next(net, s, step), n)
    ensures Surplus(net, Next(net, s, step), m, n)
         == Surplus(net, s, m, n) + One(step.Resend? && Puts(net, s, step, m, n))
  {
    hide Servers, Clients, Next, Linked, InPhase, GotFrom, SentTo, State.Held, Enabled;
    StepHeld(net, s, step, m, n);
    StepSends(net, s, step, m, n);
    StepReceives(net, s, step, m, n);
  }

  lemma {:induction false} RunSurplus(net: Net, s: State, steps: seq<Step>, m: NodeId, n: NodeId)
    requires Inv(net, s) && CanRun(net, s, steps) && m in s.local && n in s.local
    ensures Inv(net, Exec(net, s, steps)) && InPhase(net, s, m) && InPhase(net, s, n)
    ensures InPhase(net, Exec(net, s, steps), m) && InPhase(net, Exec(net, s, steps), n)
    ensures Surplus(net, Exec(net, s, steps), m, n) == Surplus(net, s, m, n) + ResendsOn(net, s, steps, m, n)
    decreases steps
  {
    hide Surplus, Linked, InPhase, Next, Enabled, WellFormed, Puts;
    if steps != [] {
      StepInv(net, s, steps[0]);
      StepSurplus(net, s, steps[0], m, n);
      RunSurplus(net, Next(net, s, steps[0]), steps[1..], m, n);
    }
  }

  /**
   Conservation, over every run and between any two nodes: the flags queued, unread and read are the one whose send
   has succeeded, if the receiver keeps a mailbox for the sender, and one for each attempt that failed late.
   */
  lemma FlagsAreConserved(net: Net, steps: seq<Step>, m: NodeId, n: NodeId)
    requires WellFormed(net) && CanRun(net, Initial(net), steps) && m in net.cfg.taskNodes && n in net.cfg.taskNodes
    ensures var s := Exec(net, Initial(net), steps);
            && InPhase(net, s, m) && InPhase(net, s, n)
            && s.Queued(m, n) + s.Unread(m, n) + One(GotFrom(net, s, n, m))
               == One(SentTo(net, s, m, n) && m in Clients(net.cfg, n)) + ResendsOn(net, Initial(net), steps, m, n)
  {
    RunSurplus(net, Initial(net), steps, m, n);
    assert Surplus(net, Initial(net), m, n) == 0;
  }

  /** How many flags from `m` the worker of `n` wrote to the mailbox. */
  function WritesOn(steps: seq<Step>, m: NodeId, n: NodeId): (k: nat)
  {
    if steps == [] then 0 else One(steps[0] == Write(n, m)) + WritesOn(steps[1..], m, n)
  }

  /** Flags in the mailbox, unread or read. */
  ghost function InMailbox(net: Net, s: State, m: NodeId, n: NodeId): nat
    requires Shaped(net, s) && n in s.local && InPhase(net, s, n)
  {
    s.Unread(m, n) + One(GotFrom(net, s, n, m))
  }

  lemma {:induction false} RunDelivery(net: Net, s: State, steps: seq<Step>, m: NodeId, n: NodeId)
    requires Inv(net, s) && CanRun(net, s, steps) && m in s.local && n in s.local
    requires !net.async ==> s.Queued(m, n) == 0
    ensures Inv(net, Exec(net, s, steps)) && InPhase(net, s, n) && InPhase(net, Exec(net, s, steps), n)
    ensures net.async ==>
              InMailbox(net, Exec(net, s, steps), m, n) == InMailbox(net, s, m, n) + WritesOn(steps, m, n)
    ensures !net.async ==> Exec(net, s, steps).Queued(m, n) == 0 && WritesOn(steps, m, n) == 0
    decreases steps
  {
    hide Linked, InPhase, Next, Enabled, WellFormed, Puts, Takes, GotFrom, State.Unread, State.Queued;
    if steps != [] {
      StepInv(net, s, steps[0]);
      StepFlags(net, s, steps[0], m, n);
      StepReceives(net, s, steps[0], m, n);
      RunDelivery(net, Next(net, s, steps[0]), steps[1..], m, n);
    }
  }

  /** With asynchronous servers every flag in a mailbox was written there by the worker; otherwise no flag is queued. */
  lemma FlagsPassTheQueue(net: Net, steps: seq<Step>, m: NodeId, n: NodeId)
    requires WellFormed(net) && CanRun(net, Initial(net), steps) && m in net.cfg.taskNodes && n in net.cfg.taskNodes
    ensures var s := Exec(net, Initial(net), steps);
            && InPhase(net, s, n)
            && (net.async ==> s.Unread(m, n) + One(GotFrom(net, s, n, m)) == WritesOn(steps, m, n))
            && (!net.async ==> s.Queued(m, n) == 0)
  {
    RunDelivery(net, Initial(net), steps, m, n);
    assert InMailbox(net, Initial(net), m, n) == 0;
  }

  /** A node that is done has sent to all its servers and received from all its clients. */
  lemma DoneVisits(net: Net, s: State, n: NodeId, m: NodeId)
    requires Shaped(net, s) && n in s.local && Done(net, s, n)
    ensures SentTo(net, s, n, m) <==> m in Servers(net.cfg, n)
    ensures GotFrom(net, s, n, m) <==> m in Clients(net.cfg, n)
  {
    hide Servers, Clients;
    assert net.sendOrder[n][..s.local[n].sent] == net.sendOrder[n];
    assert net.recvOrder[n][..s.local[n].received] == net.recvOrder[n];
  }

  /**
   When start-up is done, the flags it leaves behind between two nodes are exactly its late failures there; so the
   mailboxes and queues are clean if and only if there was none.
   */
  lemma StrayFlags(net: Net, steps: seq<Step>, m: NodeId, n: NodeId)
    requires WellFormed(net) && CanRun(net, Initial(net), steps) && m in net.cfg.taskNodes && n in net.cfg.taskNodes
    requires AllDone(net, Exec(net, Initial(net), steps))
    ensures Exec(net, Initial(net), steps).Held(m, n) == ResendsOn(net, Initial(net), steps, m, n)
  {
    FlagsAreConserved(net, steps, m, n);
    ViewsAreDual(net.cfg, m, n);
    hide Servers, Clients, CanRun, Initial, ResendsOn, WellFormed, Done, InPhase, SentTo, GotFrom;
    var s := Exec(net, Initial(net), steps);
    DoneVisits(net, s, m, n);
    DoneVisits(net, s, n, m);
  }

  lemma TwoSteps(net: Net, s: State, a: Step, b: Step)
    requires Shaped(net, s) && Enabled(net, s, a) && Enabled(net, Next(net, s, a), b)
    ensures CanRun(net, s, [a, b]) && Exec(net, s, [a, b]) == Next(net, Next(net, s, a), b)
  {
    hide Next, Enabled, WellFormed;
    var s1 := Next(net, s, a);
    var s2 := Next(net, s1, b);
    assert [a, b][1..] == [b] && [b][1..] == [];
    assert CanRun(net, s2, []) && Exec(net, s2, []) == s2;
    assert CanRun(net, s1, [b]) && Exec(net, s1, [b]) == s2;
  }

  /** Any send may fail late once, and then succeed; the receiver is left with one flag more. */
  lemma LateFailureStrays(net: Net, s: State, m: NodeId)
    requires Shaped(net, s) && Enabled(net, s, Send(m))
    ensures var n, steps := net.sendOrder[m][s.local[m].sent], [Resend(m), Send(m)];
            && CanRun(net, s, steps)
            && Exec(net, s, steps).Held(m, n) == s.Held(m, n) + 2 * One(m in Clients(net.cfg, n))
            && Exec(net, s, steps).local == Next(net, s, Send(m)).local
  {
    var n, s1 := net.sendOrder[m][s.local[m].sent], Next(net, s, Resend(m));
    assert s1.local == s.local;
    assert Enabled(net, s1, Send(m)) && Puts(net, s, Resend(m), m, n) == Puts(net, s1, Send(m), m, n);
    hide Next, Enabled, Puts, Takes, Servers, Clients, State.Held;
    TwoSteps(net, s, Resend(m), Send(m));
    StepHeld(net, s, Resend(m), m, n);
    StepHeld(net, s1, Send(m), m, n);
  }

  // ---------- when start-up is over ----------

  lemma BarrierAt(net: Net, s: State, n: NodeId)
    requires Inv(net, s) && n in s.local && Done(net, s, n)
    ensures forall m :: m in Servers(net.cfg, n) ==> s.local[m].started && Clients(net.cfg, m) != {}
    ensures forall m :: m in Clients(net.cfg, n) ==> s.local[m].started && s.local[m].created
  {
    hide Servers, Clients, Lists, SentTo, GotFrom, Done;
    forall m | m in Servers(net.cfg, n)
      ensures s.local[m].started && Clients(net.cfg, m) != {}
    {
      DoneVisits(net, s, n, m);
      assert Linked(net, s, n, m);
    }
    forall m | m in Clients(net.cfg, n)
      ensures s.local[m].started && s.local[m].created
    {
      DoneVisits(net, s, n, m);
      assert Linked(net, s, m, n) && InPhase(net, s, m);
    }
  }

  /**
   Barrier: when `init` returns on a node, the server of each of its servers runs, and each of its clients has
   passed its own server-start and client-creation phases.
   */
  lemma InitIsBarrier(net: Net, steps: seq<Step>, n: NodeId)
    requires WellFormed(net) && CanRun(net, Initial(net), steps) && n in net.cfg.taskNodes
    requires Done(net, Exec(net, Initial(net), steps), n)
    ensures var s := Exec(net, Initial(net), steps);
            && (forall m :: m in Servers(net.cfg, n) ==> s.local[m].started && Clients(net.cfg, m) != {})
            && (forall m :: m in Clients(net.cfg, n) ==> s.local[m].started && s.local[m].created)
  {
    EveryRun(net, steps);
    BarrierAt(net, Exec(net, Initial(net), steps), n);
  }

  /** The work a node still has before its `init` returns; a send may leave a flag for a worker to write. */
  ghost function Left(net: Net, s: State, n: NodeId): nat
    requires Inv(net, s) && n in s.local
  {
    var l := s.local[n];
    assert InPhase(net, s, n);
    (if l.started then 0 else 1) + (if l.created then 0 else 1)
    + 2 * (|net.sendOrder[n]| - l.sent) + (|net.recvOrder[n]| - l.received)
  }

  ghost function LeftOn(net: Net, s: State): map<NodeId, nat>
    requires Inv(net, s)
  {
    map n | n in s.local :: Left(net, s, n)
  }

  /** One element per piece of work. */
  ghost function Units<T(!new)>(work: map<T, nat>): set<(T, nat)> {
    set x, k: nat | x in work && 0 <= k < work[x] :: (x, k)
  }

  lemma {:induction false} UnitsOf<T(!new)>(work: map<T, nat>, x: T, v: nat)
    ensures |Units(work[x := v])| == |Units(work[x := 0])| + v
  {
    if v > 0 {
      UnitsOf(work, x, v - 1);
      var less := Units(work[x := v - 1]);
      assert Units(work[x := v]) == less + {(x, v - 1)} && (x, v - 1) !in less;
    }
  }

  lemma UnitsUpdate<T(!new)>(work: map<T, nat>, x: T, v: nat)
    ensures |Units(work[x := v])| == |Units(work)| - (if x in work then work[x] else 0) + v
  {
    UnitsOf(work, x, v);
    if x in work {
      UnitsOf(work, x, work[x]);
      assert work[x := work[x]] == work;
    } else {
      assert Units(work[x := 0]) == Units(work);
    }
  }

  /** The work left anywhere, queued flags included. */
  ghost function Measure(net: Net, s: State): nat
    requires Inv(net, s)
  {
    |Units(LeftOn(net, s))| + |Units(s.queued)|
  }

  /** What a step takes off the work of its own node. */
  function Gain(step: Step): nat {
    if step.Resend? || step.Write? then 0 else if step.Send? then 2 else 1
  }

  lemma StepLeft(net: Net, s: State, step: Step, m: NodeId)
    requires Inv(net, s) && Enabled(net, s, step) && m in s.local
    requires Inv(net, Next(net, s, step))
    ensures Left(net, Next(net, s, step), m) == Left(net, s, m) - if m == step.n then Gain(step) else 0
  {
    hide Servers, Clients, Lists, Linked, Next;
    assert InPhase(net, s, m) && InPhase(net, Next(net, s, step), m);
  }

  lemma StepQueue(net: Net, s: State, step: Step)
    requires Shaped(net, s) && Enabled(net, s, step)
    ensures var before, after := |Units(s.queued)|, |Units(Next(net, s, step).queued)|;
            && (step.Write? ==> after == before - 1)
            && (step.Send? || step.Resend? ==> after <= before + 1)
            && (step.Start? || step.Create? || step.Receive? ==> after == before)
  {
    hide Servers, Clients, Lists, Units;
    match step
    case Write(n, m) => UnitsUpdate(s.queued, (m, n), s.Queued(m, n) - 1);
    case Send(n) =>
      var to := net.sendOrder[n][s.local[n].sent];
      UnitsUpdate(s.queued, (n, to), s.Queued(n, to) + 1);
    case Resend(n) =>
      var to := net.sendOrder[n][s.local[n].sent];
      UnitsUpdate(s.queued, (n, to), s.Queued(n, to) + 1);
    case _ =>
  }

  lemma LeftStep(net: Net, s: State, s': State, step: Step)
    requires Inv(net, s) && Inv(net, s') && s'.local.Keys == s.local.Keys && step.n in s.local
    requires forall m :: m in s.local ==>
               Left(net, s', m) == Left(net, s, m) - if m == step.n then Gain(step) else 0
    ensures |Units(LeftOn(net, s'))| == |Units(LeftOn(net, s))| - Gain(step)
  {
    hide Inv, Left, Units, Gain;
    assert LeftOn(net, s') == LeftOn(net, s)[step.n := Left(net, s', step.n)];
    UnitsUpdate(LeftOn(net, s), step.n, Left(net, s', step.n));
  }

  /** Every step decreases the measure, except a repeated send, which adds at most one flag to write. */
  lemma StepMeasure(net: Net, s: State, step: Step)
    requires Inv(net, s) && Enabled(net, s, step)
    ensures Inv(net, Next(net, s, step))
    ensures Measure(net, Next(net, s, step)) <= Measure(net, s) + if step.Resend? then 1 else -1
  {
    hide Servers, Clients, Lists, Linked, InPhase, Next, Left, Units, LeftOn, WellFormed;
    StepInv(net, s, step);
    StepQueue(net, s, step);
    var s' := Next(net, s, step);
    forall m | m in s.local
      ensures Left(net, s', m) == Left(net, s, m) - if m == step.n then Gain(step) else 0
    {
      StepLeft(net, s, step, m);
    }
    LeftStep(net, s, s', step);
  }

  function Resends(steps: seq<Step>): (n: nat)
    ensures n <= |steps|
    ensures (forall k :: 0 <= k < |steps| ==> !steps[k].Resend?) ==> n == 0
  {
    if steps == [] then 0 else (if steps[0].Resend? then 1 else 0) + Resends(steps[1..])
  }

  lemma {:induction false} RunMeasure(net: Net, s: State, steps: seq<Step>)
    requires Inv(net, s) && CanRun(net, s, steps)
    ensures Inv(net, Exec(net, s, steps))
    ensures |steps| + Measure(net, Exec(net, s, steps)) <= Measure(net, s) + 2 * Resends(steps)
    decreases steps
  {
    hide Measure, Enabled, Next, WellFormed, InPhase, Linked;
    if steps != [] {
      StepMeasure(net, s, steps[0]);
      RunMeasure(net, Next(net, s, steps[0]), steps[1..]);
    }
  }

  /** A call of `n` on itself completes: it has another client, and its server answers strangers. */
  ghost predicate SelfDialAnswered(net: Net, n: NodeId) {
    Clients(net.cfg, n) != {} && !net.async
  }

  /** Every node that dials itself gets an answer. */
  ghost predicate SelfDialsAnswered(net: Net) {
    forall n :: n in net.cfg.taskNodes && n in Servers(net.cfg, n) ==> SelfDialAnswered(net, n)
  }

  /** In full mesh, and under any policy without self-loops, no node dials itself. */
  lemma NoSelfLoopsSuffice(net: Net)
    requires net.cfg.policy == map[] || forall n :: n in net.cfg.policy ==> n !in net.cfg.policy[n]
    ensures SelfDialsAnswered(net)
  {
  }

  /** Once every node has started, no send can block. */
  lemma SendNotBlocked(net: Net, s: State, n: NodeId)
    requires Inv(net, s) && SelfDialsAnswered(net)
    requires forall m :: m in s.local ==> s.local[m].started && s.local[m].created
    requires n in s.local && s.local[n].sent < |net.sendOrder[n]|
    ensures Enabled(net, s, Send(n))
  {
    var to := net.sendOrder[n][s.local[n].sent];
    assert to in net.sendOrder[n];
    if to != n {
      ViewsAreDual(net.cfg, n, to);
    }
  }

  /** Once every node has sent its flags, no receive can block for longer than a worker takes to write the flag. */
  lemma ReceiveNotBlocked(net: Net, s: State, n: NodeId)
    requires Inv(net, s)
    requires forall m :: m in s.local ==> s.local[m].created && s.local[m].sent == |net.sendOrder[m]|
    requires n in s.local && s.local[n].received < |net.recvOrder[n]|
    ensures Enabled(net, s, Receive(n)) || Enabled(net, s, Write(n, net.recvOrder[n][s.local[n].received]))
  {
    var k := s.local[n].received;
    var from := net.recvOrder[n][k];
    assert from in net.recvOrder[n];
    ViewsAreDual(net.cfg, from, n);
    assert net.sendOrder[from][..s.local[from].sent] == net.sendOrder[from];
    assert Linked(net, s, from, n) && SentTo(net, s, from, n);
  }

  /** Deadlock freedom: every unfinished state that satisfies the invariant has a step that makes progress. */
  lemma Progress(net: Net, s: State) returns (step: Step)
    requires Inv(net, s) && SelfDialsAnswered(net) && !AllDone(net, s)
    ensures Enabled(net, s, step) && !step.Resend?
  {
    if n :| n in s.local && !s.local[n].started {
      step := Start(n);
    } else if n :| n in s.local && !s.local[n].created {
      step := Create(n);
    } else if n :| n in s.local && s.local[n].sent < |net.sendOrder[n]| {
      SendNotBlocked(net, s, n);
      step := Send(n);
    } else {
      var n :| n in s.local && !Done(net, s, n);
      assert forall m :: m in s.local ==> InPhase(net, s, m);
      ReceiveNotBlocked(net, s, n);
      step := if Enabled(net, s, Receive(n)) then Receive(n) else Write(n, net.recvOrder[n][s.local[n].received]);
    }
  }

  /** Nothing can happen any more. */
  ghost predicate AtRest(net: Net, s: State)
    requires Shaped(net, s)
  {
    forall step :: !Enabled(net, s, step)
  }

  /** Letting steps happen, in whatever order, comes to rest. */
  lemma {:induction false} ComesToRest(net: Net, s: State) returns (steps: seq<Step>)
    requires Inv(net, s)
    ensures CanRun(net, s, steps) && AtRest(net, Exec(net, s, steps))
    decreases Measure(net, s)
  {
    hide Measure, Next, Servers, Clients, Linked, InPhase;
    if AtRest(net, s) {
      steps := [];
    } else {
      var step := UsefulStep(net, s);
      StepMeasure(net, s, step);
      var rest := ComesToRest(net, Next(net, s, step));
      steps := [step] + rest;
      assert steps[1..] == rest;
    }
  }

  /** Whenever anything can happen, so can something other than a repeated send. */
  lemma UsefulStep(net: Net, s: State) returns (step: Step)
    requires Shaped(net, s) && !AtRest(net, s)
    ensures Enabled(net, s, step) && !step.Resend?
  {
    hide Servers, Clients, Lists;
    step :| Enabled(net, s, step);
    if step.Resend? {
      step := Send(step.n);
    }
  }

  /** At rest, every node is done. */
  lemma RestIsDone(net: Net, s: State)
    requires Inv(net, s) && SelfDialsAnswered(net) && AtRest(net, s)
    ensures AllDone(net, s)
  {
    if !AllDone(net, s) {
      var step := Progress(net, s);
      assert false;
    }
  }

  /** Node `n` has not got past its own entry in its list of servers. */
  ghost predicate BeforeSelf(net: Net, s: State, n: NodeId)
    requires Shaped(net, s) && n in s.local
  {
    s.local[n].sent <= |net.sendOrder[n]| && n !in net.sendOrder[n][..s.local[n].sent]
  }

  lemma SelfDialBlocksStep(net: Net, s: State, step: Step, n: NodeId)
    requires Shaped(net, s) && Enabled(net, s, step) && n in s.local && BeforeSelf(net, s, n)
    requires !SelfDialAnswered(net, n)
    ensures BeforeSelf(net, Next(net, s, step), n)
  {
    hide Servers, Lists, Next;
    if step == Send(n) {
      var k := s.local[n].sent;
      assert n !in Clients(net.cfg, n) && net.sendOrder[n][k] != n;
      hide Clients;
      assert net.sendOrder[n][..k + 1] == net.sendOrder[n][..k] + [net.sendOrder[n][k]];
    } else {
      hide Clients, Enabled;
      assert Next(net, s, step).local[n].sent == s.local[n].sent;
    }
  }

  /** A node whose self-dial is never answered never gets past it, in any run. */
  lemma {:induction false} SelfDialBlocks(net: Net, s: State, steps: seq<Step>, n: NodeId)
    requires Shaped(net, s) && CanRun(net, s, steps) && n in s.local && BeforeSelf(net, s, n)
    requires !SelfDialAnswered(net, n)
    ensures BeforeSelf(net, Exec(net, s, steps), n)
    decreases steps
  {
    if steps != [] {
      SelfDialBlocksStep(net, s, steps[0], n);
      SelfDialBlocks(net, Next(net, s, steps[0]), steps[1..], n);
    }
  }

  lemma SelfDialNeverDone(net: Net, steps: seq<Step>, n: NodeId)
    requires WellFormed(net) && CanRun(net, Initial(net), steps)
    requires n in net.cfg.taskNodes && n in Servers(net.cfg, n) && !SelfDialAnswered(net, n)
    ensures !AllDone(net, Exec(net, Initial(net), steps))
  {
    SelfDialBlocks(net, Initial(net), steps, n);
    var s := Exec(net, Initial(net), steps);
    var order := net.sendOrder[n];
    assert order[..|order|] == order;
    assert !Done(net, s, n);
  }

  ghost predicate Completes(net: Net, steps: seq<Step>)
    requires WellFormed(net)
  {
    CanRun(net, Initial(net), steps) && AllDone(net, Exec(net, Initial(net), steps))
  }

  /** A run that cannot go on. */
  ghost predicate IsMaximal(net: Net, steps: seq<Step>)
    requires WellFormed(net)
  {
    CanRun(net, Initial(net), steps) && AtRest(net, Exec(net, Initial(net), steps))
  }

  /**
   Start-up completes on all nodes if and only if every node that dials itself gets an answer: then every run that
   cannot go on has completed, and otherwise no run at all completes.
   */
  lemma StartupCompletes(net: Net)
    requires WellFormed(net)
    ensures SelfDialsAnswered(net) <==> exists steps :: Completes(net, steps)
    ensures SelfDialsAnswered(net) <==> forall steps :: IsMaximal(net, steps) ==> Completes(net, steps)
  {
    var last := ComesToRest(net, Initial(net));
    assert IsMaximal(net, last);
    if SelfDialsAnswered(net) {
      forall steps | IsMaximal(net, steps)
        ensures Completes(net, steps)
      {
        EveryRun(net, steps);
        RestIsDone(net, Exec(net, Initial(net), steps));
      }
    } else {
      var n :| n in net.cfg.taskNodes && n in Servers(net.cfg, n) && !SelfDialAnswered(net, n);
      forall steps | CanRun(net, Initial(net), steps)
        ensures !Completes(net, steps)
      {
        SelfDialNeverDone(net, steps, n);
      }
    }
  }

  /**
   No schedule goes on for ever without repeated sends: over every run the number of steps is bounded by the work
   there was at first and twice the number of repeated sends.
   */
  lemma RunsAreBounded(net: Net, steps: seq<Step>)
    requires WellFormed(net) && CanRun(net, Initial(net), steps)
    ensures Inv(net, Initial(net)) && Inv(net, Exec(net, Initial(net), steps))
    ensures |steps| + Measure(net, Exec(net, Initial(net), steps)) <= Measure(net, Initial(net)) + 2 * Resends(steps)
  {
    RunMeasure(net, Initial(net), steps);
  }

  /** Over every run, an unfinished state is never stuck: some step is possible that decreases the measure. */
  lemma NeverDeadlocks(net: Net, steps: seq<Step>) returns (step: Step)
    requires WellFormed(net) && SelfDialsAnswered(net) && CanRun(net, Initial(net), steps)
    requires !AllDone(net, Exec(net, Initial(net), steps))
    ensures var s := Exec(net, Initial(net), steps);
            && Inv(net, s) && Enabled(net, s, step) && Inv(net, Next(net, s, step))
            && Measure(net, Next(net, s, step)) < Measure(net, s)
  {
    EveryRun(net, steps);
    step := Progress(net, Exec(net, Initial(net), steps));
    StepMeasure(net, Exec(net, Initial(net), steps), step);
  }
}
