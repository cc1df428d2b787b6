/**
 The asynchronous server's work queue: a monitor around a list of accepted calls, one worker thread that writes
 them to the mailbox, and a completion callback per call.

 `Monitor` is the monitor as a state machine over all interleavings of callers, worker, destroyer and receivers;
 `WorkQueue` is the object whose methods are proved to take exactly those steps.
 */
module WorkQueues {
  import opened Bytes
  import opened Mailbox
  import opened Connections

  datatype Entry = Entry(call: nat, id: MsgId, data: Message)

  datatype Answer = Response | Exception

  datatype Completion = Completion(call: nat, answer: Answer)

  /** The worker owns the monitor while `Holding`; `Parked` is `wait`, `signalled` once a `notify` reached it. */
  datatype Worker = NotStarted | Holding | Parked(signalled: bool) | Exited {
    function Notify(): Worker {
      if Parked? then Parked(true) else this
    }
  }

  datatype Monitor = Monitor(
    done: bool,
    callbacks: seq<Entry>,
    worker: Worker,
    issued: seq<Entry>,       // every call of add, in order
    accepted: seq<Entry>,     // those that were queued
    written: seq<Entry>,      // those the worker has written to the mailbox
    completions: seq<Completion>,
    box: Box,
    ops: seq<Op>,             // what has been done to the mailbox
    replies: seq<Option<Message>>)

  datatype Step =
    | Add(entry: Entry)
    | Destroy
    | Start
    | Wake
    | Take
    | Park
    | Exit
    | Receive(id: MsgId, len: nat)

  function Initial(build: Build): Monitor {
    Monitor(false, [], NotStarted, [], [], [], [], Empty(build), [], [])
  }

  predicate Issued(q: Monitor, call: nat) {
    exists i :: 0 <= i < |q.issued| && q.issued[i].call == call
  }

  /** Callers and the destroyer need the monitor, which the worker gives up only by waiting. */
  predicate Enabled(q: Monitor, step: Step) {
    match step
    case Add(e) => !q.worker.Holding? && !Issued(q, e.call)
    case Destroy => !q.worker.Holding?
    case Start => q.worker.NotStarted?
    case Wake => q.worker.Parked?
    case Take => q.worker.Holding? && !q.done && q.callbacks != []
    case Park => q.worker.Holding? && !q.done && q.callbacks == []
    case Exit => q.worker.Holding? && q.done
    case Receive(_, _) => true
  }

  /** The completions the exit loop issues for whatever is still queued. */
  function Refusals(entries: seq<Entry>): seq<Completion> {
    if entries == [] then []
    else Refusals(entries[..|entries| - 1]) + [Completion(entries[|entries| - 1].call, Exception)]
  }

  lemma {:induction false} RefusalsAre(entries: seq<Entry>)
    ensures |Refusals(entries)| == |entries|
    ensures forall i :: 0 <= i < |entries| ==> Refusals(entries)[i] == Completion(entries[i].call, Exception)
  {
    if entries != [] {
      RefusalsAre(entries[..|entries| - 1]);
    }
  }

  function Next(q: Monitor, step: Step): Monitor
    requires Enabled(q, step)
  {
    match step
    case Add(e) =>
      if q.done then
        q.(issued := q.issued + [e], completions := q.completions + [Completion(e.call, Exception)])
      else
        q.(issued := q.issued + [e],
           completions := q.completions + [Completion(e.call, Response)],
           worker := if q.callbacks == [] then q.worker.Notify() else q.worker,
           callbacks := q.callbacks + [e],
           accepted := q.accepted + [e])
    case Destroy => q.(done := true, callbacks := [], worker := q.worker.Notify())
    case Start => q.(worker := Holding)
    case Wake => q.(worker := Holding)
    case Take =>
      var e := q.callbacks[0];
      q.(callbacks := q.callbacks[1..],
         written := q.written + [e],
         box := q.box.Write(e.id, e.data),
         ops := q.ops + [Write(e.id, e.data)],
         replies := q.replies + [None])
    case Park => q.(worker := Parked(false))
    case Exit => q.(worker := Exited, completions := q.completions + Refusals(q.callbacks))
    case Receive(id, len) =>
      q.(box := q.box.Receive(id, len),
         ops := q.ops + [Recv(id, len)],
         replies := q.replies + [q.box.Reply(id, len)])
  }

  predicate CanRun(q: Monitor, steps: seq<Step>)
    decreases steps
  {
    steps == [] || (Enabled(q, steps[0]) && CanRun(Next(q, steps[0]), steps[1..]))
  }

  function Exec(q: Monitor, steps: seq<Step>): Monitor
    requires CanRun(q, steps)
    decreases steps
  {
    if steps == [] then q else Exec(Next(q, steps[0]), steps[1..])
  }

  /** The messages the calls carry, in order. */
  function Messages(entries: seq<Entry>): (ms: seq<Msg>)
    ensures |ms| == |entries|
  {
    seq(|entries|, i requires 0 <= i < |entries| => Msg(entries[i].id, entries[i].data))
  }

  /** How often a call has been answered. */
  function Answers(cs: seq<Completion>, call: nat): (n: nat)
  {
    if cs == [] then 0
    else Answers(cs[..|cs| - 1], call) + if cs[|cs| - 1].call == call then 1 else 0
  }

  ghost predicate Distinct(entries: seq<Entry>) {
    forall i, j :: 0 <= i < j < |entries| ==> entries[i].call != entries[j].call
  }

  /** A destroyed queue is empty, and a worker parked without a signal has nothing to do. */
  ghost predicate Alert(q: Monitor) {
    && (q.done ==> q.callbacks == [])
    && (q.worker == Parked(false) ==> q.callbacks == [] && !q.done)
    && (q.worker.Exited? ==> q.done)
  }

  /**
   The k-th completion answers the k-th call. The accepted calls are the first ones, all of them while the queue lives,
   and they are the ones that got a response.
   */
  ghost predicate AnsweredInOrder(q: Monitor) {
    && |q.completions| == |q.issued|
    && Distinct(q.issued)
    && q.accepted <= q.issued && (!q.done ==> q.accepted == q.issued)
    && (forall k :: 0 <= k < |q.issued| ==> q.completions[k].call == q.issued[k].call)
    && (forall k :: 0 <= k < |q.issued| ==> (q.completions[k].answer.Response? <==> k < |q.accepted|))
  }

  /** Written and queued entries are the accepted ones, in order; destroying the queue cuts off a tail. */
  ghost predicate InOrder(q: Monitor) {
    if q.done then q.written <= q.accepted else q.written + q.callbacks == q.accepted
  }

  /** The mailbox is a run of the synchronous server that dispatched exactly the written entries. */
  ghost predicate Refines(q: Monitor, build: Build) {
    && q.box == After(Empty(build), q.ops)
    && q.replies == Outputs(Empty(build), q.ops)
    && Written(q.ops) == Messages(q.written)
  }

  ghost predicate Inv(q: Monitor, build: Build) {
    Alert(q) && AnsweredInOrder(q) && InOrder(q) && Refines(q, build)
  }

  lemma StepAlert(q: Monitor, step: Step)
    requires Alert(q) && Enabled(q, step)
    ensures Alert(Next(q, step))
  {
  }

  /** The exit loop finds an empty list, so it never answers a call a second time. */
  lemma StepAnswers(q: Monitor, step: Step)
    requires Alert(q) && AnsweredInOrder(q) && Enabled(q, step)
    ensures AnsweredInOrder(Next(q, step))
  {
    if step.Add? {
      forall i | 0 <= i < |q.issued|
        ensures q.issued[i].call != step.entry.call
      {
      }
    } else {
      assert step.Exit? ==> q.completions + Refusals(q.callbacks) == q.completions;
    }
  }

  lemma StepInOrder(q: Monitor, step: Step)
    requires Alert(q) && InOrder(q) && Enabled(q, step)
    ensures InOrder(Next(q, step))
  {
  }

  lemma StepRefines(q: Monitor, step: Step, build: Build)
    requires Refines(q, build) && Enabled(q, step)
    ensures Refines(Next(q, step), build)
  {
    var q' := Next(q, step);
    if q'.ops != q.ops {
      assert q'.ops[..|q'.ops| - 1] == q.ops;
    }
    if step.Take? {
      assert Messages(q'.written) == Messages(q.written) + [Msg(q.callbacks[0].id, q.callbacks[0].data)];
    }
  }

  lemma StepKeepsInv(q: Monitor, step: Step, build: Build)
    requires Inv(q, build) && Enabled(q, step)
    ensures Inv(Next(q, step), build)
  {
    StepAlert(q, step);
    StepAnswers(q, step);
    StepInOrder(q, step);
    StepRefines(q, step, build);
  }

  lemma {:induction false} RunKeepsInv(q: Monitor, steps: seq<Step>, build: Build)
    requires Inv(q, build) && CanRun(q, steps)
    ensures Inv(Exec(q, steps), build)
    decreases steps
  {
    if steps != [] {
      StepKeepsInv(q, steps[0], build);
      RunKeepsInv(Next(q, steps[0]), steps[1..], build);
    }
  }

  /** Reachable states keep the invariant. */
  lemma EveryRun(build: Build, steps: seq<Step>)
    requires CanRun(Initial(build), steps)
    ensures Inv(Exec(Initial(build), steps), build)
  {
    RunKeepsInv(Initial(build), steps, build);
  }

  /** The calls made by a run, in order. */
  function Calls(steps: seq<Step>): (entries: seq<Entry>)
  {
    if steps == [] then [] else (if steps[0].Add? then [steps[0].entry] else []) + Calls(steps[1..])
  }

  /** The part of a run before the queue is destroyed. */
  function Lifetime(steps: seq<Step>): (some: seq<Step>)
    ensures some <= steps
  {
    if steps == [] || steps[0].Destroy? then [] else [steps[0]] + Lifetime(steps[1..])
  }

  /** The receives of a run, in order. */
  function Receives(steps: seq<Step>): (ops: seq<Op>)
  {
    if steps == [] then []
    else (if steps[0].Receive? then [Recv(steps[0].id, steps[0].len)] else []) + Receives(steps[1..])
  }

  lemma StepRecords(q: Monitor, step: Step)
    requires Enabled(q, step)
    ensures var q' := Next(q, step);
            && q'.issued == q.issued + (if step.Add? then [step.entry] else [])
            && q'.accepted == q.accepted + (if step.Add? && !q.done then [step.entry] else [])
            && (q'.done <==> q.done || step.Destroy?)
            && Asked(q'.ops) == Asked(q.ops) + (if step.Receive? then [Recv(step.id, step.len)] else [])
  {
    var q' := Next(q, step);
    if q'.ops != q.ops {
      AskedStep(q.ops, q'.ops[|q.ops|]);
    }
  }

  lemma {:induction false} RunRecords(q: Monitor, steps: seq<Step>)
    requires CanRun(q, steps)
    ensures Exec(q, steps).issued == q.issued + Calls(steps)
    ensures Asked(Exec(q, steps).ops) == Asked(q.ops) + Receives(steps)
    decreases steps
  {
    hide Next, Enabled, Asked;
    if steps != [] {
      StepRecords(q, steps[0]);
      RunRecords(Next(q, steps[0]), steps[1..]);
    }
  }

  lemma {:induction false} CallsInLife(steps: seq<Step>)
    requires steps != []
    ensures Calls(Lifetime(steps))
         == if steps[0].Destroy? then []
            else (if steps[0].Add? then [steps[0].entry] else []) + Calls(Lifetime(steps[1..]))
  {
    if !steps[0].Destroy? {
      assert Lifetime(steps)[1..] == Lifetime(steps[1..]);
    }
  }

  lemma {:induction false} DoneAcceptsNone(q: Monitor, steps: seq<Step>)
    requires CanRun(q, steps) && q.done
    ensures Exec(q, steps).accepted == q.accepted
    decreases steps
  {
    hide Next, Enabled, Asked;
    if steps != [] {
      StepRecords(q, steps[0]);
      DoneAcceptsNone(Next(q, steps[0]), steps[1..]);
    }
  }

  lemma {:induction false} RunAccepted(q: Monitor, steps: seq<Step>)
    requires CanRun(q, steps) && !q.done
    ensures Exec(q, steps).accepted == q.accepted + Calls(Lifetime(steps))
    decreases steps
  {
    if steps == [] {
      assert Calls(Lifetime(steps)) == [];
    } else {
      hide Next, Enabled, Asked, Calls, Lifetime;
      var next, rest := Next(q, steps[0]), steps[1..];
      assert CanRun(next, rest) && Exec(q, steps) == Exec(next, rest);
      hide CanRun, Exec;
      StepRecords(q, steps[0]);
      CallsInLife(steps);
      if steps[0].Destroy? {
        DoneAcceptsNone(next, rest);
      } else {
        RunAccepted(next, rest);
        Associative(q.accepted, if steps[0].Add? then [steps[0].entry] else [], Calls(Lifetime(rest)));
      }
    }
  }

  /** The answers to the calls of a run, of which `accepted` were accepted. */
  ghost predicate Answered(q: Monitor, steps: seq<Step>) {
    && q.issued == Calls(steps)
    && q.accepted == Calls(Lifetime(steps))
    && |q.completions| == |q.issued|
    && (forall k :: 0 <= k < |q.issued| ==>
          q.completions[k] == Completion(q.issued[k].call, if k < |q.accepted| then Response else Exception))
  }

  /**
   Exactly the calls made before the queue is destroyed are accepted, and get a response; the later ones get an
   exception. Receivers of the mailbox are heard in order.
   */
  lemma {:induction false} AcceptedUntilDestroyed(build: Build, steps: seq<Step>)
    requires CanRun(Initial(build), steps)
    ensures Answered(Exec(Initial(build), steps), steps)
    ensures Asked(Exec(Initial(build), steps).ops) == Receives(steps)
  {
    hide Calls, Lifetime, Receives, Alert, InOrder, Refines, CanRun, Exec;
    RunRecords(Initial(build), steps);
    RunAccepted(Initial(build), steps);
    EveryRun(build, steps);
  }

  lemma {:induction false} CountAnswers(cs: seq<Completion>, issued: seq<Entry>, call: nat)
    requires |cs| == |issued| && Distinct(issued)
    requires forall k :: 0 <= k < |cs| ==> cs[k].call == issued[k].call
    ensures Answers(cs, call) == if exists i :: 0 <= i < |issued| && issued[i].call == call then 1 else 0
  {
    if cs != [] {
      var last := |cs| - 1;
      CountAnswers(cs[..last], issued[..last], call);
      if i :| 0 <= i < |issued[..last]| && issued[..last][i].call == call {
        assert issued[i].call != issued[last].call;
      }
      if i :| 0 <= i < |issued| && issued[i].call == call {
        assert i < last ==> issued[..last][i].call == call;
      }
    }
  }

  /** Over every run, each call made, accepted or refused, has been answered exactly once, and no other call at all. */
  lemma AnsweredExactlyOnce(build: Build, steps: seq<Step>, call: nat)
    requires CanRun(Initial(build), steps)
    ensures var q := Exec(Initial(build), steps);
            Answers(q.completions, call) == if Issued(q, call) then 1 else 0
  {
    EveryRun(build, steps);
    var q := Exec(Initial(build), steps);
    CountAnswers(q.completions, q.issued, call);
  }

  /**
   The asynchronous server refines the synchronous one: what receivers see is the run `ops` of a server that
   writes at once. Across all message ids its writes followed by the queued messages are the accepted messages in
   order, or, once the queue has been destroyed, the writes are a prefix of them; and so it is for each id.
   */
  lemma AsyncRefinesSync(build: Build, steps: seq<Step>, id: MsgId)
    requires CanRun(Initial(build), steps)
    ensures var q := Exec(Initial(build), steps);
            && q.replies == Outputs(Empty(build), q.ops)
            && Written(q.ops) <= Messages(q.accepted)
            && Writes(q.ops, id) <= Project(Messages(q.accepted), id)
            && (!q.done ==>
                  && Written(q.ops) + Messages(q.callbacks) == Messages(q.accepted)
                  && Writes(q.ops, id) + Project(Messages(q.callbacks), id) == Project(Messages(q.accepted), id))
  {
    EveryRun(build, steps);
    var q := Exec(Initial(build), steps);
    var rest := q.accepted[|q.written|..];
    assert q.accepted == q.written + rest;
    assert Messages(q.accepted) == Messages(q.written) + Messages(rest);
    ProjectAppend(Messages(q.written), Messages(rest), id);
    assert !q.done ==> rest == q.callbacks;
  }

  function Burst(entries: seq<Entry>): (steps: seq<Step>)
    ensures |steps| == |entries|
  {
    seq(|entries|, i requires 0 <= i < |entries| => Add(entries[i]))
  }

  /**
   While the worker waits, any number of new calls come in one after the other; a live queue takes them all, in order,
   and a destroyed one none of them.
   */
  lemma {:induction false} BurstGetsIn(q: Monitor, entries: seq<Entry>)
    requires !q.worker.Holding? && Distinct(entries)
    requires forall i :: 0 <= i < |entries| ==> !Issued(q, entries[i].call)
    ensures CanRun(q, Burst(entries))
    ensures Exec(q, Burst(entries)).callbacks == q.callbacks + if q.done then [] else entries
    decreases entries
  {
    if entries != [] {
      var e, rest := entries[0], entries[1..];
      var next := Next(q, Add(e));
      forall i | 0 <= i < |rest|
        ensures !Issued(next, rest[i].call)
      {
        assert rest[i] == entries[i + 1];
      }
      assert Burst(entries)[1..] == Burst(rest);
      BurstGetsIn(next, rest);
    }
  }

  /** A receiver never waits for the queue: in any state it gets the mailbox's reply. */
  lemma ReceiversNeverBlock(q: Monitor, id: MsgId, len: nat)
    ensures Enabled(q, Receive(id, len))
    ensures Next(q, Receive(id, len)).replies == q.replies + [q.box.Reply(id, len)]
    ensures Next(q, Receive(id, len)).callbacks == q.callbacks
  {
  }

  /** From any state in which the worker waits, destroying the queue makes it end, with nothing left to answer. */
  lemma QueueShutsDown(q: Monitor)
    requires q.worker.Parked?
    ensures var steps := [Destroy, Wake, Exit];
            CanRun(q, steps) && Exec(q, steps).worker.Exited? && Exec(q, steps).completions == q.completions
  {
    var steps := [Destroy, Wake, Exit];
    var q1 := Next(q, Destroy);
    var q2 := Next(q1, Wake);
    var q3 := Next(q2, Exit);
    assert steps[1..] == [Wake, Exit] && steps[1..][1..] == [Exit] && steps[1..][1..][1..] == [];
    assert CanRun(q2, [Exit]) && Exec(q2, [Exit]) == q3;
    assert CanRun(q1, [Wake, Exit]) && Exec(q1, [Wake, Exit]) == q3;
  }

  /** What the worker does next when left alone: go to the list, write everything, wait. */
  function WorkerTurn(q: Monitor): (steps: seq<Step>)
    requires !q.worker.Exited?
  {
    (if q.worker.NotStarted? then [Start] else if q.worker.Parked? then [Wake] else [])
    + seq(|q.callbacks|, _ => Take)
    + [if q.done then Exit else Park]
  }

  lemma {:induction false} TakeAll(q: Monitor)
    requires q.worker.Holding? && !q.done
    ensures var steps := seq(|q.callbacks|, _ => Take) + [Park];
            CanRun(q, steps) && Exec(q, steps).callbacks == [] && Exec(q, steps).worker == Parked(false)
            && !Exec(q, steps).done && Exec(q, steps).accepted == q.accepted
    decreases q.callbacks
  {
    var steps := seq(|q.callbacks|, _ => Take) + [Park];
    if q.callbacks == [] {
      assert steps[1..] == [];
    } else {
      assert steps[1..] == seq(|q.callbacks| - 1, _ => Take) + [Park];
      TakeAll(Next(q, Take));
    }
  }

  /**
   Progress: from every reachable state of a live queue the worker, left alone, empties the list, and by then
   every accepted message has been written. It never depends on a spurious wake-up: if there is anything to do,
   a parked worker has been signalled.
   */
  lemma WorkerEmptiesQueue(build: Build, steps: seq<Step>)
    requires CanRun(Initial(build), steps)
    requires !Exec(Initial(build), steps).done
    ensures var q := Exec(Initial(build), steps);
            && !q.worker.Exited?
            && (q.callbacks != [] ==> q.worker != Parked(false))
            && CanRun(q, WorkerTurn(q))
            && var q' := Exec(q, WorkerTurn(q)); q'.callbacks == [] && q'.written == q.accepted
  {
    EveryRun(build, steps);
    var q := Exec(Initial(build), steps);
    var turn, work := WorkerTurn(q), seq(|q.callbacks|, _ => Take) + [Park];
    if q.worker.Holding? {
      assert turn == work;
      TakeAll(q);
    } else {
      var first := if q.worker.NotStarted? then Start else Wake;
      assert turn == [first] + work && turn[1..] == work;
      TakeAll(Next(q, first));
    }
    RunKeepsInv(q, turn, build);
  }

  class WorkQueue {
    var done: bool
    var callbacks: seq<Entry>
    var completions: seq<Completion>
    const connection: QueuedConnection
    /** The monitor this object is, with its history. */
    ghost var q: Monitor

    ghost predicate Valid()
      reads this, connection
    {
      && q.done == done && q.callbacks == callbacks && q.completions == completions
      && q.box == connection.View()
      && Inv(q, Queued)
    }

    constructor (conn: QueuedConnection)
      requires conn.View() == Empty(Queued)
      ensures Valid() && connection == conn && q == Initial(Queued)
    {
      done, callbacks, completions := false, [], [];
      connection := conn;
      q := Initial(Queued);
    }

    /** `notified` tells whether `_monitor.notify()` was called. */
    method Enqueue(call: nat, id: MsgId, data: Message) returns (notified: bool)
      requires Valid() && Enabled(q, Add(Entry(call, id, data)))
      modifies this
      ensures Valid() && q == Next(old(q), Add(Entry(call, id, data)))
      ensures notified <==> !done && old(callbacks) == []
    {
      var entry := Entry(call, id, data);
      StepKeepsInv(q, Add(entry), Queued);
      q := Next(q, Add(entry));
      notified := false;
      if !done {
        completions := completions + [Completion(call, Response)];
        if |callbacks| == 0 {
          notified := true;
        }
        callbacks := callbacks + [entry];
      } else {
        completions := completions + [Completion(call, Exception)];
      }
    }

    method Destroy()
      requires Valid() && Enabled(q, Step.Destroy)
      modifies this
      ensures Valid() && q == Next(old(q), Step.Destroy)
    {
      StepKeepsInv(q, Step.Destroy, Queued);
      q := Next(q, Step.Destroy);
      done := true;
      callbacks := [];
    }

    /** One turn of `run`: from taking the monitor to the next `wait`, or to the end of the thread. */
    method Turn() returns (ended: bool)
      requires Valid() && (q.worker.NotStarted? || q.worker.Parked?)
      modifies this, connection
      ensures Valid()
      ensures ended == old(done)
      ensures callbacks == [] && completions == old(completions)
      ensures q.worker == if ended then Exited else Parked(false)
      ensures q.written == old(q.written) + old(callbacks)
      ensures q.issued == old(q.issued) && q.accepted == old(q.accepted)
    {
      hide AnsweredInOrder, InOrder, Refines;
      ghost var first := if q.worker.NotStarted? then Start else Wake;
      StepKeepsInv(q, first, Queued);
      q := Next(q, first);
      while !done && |callbacks| != 0
        invariant Valid() && q.worker.Holding? && done == old(done)
        invariant q.written + callbacks == old(q.written) + old(callbacks)
        invariant q.issued == old(q.issued) && q.accepted == old(q.accepted)
        invariant completions == old(completions)
        decreases |callbacks|
      {
        var entry := callbacks[0];
        StepKeepsInv(q, Take, Queued);
        q := Next(q, Take);
        connection.Write(entry.id, entry.data);
        callbacks := callbacks[1..];
      }
      StepKeepsInv(q, if done then Exit else Park, Queued);
      q := Next(q, if done then Exit else Park);
      assert callbacks == [];
      if done {
        Refuse(callbacks);
      }
      ended := done;
    }

    /** The final loop of `run`: an exception for each outstanding request. */
    method Refuse(outstanding: seq<Entry>)
      modifies this`completions
      ensures completions == old(completions) + Refusals(outstanding)
      ensures |completions| == |old(completions)| + |outstanding|
      ensures forall i :: 0 <= i < |outstanding| ==>
                completions[|old(completions)| + i] == Completion(outstanding[i].call, Exception)
    {
      for i := 0 to |outstanding|
        invariant completions == old(completions) + Refusals(outstanding[..i])
      {
        assert outstanding[..i + 1][..i] == outstanding[..i];
        completions := completions + [Completion(outstanding[i].call, Exception)];
      }
      assert outstanding[..|outstanding|] == outstanding;
      RefusalsAre(outstanding);
    }
  }
}
