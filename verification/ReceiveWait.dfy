/**
 The mailbox monitor: any number of receivers and writers around one mutex and one condition variable.
 Each section under the mutex is one step. A waiting receiver is `notified` once a writer has signalled it and
 it has not yet looked again; a wake-up may also be spurious.
 */
module ReceiveWait {
  import opened Bytes
  import opened Mailbox
  import opened Connections

  datatype Phase = Looking | Asleep(deadline: int, notified: bool)

  /** A call of `recv` in progress, entered at time `beg`. */
  datatype Receiver = Receiver(id: MsgId, len: nat, beg: int, phase: Phase)

  /** A call that has given up at time `at`. */
  datatype Expiry = Expiry(beg: int, at: int)

  datatype State = State(
    box: Box,
    ops: seq<Op>,
    now: int,
    receivers: map<nat, Receiver>,
    expiries: seq<Expiry>)

  datatype Step =
    | Tick(ns: nat)
    | Arrive(id: MsgId, m: Message)
    | Enter(t: nat, id: MsgId, len: nat)
    | Look(t: nat, lag: nat)
    | Wake(t: nat)
    | Expire(t: nat)

  function Initial(build: Build): State {
    State(Empty(build), [], 0, map[], [])
  }

  predicate Enabled(s: State, step: Step) {
    match step
    case Tick(_) => true
    case Arrive(_, _) => true
    case Enter(t, _, _) => t !in s.receivers
    case Look(t, _) => t in s.receivers && s.receivers[t].phase.Looking?
    case Wake(t) => t in s.receivers && s.receivers[t].phase.Asleep?
    case Expire(t) => t in s.receivers && s.receivers[t].phase.Asleep? && s.now >= s.receivers[t].phase.deadline
  }

  /** `notify_all`: every sleeping receiver will look again. */
  function Notified(rs: map<nat, Receiver>): map<nat, Receiver> {
    map t | t in rs :: if rs[t].phase.Asleep? then rs[t].(phase := rs[t].phase.(notified := true)) else rs[t]
  }

  /** One look under the mutex: serve the call, or go to sleep until the deadline computed from the elapsed time. */
  function LookAgain(s: State, timeout: nat, t: nat, lag: nat): State
    requires t in s.receivers
  {
    var r := s.receivers[t];
    if s.box.At(r.id).Ready(r.len) then
      s.(box := s.box.Receive(r.id, r.len), ops := s.ops + [Recv(r.id, r.len)], receivers := s.receivers - {t})
    else
      var deadline := Deadline(r.beg, timeout, s.now, s.now + lag);
      s.(receivers := s.receivers[t := r.(phase := Asleep(deadline, false))])
  }

  function Next(s: State, timeout: nat, step: Step): State
    requires Enabled(s, step)
  {
    match step
    case Tick(ns) => s.(now := s.now + ns)
    case Arrive(id, m) =>
      s.(box := s.box.Write(id, m), ops := s.ops + [Write(id, m)], receivers := Notified(s.receivers))
    case Enter(t, id, len) => s.(receivers := s.receivers[t := Receiver(id, len, s.now, Looking)])
    case Look(t, lag) => LookAgain(s, timeout, t, lag)
    case Wake(t) => s.(receivers := s.receivers[t := s.receivers[t].(phase := Looking)])
    case Expire(t) =>
      s.(receivers := s.receivers - {t}, expiries := s.expiries + [Expiry(s.receivers[t].beg, s.now)])
  }

  /** A run of the monitor from the empty mailbox. */
  ghost predicate IsRun(build: Build, timeout: nat, states: seq<State>, steps: seq<Step>) {
    && |states| == |steps| + 1
    && states[0] == Initial(build)
    && (forall i :: 0 <= i < |steps| ==>
          Enabled(states[i], steps[i]) && states[i + 1] == Next(states[i], timeout, steps[i]))
  }

  /** A sleeping receiver that no writer has signalled could not be served now. */
  ghost predicate NoLostWakeup(s: State) {
    forall t :: t in s.receivers && s.receivers[t].phase.Asleep? && !s.receivers[t].phase.notified ==>
      !s.box.At(s.receivers[t].id).Ready(s.receivers[t].len)
  }

  /** No call has given up, or is about to, before `timeout` milliseconds have passed since it was entered. */
  ghost predicate NeverEarly(s: State, timeout: nat) {
    && (forall t :: t in s.receivers ==> s.receivers[t].beg <= s.now)
    && (forall t :: t in s.receivers && s.receivers[t].phase.Asleep? ==>
          s.receivers[t].phase.deadline >= s.receivers[t].beg + timeout * MS)
    && (forall i :: 0 <= i < |s.expiries| ==> s.expiries[i].at >= s.expiries[i].beg + timeout * MS)
  }

  lemma StepKeepsWakeups(s: State, timeout: nat, step: Step)
    requires Enabled(s, step) && NoLostWakeup(s)
    ensures NoLostWakeup(Next(s, timeout, step))
  {
  }

  lemma StepKeepsTime(s: State, timeout: nat, step: Step)
    requires Enabled(s, step) && NeverEarly(s, timeout)
    ensures NeverEarly(Next(s, timeout, step), timeout)
  {
  }

  /** The mailbox of the monitor is the one its operations make, so every mailbox law holds of it. */
  lemma StepKeepsBox(s: State, timeout: nat, step: Step, build: Build)
    requires Enabled(s, step) && s.box == After(Empty(build), s.ops)
    ensures var s' := Next(s, timeout, step); s'.box == After(Empty(build), s'.ops)
  {
  }

  /**
   Over every run, at every point: no wake-up is lost, no call gives up early, and the mailbox is the result of
   the operations that took effect, so that a call that gave up has changed nothing.
   */
  lemma {:induction false} MonitorIsCorrect(build: Build, timeout: nat, states: seq<State>, steps: seq<Step>, i: nat)
    requires IsRun(build, timeout, states, steps) && i < |states|
    ensures NoLostWakeup(states[i])
    ensures NeverEarly(states[i], timeout)
    ensures states[i].box == After(Empty(build), states[i].ops)
  {
    if i > 0 {
      MonitorIsCorrect(build, timeout, states, steps, i - 1);
      StepKeepsWakeups(states[i - 1], timeout, steps[i - 1]);
      StepKeepsTime(states[i - 1], timeout, steps[i - 1]);
      StepKeepsBox(states[i - 1], timeout, steps[i - 1], build);
    }
  }

  // ---------- when a call gives up ----------

  /** Call `t`, in progress in state `i`, was entered by step `e`. */
  ghost predicate EnteredAt(states: seq<State>, steps: seq<Step>, i: nat, t: nat, e: nat) {
    && e < i < |states| && |states| == |steps| + 1
    && t in states[i].receivers
    && steps[e] == Enter(t, states[i].receivers[t].id, states[i].receivers[t].len)
    && states[e].now == states[i].receivers[t].beg
    && (forall k :: e < k <= i ==> t in states[k].receivers)
  }

  /** Call `t` has slept ever since its look at step `a`, up to state `i`. */
  ghost predicate SleptSince(states: seq<State>, steps: seq<Step>, i: nat, t: nat, a: nat) {
    && a < i < |states| && |states| == |steps| + 1
    && t in states[i].receivers && states[i].receivers[t].phase.Asleep?
    && steps[a].Look? && steps[a].t == t
    && states[a].ops <= states[i].ops
    && (forall k :: a < k <= i ==>
          t in states[k].receivers && SameSleep(states[k].receivers[t], states[i].receivers[t]))
  }

  /** The same call in the same sleep; it may have been signalled in between. */
  predicate SameSleep(r: Receiver, r': Receiver) {
    && r.id == r'.id && r.len == r'.len && r.beg == r'.beg
    && r.phase.Asleep? && r'.phase.Asleep? && r.phase.deadline == r'.phase.deadline
  }

  lemma {:induction false} WasEntered(build: Build, timeout: nat, states: seq<State>, steps: seq<Step>, i: nat, t: nat)
    returns (e: nat)
    requires IsRun(build, timeout, states, steps) && i < |states| && t in states[i].receivers
    ensures EnteredAt(states, steps, i, t, e)
  {
    if i == 0 {
      assert false;
    } else {
      assert Enabled(states[i - 1], steps[i - 1]) && states[i] == Next(states[i - 1], timeout, steps[i - 1]);
      if t in states[i - 1].receivers {
        e := WasEntered(build, timeout, states, steps, i - 1, t);
      } else {
        e := i - 1;
      }
    }
  }

  /** A call sleeps only by a look of its own that found too little. */
  lemma SleepStep(s: State, timeout: nat, step: Step, t: nat)
    requires Enabled(s, step)
    requires t in Next(s, timeout, step).receivers && Next(s, timeout, step).receivers[t].phase.Asleep?
    ensures var s' := Next(s, timeout, step);
            var r := s'.receivers[t];
            && t in s.receivers && s.ops <= s'.ops
            && (SameSleep(s.receivers[t], r)
                || (&& step.Look? && step.t == t && s'.ops == s.ops && !s.box.At(r.id).Ready(r.len)
                    && r.phase.deadline == Deadline(r.beg, timeout, s.now, s.now + step.lag)))
  {
    hide Deadline;
  }

  lemma {:induction false} FellAsleep(build: Build, timeout: nat, states: seq<State>, steps: seq<Step>, i: nat, t: nat)
    returns (a: nat)
    requires IsRun(build, timeout, states, steps) && i < |states|
    requires t in states[i].receivers && states[i].receivers[t].phase.Asleep?
    ensures SleptSince(states, steps, i, t, a)
    ensures var r := states[i].receivers[t];
            && !states[a].box.At(r.id).Ready(r.len)
            && r.phase.deadline == Deadline(r.beg, timeout, states[a].now, states[a].now + steps[a].lag)
  {
    hide Deadline;
    if i == 0 {
      assert false;
    } else {
      SleepStep(states[i - 1], timeout, steps[i - 1], t);
      var r := states[i].receivers[t];
      if SameSleep(states[i - 1].receivers[t], r) {
        a := FellAsleep(build, timeout, states, steps, i - 1, t);
      } else {
        a := i - 1;
      }
    }
  }

  /**
   However many wake-ups there were, a sleeping call will give up at `timeout` milliseconds after the step that entered
   it, later only by the lag of its last look and by less than one millisecond.
   */
  lemma DeadlineIsTight(build: Build, timeout: nat, states: seq<State>, steps: seq<Step>, i: nat, t: nat)
    returns (e: nat, a: nat)
    requires IsRun(build, timeout, states, steps) && i < |states|
    requires t in states[i].receivers && states[i].receivers[t].phase.Asleep?
    ensures EnteredAt(states, steps, i, t, e) && SleptSince(states, steps, i, t, a)
    ensures states[e].now + timeout * MS + steps[a].lag
         <= states[i].receivers[t].phase.deadline
          < states[e].now + (timeout + 1) * MS + steps[a].lag
  {
    e := WasEntered(build, timeout, states, steps, i, t);
    a := FellAsleep(build, timeout, states, steps, i, t);
    MonitorIsCorrect(build, timeout, states, steps, a + 1);
    assert Enabled(states[a], steps[a]) && states[a + 1] == Next(states[a], timeout, steps[a]);
    assert states[a + 1].receivers[t].beg <= states[a + 1].now;
    DeadlineIsStable(states[e].now, timeout, states[a].now, states[a].now + steps[a].lag);
  }

  /** A timeout is never reported before its time, counted from the step that entered the call. */
  lemma NoEarlyTimeout(build: Build, timeout: nat, states: seq<State>, steps: seq<Step>, i: nat, t: nat)
    returns (e: nat)
    requires IsRun(build, timeout, states, steps) && i < |steps| && steps[i] == Expire(t)
    ensures EnteredAt(states, steps, i, t, e)
    ensures states[i].now >= states[e].now + timeout * MS
    ensures states[i + 1].expiries == states[i].expiries + [Expiry(states[e].now, states[i].now)]
  {
    assert Enabled(states[i], steps[i]) && states[i + 1] == Next(states[i], timeout, steps[i]);
    var a;
    e, a := DeadlineIsTight(build, timeout, states, steps, i, t);
  }

  function Entries(steps: seq<Step>): (n: nat)
  {
    if steps == [] then 0 else Entries(steps[..|steps| - 1]) + if steps[|steps| - 1].Enter? then 1 else 0
  }

  function Served(ops: seq<Op>): (n: nat)
  {
    if ops == [] then 0 else Served(ops[..|ops| - 1]) + if ops[|ops| - 1].Recv? then 1 else 0
  }

  lemma StepKeepsCalls(s: State, timeout: nat, step: Step)
    requires Enabled(s, step)
    ensures var s' := Next(s, timeout, step);
            |s'.receivers| + Served(s'.ops) + |s'.expiries|
            == |s.receivers| + Served(s.ops) + |s.expiries| + if step.Enter? then 1 else 0
  {
    var s' := Next(s, timeout, step);
    match step
    case Tick(_) =>
    case Arrive(_, _) =>
      assert s'.receivers.Keys == s.receivers.Keys && |s'.receivers| == |s'.receivers.Keys|;
    case Enter(t, _, _) =>
      assert s'.receivers.Keys == s.receivers.Keys + {t} && |s'.receivers| == |s'.receivers.Keys|;
    case Look(t, _) =>
      assert s'.receivers.Keys == s.receivers.Keys || s'.receivers.Keys == s.receivers.Keys - {t};
      assert |s'.receivers| == |s'.receivers.Keys|;
    case Wake(t) =>
      assert s'.receivers.Keys == s.receivers.Keys && |s'.receivers| == |s'.receivers.Keys|;
    case Expire(t) =>
      assert s'.receivers.Keys == s.receivers.Keys - {t} && |s'.receivers| == |s'.receivers.Keys|;
  }

  /** No call gets lost: each one entered is in progress, has been served, or has given up. */
  lemma {:induction false} CallsAreAccounted(build: Build, timeout: nat, states: seq<State>, steps: seq<Step>, i: nat)
    requires IsRun(build, timeout, states, steps) && i < |states|
    ensures |states[i].receivers| + Served(states[i].ops) + |states[i].expiries| == Entries(steps[..i])
  {
    if i > 0 {
      CallsAreAccounted(build, timeout, states, steps, i - 1);
      assert steps[..i][..i - 1] == steps[..i - 1];
      assert Enabled(states[i - 1], steps[i - 1]) && states[i] == Next(states[i - 1], timeout, steps[i - 1]);
      StepKeepsCalls(states[i - 1], timeout, steps[i - 1]);
    }
  }

  /** The messages that arrived, in order. */
  function Arrivals(steps: seq<Step>): (ms: seq<Msg>)
  {
    if steps == [] then []
    else
      var step := steps[|steps| - 1];
      Arrivals(steps[..|steps| - 1]) + if step.Arrive? then [Msg(step.id, step.m)] else []
  }

  /** No message gets lost: what was written to the mailbox is what arrived. */
  lemma {:induction false} ArrivalsAreWritten(build: Build, timeout: nat, states: seq<State>, steps: seq<Step>, i: nat)
    requires IsRun(build, timeout, states, steps) && i < |states|
    ensures Written(states[i].ops) == Arrivals(steps[..i])
  {
    if i > 0 {
      var s, step := states[i - 1], steps[i - 1];
      ArrivalsAreWritten(build, timeout, states, steps, i - 1);
      assert steps[..i][..i - 1] == steps[..i - 1];
      assert Enabled(s, step) && states[i] == Next(s, timeout, step);
      if states[i].ops != s.ops {
        var op := states[i].ops[|s.ops|];
        WritesStep(s.ops, op, op.id);
      }
    }
  }

  function Ticks(steps: seq<Step>): (ns: nat)
  {
    if steps == [] then 0
    else Ticks(steps[..|steps| - 1]) + if steps[|steps| - 1].Tick? then steps[|steps| - 1].ns else 0
  }

  /** Only the clock moves the clock. */
  lemma {:induction false} NowIsTicks(build: Build, timeout: nat, states: seq<State>, steps: seq<Step>, i: nat)
    requires IsRun(build, timeout, states, steps) && i < |states|
    ensures states[i].now == Ticks(steps[..i])
  {
    if i > 0 {
      NowIsTicks(build, timeout, states, steps, i - 1);
      assert steps[..i][..i - 1] == steps[..i - 1];
      assert Enabled(states[i - 1], steps[i - 1]) && states[i] == Next(states[i - 1], timeout, steps[i - 1]);
    }
  }

  /**
   No call is kept from what is there for it, whoever else waits: woken if it sleeps, it looks and is served, with the
   reply of the mailbox as it is.
   */
  lemma ReadyIsServed(s: State, timeout: nat, t: nat)
    requires t in s.receivers && s.box.At(s.receivers[t].id).Ready(s.receivers[t].len)
    ensures s.receivers[t].phase.Asleep? ==> Enabled(s, Wake(t))
    ensures var r := s.receivers[t];
            var awake := if r.phase.Asleep? then Next(s, timeout, Wake(t)) else s;
            && Enabled(awake, Look(t, 0))
            && var served := Next(awake, timeout, Look(t, 0));
               && t !in served.receivers && served.receivers.Keys == s.receivers.Keys - {t}
               && served.ops == s.ops + [Recv(r.id, r.len)]
               && HandsOver(s.box, served.box, r.id, s.box.At(r.id).Take(r.len))
  {
    var r := s.receivers[t];
    ReplyIsFront(s.box, r.id, r.len);
  }

  /** In whatever state, a message can arrive and a new call can be made that asks for it, and the call is served. */
  lemma MessageReachesCaller(s: State, timeout: nat, t: nat, id: MsgId, m: Message, len: nat)
    requires t !in s.receivers && m != [] && len <= |m|
    ensures Enabled(s, Arrive(id, m))
    ensures var s1 := Next(s, timeout, Arrive(id, m));
            && Enabled(s1, Enter(t, id, len))
            && var s2 := Next(s1, timeout, Enter(t, id, len));
               && Enabled(s2, Look(t, 0))
               && Next(s2, timeout, Look(t, 0)).ops == s.ops + [Write(id, m), Recv(id, len)]
  {
    var s1 := Next(s, timeout, Arrive(id, m));
    StepAt(s.box, Write(id, m), id);
  }

  /** A call that finds nothing sleeps, and once its deadline has passed it can give up, whatever else is going on. */
  lemma EveryCallCanEnd(s: State, timeout: nat, t: nat) returns (wait: nat)
    requires t in s.receivers && !s.box.At(s.receivers[t].id).Ready(s.receivers[t].len)
    ensures s.receivers[t].phase.Looking? ==> Enabled(s, Look(t, 0))
    ensures var asleep := if s.receivers[t].phase.Looking? then Next(s, timeout, Look(t, 0)) else s;
            && Enabled(asleep, Tick(wait))
            && Enabled(Next(asleep, timeout, Tick(wait)), Expire(t))
            && var gone := Next(Next(asleep, timeout, Tick(wait)), timeout, Expire(t));
               t !in gone.receivers && gone.box == s.box && gone.ops == s.ops
  {
    hide Deadline;
    var asleep := if s.receivers[t].phase.Looking? then Next(s, timeout, Look(t, 0)) else s;
    var deadline := asleep.receivers[t].phase.deadline;
    wait := if deadline > s.now then deadline - s.now else 0;
  }

  // ---------- what a timeout leaves behind ----------

  /** What an operation adds to the supply of `id`: bytes where the build keeps bytes, messages where it keeps those. */
  function Gain(build: Build, op: Op, id: MsgId): int {
    if op.id != id then 0
    else match op
      case Write(_, m) => if build.Buffered? then |m| else 1
      case Recv(_, len) => if build.Buffered? then 0 - len else -1
  }

  /** What was written to `id` less what receivers of `id` were given, counted on the operations alone. */
  function Supply(build: Build, ops: seq<Op>, id: MsgId): int {
    if ops == [] then 0 else Supply(build, ops[..|ops| - 1], id) + Gain(build, ops[|ops| - 1], id)
  }

  /** A supply is enough for a call that asks for `len` bytes; the queue build does not look at `len`. */
  predicate Suffices(build: Build, supply: int, len: nat) {
    supply > 0 && (build.Buffered? ==> supply >= len)
  }

  lemma {:induction false} SupplyAppend(build: Build, a: seq<Op>, b: seq<Op>, id: MsgId)
    ensures Supply(build, a + b, id) == Supply(build, a, id) + Supply(build, b, id)
  {
    if b == [] {
      assert a + b == a;
    } else {
      assert (a + b)[..|a + b| - 1] == a + b[..|b| - 1];
      SupplyAppend(build, a, b[..|b| - 1], id);
    }
  }

  /** The slot holds as much as the operations say. */
  ghost predicate SlotHolds(build: Build, slot: Slot, supply: int) {
    match slot
    case Stream(b) => build == Buffered && |b| == supply
    case Queue(q) => build == Queued && |q| == supply
  }

  lemma OpKeepsSupply(build: Build, box: Box, op: Op, id: MsgId, supply: int)
    requires box.build == build && SlotHolds(build, box.At(id), supply)
    requires op.Recv? ==> box.At(op.id).Ready(op.len)
    ensures var box' := Mailbox.Step(box, op);
            SlotHolds(build, box'.At(id), supply + Gain(build, op, id)) && box'.build == build
  {
    StepAt(box, op, id);
    hide Mailbox.Step, Box.At;
  }

  /** A step does at most one operation, and a receive only if it is served. */
  lemma StepDoes(s: State, timeout: nat, step: Step)
    requires Enabled(s, step)
    ensures var s' := Next(s, timeout, step);
            || (s'.ops == s.ops && s'.box == s.box)
            || (|s'.ops| == |s.ops| + 1 && s'.ops[..|s.ops|] == s.ops
                && var op := s'.ops[|s.ops|];
                   s'.box == Mailbox.Step(s.box, op) && (op.Recv? ==> s.box.At(op.id).Ready(op.len)))
  {
  }

  lemma StepKeepsSupply(s: State, timeout: nat, step: Step, build: Build, id: MsgId)
    requires Enabled(s, step) && s.box.build == build && SlotHolds(build, s.box.At(id), Supply(build, s.ops, id))
    ensures var s' := Next(s, timeout, step);
            s'.box.build == build && SlotHolds(build, s'.box.At(id), Supply(build, s'.ops, id))
  {
    StepDoes(s, timeout, step);
    hide Next, Enabled, SlotHolds, Gain, Box.At;
    var s' := Next(s, timeout, step);
    if s'.ops != s.ops {
      OpKeepsSupply(build, s.box, s'.ops[|s.ops|], id, Supply(build, s.ops, id));
    }
  }

  /** At every point of every run, the mailbox can serve a call exactly when the supply suffices. */
  lemma {:induction false} ReadyIffSupplied(build: Build, timeout: nat, states: seq<State>, steps: seq<Step>, i: nat,
                                            id: MsgId, len: nat)
    requires IsRun(build, timeout, states, steps) && i < |states|
    ensures states[i].box.build == build && SlotHolds(build, states[i].box.At(id), Supply(build, states[i].ops, id))
    ensures states[i].box.At(id).Ready(len) <==> Suffices(build, Supply(build, states[i].ops, id), len)
  {
    if i > 0 {
      ReadyIffSupplied(build, timeout, states, steps, i - 1, id, len);
      StepKeepsSupply(states[i - 1], timeout, steps[i - 1], build, id);
    }
  }

  /**
   When a call that times out leaves behind a message that would have served it: counted from its last look, at which
   the supply did not suffice, what writers brought less what other receivers took makes it sufficient.
   */
  lemma TimeoutMissesMessage(build: Build, timeout: nat, states: seq<State>, steps: seq<Step>, i: nat, t: nat)
    returns (a: nat)
    requires IsRun(build, timeout, states, steps) && i < |steps| && steps[i] == Expire(t)
    ensures SleptSince(states, steps, i, t, a)
    ensures var r, since := states[i].receivers[t], states[i].ops[|states[a].ops|..];
            var supply := Supply(build, states[a].ops, r.id);
            && !Suffices(build, supply, r.len)
            && (states[i + 1].box.At(r.id).Ready(r.len)
                <==> Suffices(build, supply + Supply(build, since, r.id), r.len))
  {
    assert Enabled(states[i], steps[i]) && states[i + 1] == Next(states[i], timeout, steps[i]);
    a := FellAsleep(build, timeout, states, steps, i, t);
    var r, since := states[i].receivers[t], states[i].ops[|states[a].ops|..];
    assert states[i].ops == states[a].ops + since;
    SupplyAppend(build, states[a].ops, since, r.id);
    ReadyIffSupplied(build, timeout, states, steps, a, r.id, r.len);
    ReadyIffSupplied(build, timeout, states, steps, i, r.id, r.len);
  }

  /** Call `t` sleeps although it could be served; the code does not look again if the wait now reports a timeout. */
  ghost predicate Overdue(s: State, t: nat) {
    && t in s.receivers && s.receivers[t].phase.Asleep?
    && s.box.At(s.receivers[t].id).Ready(s.receivers[t].len)
  }

  /** Step `j` wrote a message for the id of call `t` and signalled it; since then it slept on, and could be served. */
  ghost predicate SignalledAt(states: seq<State>, steps: seq<Step>, i: nat, t: nat, j: nat) {
    && j < i < |states| && |states| == |steps| + 1
    && t in states[i].receivers
    && steps[j].Arrive? && steps[j].id == states[i].receivers[t].id
    && (forall k :: j < k <= i ==> Overdue(states[k], t) && states[k].receivers[t].phase.notified)
  }

  /** Only the arrival of a message for its id makes a call overdue. */
  lemma OverdueStep(s: State, timeout: nat, step: Step, t: nat)
    requires Enabled(s, step) && Overdue(Next(s, timeout, step), t)
    ensures var r := Next(s, timeout, step).receivers[t];
            || (step.Arrive? && step.id == r.id && r.phase.notified)
            || (Overdue(s, t) && s.receivers[t].id == r.id
                && (s.receivers[t].phase.notified ==> r.phase.notified))
  {
  }

  /** A call that could be served but sleeps on has been signalled, by the writer of a message for its own id. */
  lemma {:induction false} OverdueSince(build: Build, timeout: nat, states: seq<State>, steps: seq<Step>,
                                        i: nat, t: nat)
    returns (j: nat)
    requires IsRun(build, timeout, states, steps) && i < |states| && Overdue(states[i], t)
    ensures SignalledAt(states, steps, i, t, j)
  {
    if i == 0 {
      assert false;
    } else {
      OverdueStep(states[i - 1], timeout, steps[i - 1], t);
      var r := states[i].receivers[t];
      if steps[i - 1].Arrive? && steps[i - 1].id == r.id {
        j := i - 1;
      } else {
        j := OverdueSince(build, timeout, states, steps, i - 1, t);
      }
    }
  }

  /** That does happen: a call sleeps, its message is written as the time runs out, and the wait reports the timeout. */
  lemma TimeoutCanMissMessage(build: Build, timeout: nat, id: MsgId, m: Message)
    returns (states: seq<State>, steps: seq<Step>)
    requires m != []
    ensures IsRun(build, timeout, states, steps) && |steps| == 5 && steps[4] == Expire(0)
    ensures Overdue(states[4], 0) && states[5].receivers == map[] && states[5].box.Reply(id, |m|) == Some(m)
  {
    var asleep := Receiver(id, |m|, 0, Asleep(timeout * MS, false));
    var s0 := Initial(build);
    var s1 := s0.(receivers := map[0 := Receiver(id, |m|, 0, Looking)]);
    var s2 := s1.(receivers := map[0 := asleep]);
    var s3 := s2.(now := timeout * MS);
    var s4 := Next(s3, timeout, Arrive(id, m));
    MessageIsThere(build, id, m);
    hide Box.Write, Box.At;
    assert Next(s0, timeout, Enter(0, id, |m|)) == s1;
    assert Next(s1, timeout, Look(0, 0)) == s2;
    assert Next(s2, timeout, Tick(timeout * MS)) == s3;
    assert s4.receivers == map[0 := asleep.(phase := Asleep(timeout * MS, true))];
    var s5 := Next(s4, timeout, Expire(0));
    states := [s0, s1, s2, s3, s4, s5];
    steps := [Enter(0, id, |m|), Look(0, 0), Tick(timeout * MS), Arrive(id, m), Expire(0)];
  }

  lemma MessageIsThere(build: Build, id: MsgId, m: Message)
    requires m != []
    ensures !Empty(build).At(id).Ready(|m|)
    ensures var box := Empty(build).Write(id, m); box.At(id).Ready(|m|) && box.Reply(id, |m|) == Some(m)
  {
    assert [] + m == m && m[..|m|] == m && ([] + [m])[0] == m;
  }
}
