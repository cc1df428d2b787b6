/**
 End to end: retrying senders, lossy calls, synchronous or asynchronous servers and mailboxes, for any number of
 nodes and every interleaving. A link is one client object: the sends over it come one at a time.
 */
module Delivery {
  import opened Bytes
  import opened Mailbox
  import opened Topology
  import opened Retry
  import WorkQueues

  /** A finished send; `late` of its attempts were dispatched and then reported as failed. */
  datatype Sent = Sent(msg: Msg, fate: Outcome, late: nat)

  /** A send in progress. */
  datatype Sending = Sending(msg: Msg, late: nat)

  datatype Sender = Sender(history: seq<Sent>, current: Option<Sending>)

  /** The receiving end: messages accepted but not yet written, and what has been done to the mailbox. */
  datatype Server = Server(queue: seq<Msg>, stopped: bool, ops: seq<Op>)

  datatype Channel = Channel(sender: Sender, server: Server)

  datatype Link = Link(src: NodeId, dst: NodeId)

  datatype Mode = Sync | Async

  datatype System = System(cfg: Config, mode: Mode)

  /**
   What happens on a link. `Lost` is an attempt that fails without being dispatched, `Late` one that fails after its
   dispatch, `Success` one whose response arrives; `Work` and `Stop` are the work queue writing one message and being
   destroyed.
   */
  datatype Action =
    | Begin(msg: Msg)
    | Lost
    | Late
    | Success
    | GiveUp
    | Work
    | Stop
    | Receive(id: MsgId, len: nat)
  {
    /** The sending node takes the action; the others are the receiving node's. */
    predicate BySender() {
      Begin? || Lost? || Late? || Success? || GiveUp?
    }
  }

  function Links(cfg: Config): set<Link> {
    set s, d | s in cfg.taskNodes && d in Servers(cfg, s) :: Link(s, d)
  }

  predicate Registered(sys: System, link: Link) {
    link.src in Clients(sys.cfg, link.dst)
  }

  /** A call over the link reaches code that answers it; the asynchronous server answers only registered nodes. */
  predicate Answerable(sys: System, link: Link, server: Server) {
    && Clients(sys.cfg, link.dst) != {}
    && (sys.mode.Sync? || (Registered(sys, link) && !server.stopped))
  }

  /** The dispatch of a call: looked up by source node, written at once or queued, and otherwise dropped. */
  function Dispatch(sys: System, link: Link, server: Server, m: Msg): Server {
    if !Registered(sys, link) then server
    else match sys.mode
      case Sync => server.(ops := server.ops + [Write(m.id, m.data)])
      case Async => if server.stopped then server else server.(queue := server.queue + [m])
  }

  function WorkOne(server: Server): Server
    requires server.queue != []
  {
    var m := server.queue[0];
    server.(queue := server.queue[1..], ops := server.ops + [Write(m.id, m.data)])
  }

  /** A send begins when none is in progress; its attempts and its end need one. */
  predicate SenderCan(s: Sender, a: Action) {
    a.BySender() ==> (a.Begin? <==> s.current.None?)
  }

  predicate Enabled(sys: System, link: Link, ch: Channel, a: Action) {
    && SenderCan(ch.sender, a)
    && match a
       case Late => Answerable(sys, link, ch.server)
       case Success => Answerable(sys, link, ch.server)
       case Work => sys.mode.Async? && ch.server.queue != []
       case Stop => sys.mode.Async?
       case _ => true
  }

  function Finish(s: Sender, fate: Outcome): Sender
    requires s.current.Some?
  {
    var c := s.current.value;
    Sender(s.history + [Sent(c.msg, fate, c.late)], None)
  }

  function SenderNext(s: Sender, a: Action): Sender
    requires SenderCan(s, a)
  {
    match a
    case Begin(m) => s.(current := Some(Sending(m, 0)))
    case Late =>
      var c := s.current.value;
      s.(current := Some(c.(late := c.late + 1)))
    case Success => Finish(s, Succeeded)
    case GiveUp => Finish(s, GaveUp)
    case _ => s
  }

  function ServerNext(sys: System, link: Link, ch: Channel, a: Action): Server
    requires Enabled(sys, link, ch, a)
  {
    match a
    case Late => Dispatch(sys, link, ch.server, ch.sender.current.value.msg)
    case Success => Dispatch(sys, link, ch.server, ch.sender.current.value.msg)
    case Work => WorkOne(ch.server)
    case Stop => ch.server.(queue := [], stopped := true)
    case Receive(id, len) => ch.server.(ops := ch.server.ops + [Recv(id, len)])
    case _ => ch.server
  }

  function Next(sys: System, link: Link, ch: Channel, a: Action): Channel
    requires Enabled(sys, link, ch, a)
  {
    Channel(SenderNext(ch.sender, a), ServerNext(sys, link, ch, a))
  }

  datatype Event = Event(link: Link, action: Action)

  type State = map<Link, Channel>

  function Initial(sys: System): State {
    map l | l in Links(sys.cfg) :: Channel(Sender([], None), Server([], false, []))
  }

  predicate CanRun(sys: System, s: State, run: seq<Event>)
    decreases run
  {
    run == [] ||
    (&& run[0].link in s && Enabled(sys, run[0].link, s[run[0].link], run[0].action)
     && CanRun(sys, s[run[0].link := Next(sys, run[0].link, s[run[0].link], run[0].action)], run[1..]))
  }

  function Exec(sys: System, s: State, run: seq<Event>): (s': State)
    requires CanRun(sys, s, run)
    ensures s'.Keys == s.Keys
    decreases run
  {
    if run == [] then s
    else
      var l, a := run[0].link, run[0].action;
      Exec(sys, s[l := Next(sys, l, s[l], a)], run[1..])
  }

  lemma {:induction false} RunThen(sys: System, s: State, a: seq<Event>, b: seq<Event>)
    requires CanRun(sys, s, a) && CanRun(sys, Exec(sys, s, a), b)
    ensures CanRun(sys, s, a + b) && Exec(sys, s, a + b) == Exec(sys, Exec(sys, s, a), b)
    decreases a
  {
    hide Enabled, Next;
    if a == [] {
      assert a + b == b;
    } else {
      var l, act := a[0].link, a[0].action;
      assert (a + b)[1..] == a[1..] + b;
      RunThen(sys, s[l := Next(sys, l, s[l], act)], a[1..], b);
    }
  }

  // ---------- what is delivered ----------

  function Copies(s: Sent): nat {
    s.late + if s.fate.Succeeded? then 1 else 0
  }

  function Repeat<T>(x: T, k: nat): (xs: seq<T>)
    ensures |xs| == k
  {
    if k == 0 then [] else Repeat(x, k - 1) + [x]
  }

  /** The finished sends in order, each as often as it was dispatched: a successful one at least once. */
  function Expand(history: seq<Sent>): (ms: seq<Msg>)
  {
    if history == [] then []
    else
      var s := history[|history| - 1];
      Expand(history[..|history| - 1]) + Repeat(s.msg, Copies(s))
  }

  function InFlight(current: Option<Sending>): seq<Msg> {
    if current.Some? then Repeat(current.value.msg, current.value.late) else []
  }

  /** Everything sent over a link, whatever its id, with its multiplicity. */
  function Sends(s: Sender): seq<Msg> {
    Expand(s.history) + InFlight(s.current)
  }

  /** Everything that has entered the receiving end: written to the mailbox, or still queued. */
  function Entered(server: Server): seq<Msg> {
    Written(server.ops) + server.queue
  }

  /** Nothing is invented, lost or reordered, within an id or across; a destroyed work queue cuts off a tail. */
  ghost predicate Faithful(ch: Channel) {
    if ch.server.stopped then ch.server.queue == [] && Written(ch.server.ops) <= Sends(ch.sender)
    else Entered(ch.server) == Sends(ch.sender)
  }

  /** The same for one message id. */
  ghost predicate FaithfulOn(ch: Channel, id: MsgId) {
    var sent := Project(Sends(ch.sender), id);
    if ch.server.stopped then Writes(ch.server.ops, id) <= sent
    else Writes(ch.server.ops, id) + Project(ch.server.queue, id) == sent
  }

  lemma FaithfulOnEachId(ch: Channel, id: MsgId)
    requires Faithful(ch)
    ensures FaithfulOn(ch, id)
  {
    var w := Written(ch.server.ops);
    var rest := Sends(ch.sender)[|w|..];
    assert Sends(ch.sender) == w + rest;
    ProjectAppend(w, rest, id);
    assert !ch.server.stopped ==> rest == ch.server.queue;
  }

  /** A dispatch over a registered link adds exactly the message. */
  lemma DispatchEnters(sys: System, link: Link, server: Server, m: Msg)
    requires Registered(sys, link) && !server.stopped
    requires sys.mode.Sync? ==> server.queue == []
    ensures Entered(Dispatch(sys, link, server, m)) == Entered(server) + [m]
  {
    hide Clients, Project;
    WritesStep(server.ops, Write(m.id, m.data), m.id);
  }

  /** An attempt that was dispatched adds one copy to what has been sent, whether or not its response arrives. */
  lemma AttemptAddsCopy(s: Sender, a: Action)
    requires SenderCan(s, a) && (a.Late? || a.Success?)
    ensures Sends(SenderNext(s, a)) == Sends(s) + [s.current.value.msg]
  {
    var s' := SenderNext(s, a);
    assert a.Success? ==> s'.history[..|s.history|] == s.history;
  }

  /** No other action of the sender changes what has been sent. */
  lemma OthersAddNothing(s: Sender, a: Action)
    requires SenderCan(s, a) && !a.Late? && !a.Success?
    ensures Sends(SenderNext(s, a)) == Sends(s)
  {
    var s' := SenderNext(s, a);
    assert a.GiveUp? ==> s'.history[..|s.history|] == s.history;
  }

  lemma WorkKeeps(server: Server)
    requires server.queue != []
    ensures Entered(WorkOne(server)) == Entered(server)
  {
    var m := server.queue[0];
    WritesStep(server.ops, Write(m.id, m.data), m.id);
  }

  ghost predicate Inv(sys: System, ch: Channel) {
    && Faithful(ch)
    && (sys.mode.Sync? ==> ch.server.queue == [] && !ch.server.stopped)
  }

  lemma StepKeepsInv(sys: System, link: Link, ch: Channel, a: Action)
    requires Registered(sys, link) && Enabled(sys, link, ch, a) && Inv(sys, ch)
    ensures Inv(sys, Next(sys, link, ch, a))
  {
    if a.Late? || a.Success? {
      DispatchEnters(sys, link, ch.server, ch.sender.current.value.msg);
      AttemptAddsCopy(ch.sender, a);
    } else {
      OthersAddNothing(ch.sender, a);
      match a
      case Work => WorkKeeps(ch.server);
      case Receive(id, len) => WritesStep(ch.server.ops, Recv(id, len), id);
      case _ =>
    }
  }

  /** A link is disturbed by no other link. */
  lemma {:induction false} RunKeepsInv(sys: System, s: State, run: seq<Event>, link: Link)
    requires CanRun(sys, s, run) && link in s
    requires Registered(sys, link) && Inv(sys, s[link])
    ensures Inv(sys, Exec(sys, s, run)[link])
    decreases run
  {
    hide Inv, Enabled, Next, Registered;
    if run != [] {
      var l, a := run[0].link, run[0].action;
      if l == link {
        StepKeepsInv(sys, link, s[link], a);
      }
      RunKeepsInv(sys, s[l := Next(sys, l, s[l], a)], run[1..], link);
    }
  }

  /** The links, and who is registered, are what the nodes are told by their own configuration. */
  lemma LinksAreComputed(sys: System, s: NodeId, d: NodeId)
    requires s in sys.cfg.taskNodes && NodeInfos(sys.cfg, s).Ok? && NodeInfos(sys.cfg, d).Ok?
    ensures Link(s, d) in Links(sys.cfg) <==> d in NodeInfos(sys.cfg, s).value.servers
    ensures Registered(sys, Link(s, d)) <==> s in NodeInfos(sys.cfg, d).value.clients
  {
    AnswerIsViews(sys.cfg, s);
    AnswerIsViews(sys.cfg, d);
    hide Servers, Clients, NodeInfos;
  }

  /** The topology makes every link between distinct nodes a registered one. */
  lemma LinkIsRegistered(sys: System, link: Link)
    requires link in Links(sys.cfg) && link.src != link.dst
    ensures Registered(sys, link)
  {
  }

  /**
   At least once and in order, for every run of the whole system and every link between distinct nodes: what has
   entered the receiving end is the sent sequence, a successful send once or more and a timed-out one any number of
   times, in the order of the sends even across message ids, and so for each id. After the work queue is destroyed,
   what was written is a prefix of that.
   */
  lemma EndToEnd(sys: System, run: seq<Event>, link: Link, id: MsgId)
    requires CanRun(sys, Initial(sys), run)
    requires link in Links(sys.cfg) && link.src != link.dst
    ensures Faithful(Exec(sys, Initial(sys), run)[link])
    ensures FaithfulOn(Exec(sys, Initial(sys), run)[link], id)
  {
    LinkIsRegistered(sys, link);
    RunKeepsInv(sys, Initial(sys), run, link);
    FaithfulOnEachId(Exec(sys, Initial(sys), run)[link], id);
  }

  /** The successful sends, each once. */
  function Successes(history: seq<Sent>): (ms: seq<Msg>)
  {
    if history == [] then []
    else
      var s := history[|history| - 1];
      Successes(history[..|history| - 1]) + if s.fate.Succeeded? then [s.msg] else []
  }

  /** How many attempts of finished sends on `id` failed after their dispatch. */
  function LateOn(history: seq<Sent>, id: MsgId): (n: nat)
  {
    if history == [] then 0
    else
      var s := history[|history| - 1];
      LateOn(history[..|history| - 1], id) + if s.msg.id == id then s.late else 0
  }

  lemma {:induction false} ProjectRepeat(m: Msg, k: nat, id: MsgId)
    ensures Project(Repeat(m, k), id) == if m.id == id then Repeat(m.data, k) else []
  {
    if k > 0 {
      ProjectRepeat(m, k - 1, id);
      ProjectSnoc(Repeat(m, k - 1), m, id);
      hide Project;
    }
  }

  /** What one more finished send adds on an id. */
  lemma ExpandStep(history: seq<Sent>, id: MsgId)
    requires history != []
    ensures var before, s := history[..|history| - 1], history[|history| - 1];
            Project(Expand(history), id)
            == Project(Expand(before), id) + if s.msg.id == id then Repeat(s.msg.data, Copies(s)) else []
  {
    hide Project;
    var before, s := history[..|history| - 1], history[|history| - 1];
    ProjectAppend(Expand(before), Repeat(s.msg, Copies(s)), id);
    ProjectRepeat(s.msg, Copies(s), id);
  }

  lemma SuccessesStep(history: seq<Sent>, id: MsgId)
    requires history != []
    ensures var before, s := history[..|history| - 1], history[|history| - 1];
            Project(Successes(history), id)
            == Project(Successes(before), id) + if s.msg.id == id && s.fate.Succeeded? then [s.msg.data] else []
  {
    var before, s := history[..|history| - 1], history[|history| - 1];
    if s.fate.Succeeded? {
      assert Successes(history)[..|Successes(history)| - 1] == Successes(before);
    } else {
      assert Successes(history) == Successes(before);
    }
  }

  lemma {:induction false} ExpandLength(history: seq<Sent>, id: MsgId)
    ensures |Project(Expand(history), id)| == |Project(Successes(history), id)| + LateOn(history, id)
    ensures LateOn(history, id) == 0 ==> Project(Expand(history), id) == Project(Successes(history), id)
  {
    if history == [] {
      assert Expand(history) == [] && Successes(history) == [];
    } else {
      hide Project, Expand, Successes;
      ExpandLength(history[..|history| - 1], id);
      ExpandStep(history, id);
      SuccessesStep(history, id);
      var s := history[|history| - 1];
      if LateOn(history, id) == 0 && s.msg.id == id && Copies(s) == 1 {
        assert Repeat(s.msg.data, 1) == Repeat(s.msg.data, 0) + [s.msg.data] == [s.msg.data];
      }
    }
  }

  /** How many attempts on `id`, of finished sends or of the one in progress, failed after their dispatch. */
  function LateSoFar(s: Sender, id: MsgId): nat {
    LateOn(s.history, id) + if s.current.Some? && s.current.value.msg.id == id then s.current.value.late else 0
  }

  lemma SendsLength(s: Sender, id: MsgId)
    ensures |Project(Sends(s), id)| == |Project(Successes(s.history), id)| + LateSoFar(s, id)
    ensures LateSoFar(s, id) == 0 ==> Project(Sends(s), id) == Project(Successes(s.history), id)
  {
    ExpandLength(s.history, id);
    ProjectAppend(Expand(s.history), InFlight(s.current), id);
    hide Project, Expand, Successes;
    if s.current.Some? {
      ProjectRepeat(s.current.value.msg, s.current.value.late, id);
    } else {
      ProjectRepeat(Msg(id, []), 0, id);
    }
  }

  /**
   Exactly once: at every point of every run at which the server is alive, what entered for an id is exactly the
   successful sends if and only if no attempt on that id failed after its dispatch.
   */
  lemma ExactlyOnce(sys: System, run: seq<Event>, link: Link, id: MsgId)
    requires CanRun(sys, Initial(sys), run)
    requires link in Links(sys.cfg) && link.src != link.dst
    ensures var ch := Exec(sys, Initial(sys), run)[link];
            !ch.server.stopped ==>
              (Project(Entered(ch.server), id) == Project(Successes(ch.sender.history), id)
               <==> LateSoFar(ch.sender, id) == 0)
  {
    EndToEnd(sys, run, link, id);
    SendsLength(Exec(sys, Initial(sys), run)[link].sender, id);
  }

  /** What receivers of an id have been given, what the mailbox holds and what is queued, against what was sent. */
  ghost predicate BytesArrive(ch: Channel, id: MsgId, build: Build) {
    var got := Received(Empty(build), ch.server.ops, id);
    var held := After(Empty(build), ch.server.ops).At(id).Content();
    var sent := Flatten(Project(Sends(ch.sender), id));
    && got <= sent
    && (!ch.server.stopped ==> got + held + Flatten(Project(ch.server.queue, id)) == sent)
  }

  lemma FaithfulBytes(ch: Channel, id: MsgId, build: Build)
    requires FaithfulOn(ch, id)
    ensures BytesArrive(ch, id, build)
  {
    hide Sends, Project, Received;
    var w, sent := Writes(ch.server.ops, id), Project(Sends(ch.sender), id);
    Conservation(Empty(build), ch.server.ops, id);
    var got := Received(Empty(build), ch.server.ops, id);
    var held := After(Empty(build), ch.server.ops).At(id).Content();
    assert Empty(build).At(id).Content() == [];
    assert got + held == [] + Flatten(w) == Flatten(w);
    var tail := sent[|w|..];
    assert sent == w + tail;
    FlattenAppend(w, tail);
    if !ch.server.stopped {
      assert tail == Project(ch.server.queue, id);
    }
  }

  /**
   Down to the bytes, for either mailbox build: what receivers of an id have been given, then what the mailbox
   holds, then what is queued, is the concatenation of the sent messages; so receivers always see a prefix of it.
   */
  lemma EndToEndBytes(sys: System, run: seq<Event>, link: Link, id: MsgId, build: Build)
    requires CanRun(sys, Initial(sys), run)
    requires link in Links(sys.cfg) && link.src != link.dst
    ensures BytesArrive(Exec(sys, Initial(sys), run)[link], id, build)
  {
    EndToEnd(sys, run, link, id);
    FaithfulBytes(Exec(sys, Initial(sys), run)[link], id, build);
  }

  // ---------- receivers are heard ----------

  /** What receivers ask of the link's mailbox in a run, in order. */
  function ReceivesOn(run: seq<Event>, link: Link): (asked: seq<Op>)
  {
    if run == [] then []
    else
      var e := run[0];
      (if e.link == link && e.action.Receive? then [Recv(e.action.id, e.action.len)] else [])
      + ReceivesOn(run[1..], link)
  }

  lemma ServerGrows(sys: System, link: Link, ch: Channel, a: Action)
    requires Enabled(sys, link, ch, a)
    ensures var ops' := Next(sys, link, ch, a).server.ops;
            && ch.server.ops <= ops'
            && Asked(ops') == Asked(ch.server.ops) + if a.Receive? then [Recv(a.id, a.len)] else []
  {
    var ops, ops' := ch.server.ops, Next(sys, link, ch, a).server.ops;
    if ops' != ops {
      AskedStep(ops, ops'[|ops|]);
    }
  }

  /**
   What has been done to a mailbox stays done, in order, and the receives among it are those that the run made: so
   each of them gets the reply of the mailbox as it is at that moment.
   */
  lemma {:induction false} ReceivesAreHeard(sys: System, s: State, run: seq<Event>, link: Link)
    requires CanRun(sys, s, run) && link in s
    ensures s[link].server.ops <= Exec(sys, s, run)[link].server.ops
    ensures Asked(Exec(sys, s, run)[link].server.ops) == Asked(s[link].server.ops) + ReceivesOn(run, link)
    decreases run
  {
    hide Enabled, Next, Asked;
    if run != [] {
      var l, a := run[0].link, run[0].action;
      ReceivesAreHeard(sys, s[l := Next(sys, l, s[l], a)], run[1..], link);
      if l == link {
        ServerGrows(sys, link, s[link], a);
      }
    }
  }

  // ---------- after the work queue is destroyed ----------

  /** Only an asynchronous server stops, and then its queue is empty. */
  ghost predicate Sane(sys: System, ch: Channel) {
    ch.server.stopped ==> sys.mode.Async? && ch.server.queue == []
  }

  /** Nothing more gets in, or is said to have got in. */
  ghost predicate Frozen(before: Channel, after: Channel) {
    && after.server.stopped && Entered(after.server) == Entered(before.server)
    && Sends(after.sender) == Sends(before.sender)
    && Successes(after.sender.history) == Successes(before.sender.history)
  }

  lemma SaneStep(sys: System, link: Link, ch: Channel, a: Action)
    requires Enabled(sys, link, ch, a) && Sane(sys, ch)
    ensures Sane(sys, Next(sys, link, ch, a))
    ensures ch.server.stopped ==> Frozen(ch, Next(sys, link, ch, a))
  {
    var ch' := Next(sys, link, ch, a);
    if ch.server.stopped {
      OthersAddNothing(ch.sender, a);
      if a.GiveUp? {
        assert ch'.sender.history[..|ch.sender.history|] == ch.sender.history;
      }
      if a.Receive? {
        WritesStep(ch.server.ops, Recv(a.id, a.len), a.id);
      }
    }
  }

  lemma {:induction false} SaneRun(sys: System, s: State, run: seq<Event>, link: Link)
    requires CanRun(sys, s, run) && link in s && Sane(sys, s[link])
    ensures Sane(sys, Exec(sys, s, run)[link])
    ensures s[link].server.stopped ==> Frozen(s[link], Exec(sys, s, run)[link])
    decreases run
  {
    hide Enabled, Next, Sane, Entered, Sends, Successes;
    if run != [] {
      var l, a := run[0].link, run[0].action;
      if l == link {
        SaneStep(sys, link, s[link], a);
      }
      SaneRun(sys, s[l := Next(sys, l, s[l], a)], run[1..], link);
    }
  }

  /** Once its work queue is destroyed, no further send over a link succeeds or is dispatched, whatever happens. */
  lemma StopIsFinal(sys: System, a: seq<Event>, b: seq<Event>, link: Link)
    requires CanRun(sys, Initial(sys), a) && CanRun(sys, Exec(sys, Initial(sys), a), b) && link in Links(sys.cfg)
    requires Exec(sys, Initial(sys), a)[link].server.stopped
    ensures CanRun(sys, Initial(sys), a + b)
    ensures Frozen(Exec(sys, Initial(sys), a)[link], Exec(sys, Initial(sys), a + b)[link])
  {
    hide Frozen;
    SaneRun(sys, Initial(sys), a, link);
    SaneRun(sys, Exec(sys, Initial(sys), a), b, link);
    RunThen(sys, Initial(sys), a, b);
  }

  // ---------- where the law stops ----------

  /** The link a node has to itself, over a synchronous server that other clients keep running. */
  predicate Swallows(sys: System, link: Link) {
    link.src == link.dst && sys.mode.Sync? && Clients(sys.cfg, link.dst) != {}
  }

  /** Nothing has been dispatched over the link. */
  ghost predicate Untouched(ch: Channel) {
    ch.server.queue == [] && Written(ch.server.ops) == [] && Sends(ch.sender) == []
  }

  lemma UnansweredStep(sys: System, link: Link, ch: Channel, a: Action)
    requires Enabled(sys, link, ch, a) && Untouched(ch)
    requires !Registered(sys, link) && !(sys.mode.Sync? && Clients(sys.cfg, link.dst) != {})
    ensures Untouched(Next(sys, link, ch, a))
  {
    OthersAddNothing(ch.sender, a);
    if a.Receive? {
      WritesStep(ch.server.ops, Recv(a.id, a.len), a.id);
    }
  }

  /** Over a link to itself that is never answered, nothing is ever dispatched. */
  lemma {:induction false} UnansweredStaysEmpty(sys: System, s: State, run: seq<Event>, link: Link)
    requires CanRun(sys, s, run) && link in s
    requires !Registered(sys, link) && !(sys.mode.Sync? && Clients(sys.cfg, link.dst) != {})
    requires Untouched(s[link])
    ensures Untouched(Exec(sys, s, run)[link])
    decreases run
  {
    hide Untouched, Enabled, Next, Registered, Clients;
    if run != [] {
      var l, a := run[0].link, run[0].action;
      if l == link {
        UnansweredStep(sys, link, s[link], a);
      }
      UnansweredStaysEmpty(sys, s[l := Next(sys, l, s[l], a)], run[1..], link);
    }
  }

  lemma SelfSendIsSwallowed(sys: System, link: Link, m: Msg)
    requires link in Links(sys.cfg) && Swallows(sys, link)
    ensures var run := [Event(link, Begin(m)), Event(link, Success)];
            && CanRun(sys, Initial(sys), run)
            && var ch := Exec(sys, Initial(sys), run)[link];
               ch.sender.history == [Sent(m, Succeeded, 0)] && Entered(ch.server) == [] && !Faithful(ch)
  {
    assert !Registered(sys, link);
    var s0, run := Initial(sys), [Event(link, Begin(m)), Event(link, Success)];
    var s1 := s0[link := Next(sys, link, s0[link], Begin(m))];
    var ch := Next(sys, link, s1[link], Success);
    assert run[1..] == [Event(link, Success)] && run[1..][1..] == [];
    assert Exec(sys, s1, run[1..]) == Exec(sys, s1[link := ch], run[1..][1..]) == s1[link := ch];
    assert Exec(sys, s0, run) == Exec(sys, s1, run[1..]);
    AttemptAddsCopy(s1[link].sender, Success);
  }

  /** The delivery law holds on a link, over every run, if and only if the link does not swallow its sends. */
  lemma DeliveryHoldsExactly(sys: System, link: Link)
    requires link in Links(sys.cfg)
    ensures !Swallows(sys, link) <==>
            forall run :: CanRun(sys, Initial(sys), run) ==> Faithful(Exec(sys, Initial(sys), run)[link])
  {
    if Swallows(sys, link) {
      SelfSendIsSwallowed(sys, link, Msg(MsgId(""), []));
    } else {
      forall run | CanRun(sys, Initial(sys), run)
        ensures Faithful(Exec(sys, Initial(sys), run)[link])
      {
        if link.src != link.dst {
          EndToEnd(sys, run, link, MsgId(""));
        } else {
          UnansweredStaysEmpty(sys, Initial(sys), run, link);
        }
      }
    }
  }

  // ---------- the asynchronous receiving end is the work queue ----------

  function ServerOf(q: WorkQueues.Monitor): Server {
    Server(WorkQueues.Messages(q.callbacks), q.done, q.ops)
  }

  /** What the link does at a step of the work queue: an attempt if a call is added, or an action of the receiver. */
  predicate LinkAction(a: Action, step: WorkQueues.Step) {
    match step
    case Add(_) => a.Late? || a.Success?
    case Take => a.Work?
    case Destroy => a.Stop?
    case Receive(id, len) => a == Receive(id, len)
    case _ => false
  }

  /**
   The receiving end of a link is the work queue: each step of its monitor that a link can see is an action that the
   link can take, and leaves the server as the step leaves the queue; other steps leave it alone. A call is added by an
   attempt over an answerable link.
   */
  lemma WorkQueueIsServer(sys: System, link: Link, ch: Channel, q: WorkQueues.Monitor, step: WorkQueues.Step, a: Action)
    requires sys.mode.Async? && Registered(sys, link) && ch.server == ServerOf(q)
    requires WorkQueues.Enabled(q, step) && LinkAction(a, step)
    requires step.Add? ==> ch.sender.current.Some? && ch.sender.current.value.msg == Msg(step.entry.id, step.entry.data)
    ensures Enabled(sys, link, ch, a) <==> (step.Add? ==> Answerable(sys, link, ch.server))
    ensures Enabled(sys, link, ch, a) ==> Next(sys, link, ch, a).server == ServerOf(WorkQueues.Next(q, step))
    ensures !Enabled(sys, link, ch, a) ==> ServerOf(WorkQueues.Next(q, step)) == ch.server
  {
    var queue, queue' := ServerOf(q).queue, ServerOf(WorkQueues.Next(q, step)).queue;
    if step.Take? {
      assert queue' == queue[1..];
    }
    if step.Add? && !q.done {
      assert queue' == queue + [Msg(step.entry.id, step.entry.data)];
    }
  }

  lemma UnseenStep(q: WorkQueues.Monitor, step: WorkQueues.Step)
    requires WorkQueues.Enabled(q, step) && (step.Start? || step.Wake? || step.Park? || step.Exit?)
    ensures ServerOf(WorkQueues.Next(q, step)) == ServerOf(q)
  {
  }

  /** The work queue answers a call with a response exactly when the link is answerable, and otherwise refuses it. */
  lemma AnswerIsAnswerable(sys: System, link: Link, q: WorkQueues.Monitor, e: WorkQueues.Entry)
    requires sys.mode.Async? && Registered(sys, link)
    requires WorkQueues.Enabled(q, WorkQueues.Add(e))
    ensures WorkQueues.Next(q, WorkQueues.Add(e)).completions
         == q.completions + [WorkQueues.Completion(e.call, if Answerable(sys, link, ServerOf(q))
                                                           then WorkQueues.Response else WorkQueues.Exception)]
  {
  }

  // ---------- the asynchronous system refines the synchronous one ----------

  /** Every send succeeded at its first attempt. */
  ghost predicate FirstTime(history: seq<Sent>) {
    forall i :: 0 <= i < |history| ==> history[i].fate.Succeeded? && history[i].late == 0
  }

  /** The synchronous system has done the same to the mailbox, having sent just what was written, one attempt each. */
  ghost predicate MirrorsLink(cfg: Config, link: Link, async: Channel, sync: Channel) {
    && sync.sender.current.None? && FirstTime(sync.sender.history)
    && Sends(sync.sender) == Written(sync.server.ops)
    && sync.server == Server([], false, async.server.ops)
    && (async.server.queue != [] ==> link.src in Clients(cfg, link.dst))
  }

  ghost predicate Mirrors(cfg: Config, async: State, sync: State) {
    && async.Keys == sync.Keys
    && (forall l :: l in async ==> MirrorsLink(cfg, l, async[l], sync[l]))
  }

  predicate CanRunOn(sys: System, link: Link, ch: Channel, actions: seq<Action>)
    decreases actions
  {
    actions == [] ||
    (Enabled(sys, link, ch, actions[0]) && CanRunOn(sys, link, Next(sys, link, ch, actions[0]), actions[1..]))
  }

  function ExecOn(sys: System, link: Link, ch: Channel, actions: seq<Action>): Channel
    requires CanRunOn(sys, link, ch, actions)
    decreases actions
  {
    if actions == [] then ch else ExecOn(sys, link, Next(sys, link, ch, actions[0]), actions[1..])
  }

  function Events(link: Link, actions: seq<Action>): (run: seq<Event>)
    ensures |run| == |actions|
  {
    seq(|actions|, i requires 0 <= i < |actions| => Event(link, actions[i]))
  }

  /** Actions on one link, taken in the whole system. */
  lemma {:induction false} RunOnLink(sys: System, s: State, link: Link, actions: seq<Action>)
    requires link in s && CanRunOn(sys, link, s[link], actions)
    ensures CanRun(sys, s, Events(link, actions))
    ensures Exec(sys, s, Events(link, actions)) == s[link := ExecOn(sys, link, s[link], actions)]
    decreases actions
  {
    hide Enabled, Next;
    if actions == [] {
      assert s[link := s[link]] == s;
    } else {
      var s' := s[link := Next(sys, link, s[link], actions[0])];
      assert Events(link, actions)[1..] == Events(link, actions[1..]);
      RunOnLink(sys, s', link, actions[1..]);
      assert s'[link := ExecOn(sys, link, s'[link], actions[1..])]
          == s[link := ExecOn(sys, link, s[link], actions)];
    }
  }

  /** A send over a registered link to a synchronous server that succeeds at its first attempt. */
  lemma CleanSend(sys: System, link: Link, ch: Channel, m: Msg)
    requires sys.mode.Sync? && Registered(sys, link) && ch.sender.current.None?
    ensures CanRunOn(sys, link, ch, [Begin(m), Success])
    ensures ExecOn(sys, link, ch, [Begin(m), Success])
         == Channel(Sender(ch.sender.history + [Sent(m, Succeeded, 0)], None),
                    ch.server.(ops := ch.server.ops + [Write(m.id, m.data)]))
  {
    var ch1 := Next(sys, link, ch, Begin(m));
    var ch2 := Next(sys, link, ch1, Success);
    assert [Begin(m), Success][1..] == [Success] && [Success][1..] == [];
    assert CanRunOn(sys, link, ch2, []) && ExecOn(sys, link, ch2, []) == ch2;
    assert CanRunOn(sys, link, ch1, [Success]) && ExecOn(sys, link, ch1, [Success]) == ch2;
  }

  lemma CleanSendAdds(history: seq<Sent>, m: Msg)
    ensures Sends(Sender(history + [Sent(m, Succeeded, 0)], None)) == Sends(Sender(history, None)) + [m]
  {
    assert (history + [Sent(m, Succeeded, 0)])[..|history|] == history;
    assert Repeat(m, 1) == Repeat(m, 0) + [m];
  }

  /** When the worker writes a message, the synchronous system sends it. */
  lemma MirrorWork(cfg: Config, link: Link, async: Channel, sync: Channel) returns (mirror: seq<Action>)
    requires MirrorsLink(cfg, link, async, sync) && async.server.queue != []
    ensures CanRunOn(System(cfg, Sync), link, sync, mirror)
    ensures MirrorsLink(cfg, link, async.(server := WorkOne(async.server)),
                        ExecOn(System(cfg, Sync), link, sync, mirror))
  {
    hide CanRunOn, ExecOn, Sends, Written, Project, Clients;
    var m := async.server.queue[0];
    mirror := [Begin(m), Success];
    CleanSend(System(cfg, Sync), link, sync, m);
    CleanSendAdds(sync.sender.history, m);
    WritesStep(sync.server.ops, Write(m.id, m.data), m.id);
  }

  lemma MirrorAction(cfg: Config, link: Link, async: Channel, sync: Channel, a: Action) returns (mirror: seq<Action>)
    requires MirrorsLink(cfg, link, async, sync) && Enabled(System(cfg, Async), link, async, a)
    ensures CanRunOn(System(cfg, Sync), link, sync, mirror)
    ensures MirrorsLink(cfg, link, Next(System(cfg, Async), link, async, a),
                        ExecOn(System(cfg, Sync), link, sync, mirror))
  {
    match a
    case Work => mirror := MirrorWork(cfg, link, async, sync);
    case Receive(id, len) =>
      mirror := [a];
      assert mirror[1..] == [];
      WritesStep(sync.server.ops, Recv(id, len), id);
    case _ => mirror := [];
  }

  lemma {:induction false} MirrorRun(cfg: Config, async: State, sync: State, run: seq<Event>)
    returns (mirror: seq<Event>)
    requires Mirrors(cfg, async, sync) && CanRun(System(cfg, Async), async, run)
    ensures CanRun(System(cfg, Sync), sync, mirror)
    ensures Mirrors(cfg, Exec(System(cfg, Async), async, run), Exec(System(cfg, Sync), sync, mirror))
    decreases run
  {
    hide MirrorsLink, Enabled, Next, CanRunOn, ExecOn;
    if run == [] {
      mirror := [];
    } else {
      var l, a := run[0].link, run[0].action;
      var first := MirrorAction(cfg, l, async[l], sync[l], a);
      RunOnLink(System(cfg, Sync), sync, l, first);
      var rest := MirrorRun(cfg, async[l := Next(System(cfg, Async), l, async[l], a)],
                            Exec(System(cfg, Sync), sync, Events(l, first)), run[1..]);
      RunThen(System(cfg, Sync), sync, Events(l, first), rest);
      mirror := Events(l, first) + rest;
    }
  }

  /** What the mirror did over a link: no more and no less than the asynchronous server made of what it accepted. */
  ghost predicate SameSends(async: Channel, sync: Channel) {
    && sync.sender.current.None? && FirstTime(sync.sender.history)
    && if async.server.stopped then Sends(sync.sender) <= Sends(async.sender)
       else Sends(sync.sender) + async.server.queue == Sends(async.sender)
  }

  /**
   Forward simulation of whole systems: for every run with asynchronous servers there is a run of the same nodes with
   synchronous servers in which exactly the same is done to every mailbox, so that every receive gets the same reply,
   and in which, over every link and across all message ids, the nodes send, at the first attempt, the messages the
   asynchronous run sent, in order and with the same multiplicity, short of those still queued; once a queue has been
   destroyed, a prefix of them.
   */
  lemma AsyncSystemRefinesSync(cfg: Config, run: seq<Event>) returns (mirror: seq<Event>)
    requires CanRun(System(cfg, Async), Initial(System(cfg, Async)), run)
    ensures CanRun(System(cfg, Sync), Initial(System(cfg, Sync)), mirror)
    ensures var async := Exec(System(cfg, Async), Initial(System(cfg, Async)), run);
            var sync := Exec(System(cfg, Sync), Initial(System(cfg, Sync)), mirror);
            && async.Keys == sync.Keys
            && (forall l :: l in async ==> async[l].server.ops == sync[l].server.ops && SameSends(async[l], sync[l]))
  {
    mirror := MirrorRun(cfg, Initial(System(cfg, Async)), Initial(System(cfg, Sync)), run);
    var async := Exec(System(cfg, Async), Initial(System(cfg, Async)), run);
    var sync := Exec(System(cfg, Sync), Initial(System(cfg, Sync)), mirror);
    forall l | l in async
      ensures async[l].server.ops == sync[l].server.ops && SameSends(async[l], sync[l])
    {
      assert MirrorsLink(cfg, l, async[l], sync[l]);
      DeliveryHoldsExactly(System(cfg, Async), l);
    }
  }

  // ---------- a queue can always be worked off ----------

  lemma {:induction false} RepeatTail<T>(x: T, k: nat)
    requires k > 0
    ensures Repeat(x, k)[0] == x && Repeat(x, k)[1..] == Repeat(x, k - 1)
  {
    if k > 1 {
      RepeatTail(x, k - 1);
    }
  }

  lemma {:induction false} WorkOff(sys: System, link: Link, ch: Channel)
    requires sys.mode.Async?
    ensures var works := Repeat(Work, |ch.server.queue|);
            && CanRunOn(sys, link, ch, works)
            && var ch' := ExecOn(sys, link, ch, works);
               ch'.sender == ch.sender && ch'.server.queue == [] && Written(ch'.server.ops) == Entered(ch.server)
    decreases |ch.server.queue|
  {
    var works := Repeat(Work, |ch.server.queue|);
    if ch.server.queue != [] {
      RepeatTail(Work, |ch.server.queue|);
      WorkKeeps(ch.server);
      WorkOff(sys, link, Next(sys, link, ch, Work));
    }
  }

  /** From every reachable state the workers can write all there is: then everything sent is in the mailbox. */
  lemma QueueDrains(cfg: Config, run: seq<Event>, link: Link) returns (more: seq<Event>)
    requires CanRun(System(cfg, Async), Initial(System(cfg, Async)), run)
    requires link in Links(cfg) && link.src != link.dst
    ensures var sys := System(cfg, Async);
            && CanRun(sys, Initial(sys), run + more)
            && var before, after := Exec(sys, Initial(sys), run)[link], Exec(sys, Initial(sys), run + more)[link];
               && after.sender == before.sender && after.server.queue == []
               && (!before.server.stopped ==> Written(after.server.ops) == Sends(before.sender))
  {
    var sys := System(cfg, Async);
    var s := Exec(sys, Initial(sys), run);
    EndToEnd(sys, run, link, MsgId(""));
    WorkOff(sys, link, s[link]);
    var works := Repeat(Work, |s[link].server.queue|);
    RunOnLink(sys, s, link, works);
    RunThen(sys, Initial(sys), run, Events(link, works));
    more := Events(link, works);
  }

  // ---------- a retry loop is one send ----------

  /**
   A call of `send` as its retry loop makes it: what each attempt did, whether it was dispatched, and how the loop
   ended.
   */
  datatype Call = Call(msg: Msg, env: nat -> Attempt, dispatched: nat -> bool, outcome: Outcome, attempts: nat)

  function AttemptOf(c: Call, k: nat): Action {
    if c.env(k).ok then Success else if c.dispatched(k) then Late else Lost
  }

  /** The first `k` attempts. */
  function Attempts(c: Call, k: nat): (actions: seq<Action>)
    ensures |actions| == k
  {
    if k == 0 then [] else Attempts(c, k - 1) + [AttemptOf(c, k - 1)]
  }

  /** Everything the sender does for the call. */
  function LoopActions(c: Call): seq<Action> {
    [Begin(c.msg)] + Attempts(c, c.attempts) + if c.outcome.GaveUp? then [GiveUp] else []
  }

  /** How many of the first `k` attempts failed after their dispatch. */
  function LateAttempts(c: Call, k: nat): (n: nat)
    ensures n <= k
  {
    if k == 0 then 0 else LateAttempts(c, k - 1) + if AttemptOf(c, k - 1).Late? then 1 else 0
  }

  function SentBy(c: Call): Sent {
    Sent(c.msg, c.outcome, LateAttempts(c, c.attempts))
  }

  /** One call after the other. */
  function AllActions(calls: seq<Call>): (actions: seq<Action>)
  {
    if |calls| == 0 then [] else LoopActions(calls[0]) + AllActions(calls[1..])
  }

  function AllSent(calls: seq<Call>): (history: seq<Sent>)
    ensures |history| == |calls|
  {
    seq(|calls|, i requires 0 <= i < |calls| => SentBy(calls[i]))
  }

  /** The sender's half of a run on one link; anything may happen elsewhere, and at the receiving end, in between. */
  function SenderActions(run: seq<Event>, link: Link): (actions: seq<Action>)
  {
    if run == [] then []
    else
      (if run[0].link == link && run[0].action.BySender() then [run[0].action] else [])
      + SenderActions(run[1..], link)
  }

  predicate SenderCanRun(s: Sender, actions: seq<Action>)
    decreases actions
  {
    actions == [] || (SenderCan(s, actions[0]) && SenderCanRun(SenderNext(s, actions[0]), actions[1..]))
  }

  function SenderExec(s: Sender, actions: seq<Action>): Sender
    requires SenderCanRun(s, actions)
    decreases actions
  {
    if actions == [] then s else SenderExec(SenderNext(s, actions[0]), actions[1..])
  }

  /** A sender sees only its own actions. */
  lemma {:induction false} SenderHalf(sys: System, s: State, run: seq<Event>, link: Link)
    requires CanRun(sys, s, run) && link in s
    ensures SenderCanRun(s[link].sender, SenderActions(run, link))
    ensures Exec(sys, s, run)[link].sender == SenderExec(s[link].sender, SenderActions(run, link))
    decreases run
  {
    if run != [] {
      var l, a := run[0].link, run[0].action;
      SenderHalf(sys, s[l := Next(sys, l, s[l], a)], run[1..], link);
      if l == link && a.BySender() {
        assert SenderActions(run, link)[1..] == SenderActions(run[1..], link);
      } else {
        assert SenderActions(run, link) == SenderActions(run[1..], link);
      }
    }
  }

  lemma {:induction false} SenderThen(s: Sender, a: seq<Action>, b: seq<Action>)
    requires SenderCanRun(s, a) && SenderCanRun(SenderExec(s, a), b)
    ensures SenderCanRun(s, a + b) && SenderExec(s, a + b) == SenderExec(SenderExec(s, a), b)
    decreases a
  {
    if a == [] {
      assert a + b == b;
    } else {
      assert (a + b)[1..] == a[1..] + b;
      SenderThen(SenderNext(s, a[0]), a[1..], b);
    }
  }

  lemma SenderThenOne(s: Sender, a: seq<Action>, b: Action)
    requires SenderCanRun(s, a) && SenderCan(SenderExec(s, a), b)
    ensures SenderCanRun(s, a + [b]) && SenderExec(s, a + [b]) == SenderNext(SenderExec(s, a), b)
  {
    assert [b][1..] == [];
    SenderThen(s, a, [b]);
  }

  /** The call is under way and has made `k` attempts, none of them successful. */
  lemma {:induction false} AfterFailures(c: Call, h: seq<Sent>, k: nat)
    requires forall i :: 0 <= i < k ==> !c.env(i).ok
    ensures var actions := [Begin(c.msg)] + Attempts(c, k);
            && SenderCanRun(Sender(h, None), actions)
            && SenderExec(Sender(h, None), actions) == Sender(h, Some(Sending(c.msg, LateAttempts(c, k))))
  {
    if k == 0 {
      assert [Begin(c.msg)] + Attempts(c, 0) == [] + [Begin(c.msg)];
      SenderThenOne(Sender(h, None), [], Begin(c.msg));
    } else {
      AfterFailures(c, h, k - 1);
      var before := [Begin(c.msg)] + Attempts(c, k - 1);
      assert [Begin(c.msg)] + Attempts(c, k) == before + [AttemptOf(c, k - 1)];
      SenderThenOne(Sender(h, None), before, AttemptOf(c, k - 1));
    }
  }

  ghost predicate ByLoop(c: Call, timeout: nat, period: nat) {
    Looped(c.env, timeout, period, c.outcome, c.attempts)
  }

  /** Every attempt failed but a last successful one. */
  lemma OthersFailed(c: Call, timeout: nat, period: nat)
    requires ByLoop(c, timeout, period)
    ensures forall i :: 0 <= i < c.attempts && (i < c.attempts - 1 || c.outcome.GaveUp?) ==> !c.env(i).ok
  {
    forall i | 0 <= i < c.attempts - 1
      ensures !c.env(i).ok
    {
      assert FailedEarly(c.env, timeout, period, i);
    }
  }

  /** The whole loop is one finished send. */
  lemma WholeLoop(c: Call, h: seq<Sent>, timeout: nat, period: nat)
    requires ByLoop(c, timeout, period)
    ensures SenderCanRun(Sender(h, None), LoopActions(c))
    ensures SenderExec(Sender(h, None), LoopActions(c)) == Sender(h + [SentBy(c)], None)
  {
    var n := c.attempts;
    OthersFailed(c, timeout, period);
    if c.outcome.GaveUp? {
      AfterFailures(c, h, n);
      SenderThenOne(Sender(h, None), [Begin(c.msg)] + Attempts(c, n), GiveUp);
    } else {
      AfterFailures(c, h, n - 1);
      SenderThenOne(Sender(h, None), [Begin(c.msg)] + Attempts(c, n - 1), Success);
      assert LoopActions(c) == [Begin(c.msg)] + Attempts(c, n - 1) + [Success];
    }
  }

  lemma {:induction false} AttemptsPrefix(c: Call, k: nat, n: nat)
    requires k <= n
    ensures Attempts(c, n)[..k] == Attempts(c, k)
    decreases n
  {
    if k < n {
      AttemptsPrefix(c, k, n - 1);
      assert Attempts(c, n)[..k] == Attempts(c, n - 1)[..k];
    }
  }

  /** A loop that has begun and not ended has a send in progress, and has made no more attempts than the loop will. */
  lemma PartOfLoop(c: Call, h: seq<Sent>, timeout: nat, period: nat, actions: seq<Action>) returns (k: nat)
    requires ByLoop(c, timeout, period)
    requires actions <= LoopActions(c) && 0 < |actions| < |LoopActions(c)|
    ensures k <= c.attempts
    ensures SenderCanRun(Sender(h, None), actions)
    ensures SenderExec(Sender(h, None), actions) == Sender(h, Some(Sending(c.msg, LateAttempts(c, k))))
  {
    k := |actions| - 1;
    AttemptsPrefix(c, k, c.attempts);
    assert actions == LoopActions(c)[..k + 1] == [Begin(c.msg)] + Attempts(c, k);
    OthersFailed(c, timeout, period);
    AfterFailures(c, h, k);
  }

  /** The sender has finished the first `k` calls, and perhaps begun the next one. */
  ghost predicate Through(s: Sender, h: seq<Sent>, calls: seq<Call>, k: nat) {
    && k <= |calls|
    && s.history == h + AllSent(calls[..k])
    && (s.current.Some? ==>
          && k < |calls| && s.current.value.msg == calls[k].msg
          && s.current.value.late <= calls[k].attempts)
  }

  lemma {:induction false} CallsRun(calls: seq<Call>, h: seq<Sent>, timeout: nat, period: nat, actions: seq<Action>)
    returns (k: nat)
    requires forall i :: 0 <= i < |calls| ==> ByLoop(calls[i], timeout, period)
    requires actions <= AllActions(calls)
    ensures SenderCanRun(Sender(h, None), actions)
    ensures Through(SenderExec(Sender(h, None), actions), h, calls, k)
    decreases |calls|
  {
    k := 0;
    assert h + AllSent(calls[..0]) == h;
    if actions != [] {
      var c := calls[0];
      var whole := LoopActions(c);
      assert AllActions(calls) == whole + AllActions(calls[1..]);
      if |actions| < |whole| {
        assert actions <= whole;
        var _ := PartOfLoop(c, h, timeout, period, actions);
      } else {
        var rest := actions[|whole|..];
        assert actions == whole + rest;
        WholeLoop(c, h, timeout, period);
        var k' := CallsRun(calls[1..], h + [SentBy(c)], timeout, period, rest);
        SenderThen(Sender(h, None), whole, rest);
        k := k' + 1;
        assert AllSent(calls[..k]) == [SentBy(c)] + AllSent(calls[1..][..k']);
      }
    }
  }

  lemma CopiesAreBounded(c: Call, timeout: nat, period: nat)
    requires period > 0 && ByLoop(c, timeout, period)
    ensures Copies(SentBy(c)) <= c.attempts <= MaxAttempts(timeout, period)
  {
    LoopIsBounded(c.env, timeout, period, c.outcome, c.attempts);
    assert c.outcome.Succeeded? ==> LateAttempts(c, c.attempts) == LateAttempts(c, c.attempts - 1);
  }

  /** The finished sends are the first calls, as their loops ended them; a next one may be in progress. */
  ghost predicate SendsAreCalls(s: Sender, calls: seq<Call>, max: nat) {
    var k := |s.history|;
    && k <= |calls| && s.history == AllSent(calls[..k])
    && (forall x :: x in s.history ==> Copies(x) <= max)
    && (s.current.Some? ==> k < |calls| && s.current.value.msg == calls[k].msg && s.current.value.late <= max)
  }

  lemma {:induction false} ThroughIsBounded(s: Sender, calls: seq<Call>, k: nat, timeout: nat, period: nat)
    requires period > 0 && forall i :: 0 <= i < |calls| ==> ByLoop(calls[i], timeout, period)
    requires Through(s, [], calls, k)
    ensures SendsAreCalls(s, calls, MaxAttempts(timeout, period))
  {
    hide MaxAttempts, Copies, ByLoop, SentBy;
    forall i | 0 <= i < |calls|
      ensures Copies(SentBy(calls[i])) <= calls[i].attempts <= MaxAttempts(timeout, period)
    {
      CopiesAreBounded(calls[i], timeout, period);
    }
    assert s.history == AllSent(calls[..k]);
  }

  /**
   Over every run of the whole system in which a sender's actions are those of retry loops, one call after the other,
   whatever the receiving end and the other links do in between: the finished sends are the finished calls, each with
   its loop's outcome and with as many late copies as it had failed attempts that were dispatched; and no message is
   ever dispatched more than ceil(timeout / period) + 1 times.
   */
  lemma {:induction false} RetriesAreSends(sys: System, run: seq<Event>, link: Link, calls: seq<Call>,
                                           timeout: nat, period: nat)
    requires CanRun(sys, Initial(sys), run) && link in Links(sys.cfg)
    requires period > 0 && forall i :: 0 <= i < |calls| ==> ByLoop(calls[i], timeout, period)
    requires SenderActions(run, link) <= AllActions(calls)
    ensures SendsAreCalls(Exec(sys, Initial(sys), run)[link].sender, calls, MaxAttempts(timeout, period))
  {
    hide SendsAreCalls, Through, MaxAttempts, ByLoop, SenderActions, AllActions;
    SenderHalf(sys, Initial(sys), run, link);
    var k := CallsRun(calls, [], timeout, period, SenderActions(run, link));
    ThroughIsBounded(Exec(sys, Initial(sys), run)[link].sender, calls, k, timeout, period);
  }

  /** How many of the sends were on `id`. */
  function SendsOn(history: seq<Sent>, id: MsgId): (n: nat)
    ensures n <= |history|
    ensures (forall s :: s in history ==> s.msg.id != id) ==> n == 0
  {
    if history == [] then 0
    else SendsOn(history[..|history| - 1], id) + if history[|history| - 1].msg.id == id then 1 else 0
  }

  lemma OneMore(max: nat, n: nat, copies: nat, more: nat)
    requires copies <= max * n && more <= max
    ensures copies <= max * (n + 1) && copies + more <= max * (n + 1)
  {
    assert max * (n + 1) == max * n + max;
  }

  lemma {:induction false} ExpandIsBounded(history: seq<Sent>, id: MsgId, max: nat)
    requires forall s :: s in history ==> Copies(s) <= max
    ensures |Project(Expand(history), id)| <= max * SendsOn(history, id)
  {
    if history == [] {
      assert Expand(history) == [];
    } else {
      hide Project, Expand, Copies;
      var before, s := history[..|history| - 1], history[|history| - 1];
      assert s in history && SendsOn(history, id) == SendsOn(before, id) + if s.msg.id == id then 1 else 0;
      hide SendsOn;
      ExpandIsBounded(before, id, max);
      ExpandStep(history, id);
      OneMore(max, SendsOn(before, id), |Project(Expand(before), id)|, Copies(s));
    }
  }

  lemma SendsAreBounded(s: Sender, id: MsgId, max: nat)
    requires forall x :: x in s.history ==> Copies(x) <= max
    requires s.current.Some? ==> s.current.value.late <= max
    ensures |Project(Sends(s), id)| <= max * (SendsOn(s.history, id) + 1)
  {
    hide Project, Copies;
    ExpandIsBounded(s.history, id, max);
    ProjectAppend(Expand(s.history), InFlight(s.current), id);
    if s.current.Some? {
      ProjectRepeat(s.current.value.msg, s.current.value.late, id);
    } else {
      ProjectRepeat(Msg(id, []), 0, id);
    }
    OneMore(max, SendsOn(s.history, id), |Project(Expand(s.history), id)|, |Project(InFlight(s.current), id)|);
  }

  lemma FaithfulIsBounded(ch: Channel, id: MsgId, max: nat)
    requires Faithful(ch)
    requires forall x :: x in ch.sender.history ==> Copies(x) <= max
    requires ch.sender.current.Some? ==> ch.sender.current.value.late <= max
    ensures |Project(Entered(ch.server), id)| <= max * (SendsOn(ch.sender.history, id) + 1)
    ensures ch.sender.current.None? ==> |Project(Entered(ch.server), id)| <= max * SendsOn(ch.sender.history, id)
  {
    FaithfulOnEachId(ch, id);
    hide Project, Copies;
    SendsAreBounded(ch.sender, id, max);
    ExpandIsBounded(ch.sender.history, id, max);
    assert ch.sender.current.None? ==> Sends(ch.sender) == Expand(ch.sender.history);
    assert ch.server.stopped ==> Entered(ch.server) == Written(ch.server.ops);
  }

  /** So no more than that many copies for each send on an id, finished or in progress, ever enter the receiving end. */
  lemma ArrivalsAreBounded(sys: System, run: seq<Event>, link: Link, calls: seq<Call>, timeout: nat, period: nat,
                           id: MsgId)
    requires CanRun(sys, Initial(sys), run) && link in Links(sys.cfg) && link.src != link.dst
    requires period > 0 && forall i :: 0 <= i < |calls| ==> ByLoop(calls[i], timeout, period)
    requires SenderActions(run, link) <= AllActions(calls)
    ensures var ch := Exec(sys, Initial(sys), run)[link];
            var max, sends := MaxAttempts(timeout, period), SendsOn(ch.sender.history, id);
            && |Project(Entered(ch.server), id)| <= max * (sends + 1)
            && (ch.sender.current.None? ==> |Project(Entered(ch.server), id)| <= max * sends)
  {
    hide MaxAttempts, Project, Copies, SendsOn, Servers, Clients, Enabled, Next, AllActions, SenderActions, AllSent;
    RetriesAreSends(sys, run, link, calls, timeout, period);
    EndToEnd(sys, run, link, id);
    FaithfulIsBounded(Exec(sys, Initial(sys), run)[link], id, MaxAttempts(timeout, period));
  }

  lemma {:induction false} AllBySender(calls: seq<Call>)
    ensures forall a :: a in AllActions(calls) ==> a.BySender()
  {
    if |calls| > 0 {
      AllBySender(calls[1..]);
      AttemptsBySender(calls[0], calls[0].attempts);
    }
  }

  lemma {:induction false} AttemptsBySender(c: Call, k: nat)
    ensures forall a :: a in Attempts(c, k) ==> a.BySender()
  {
    if k > 0 {
      AttemptsBySender(c, k - 1);
    }
  }

  lemma {:induction false} SenderRunsOnLink(sys: System, link: Link, ch: Channel, actions: seq<Action>)
    requires SenderCanRun(ch.sender, actions) && forall a :: a in actions ==> a.BySender()
    requires Registered(sys, link) && !ch.server.stopped
    ensures CanRunOn(sys, link, ch, actions)
    decreases actions
  {
    if actions != [] {
      assert actions[0] in actions;
      SenderRunsOnLink(sys, link, Next(sys, link, ch, actions[0]), actions[1..]);
    }
  }

  lemma {:induction false} SenderActionsOf(link: Link, actions: seq<Action>)
    requires forall a :: a in actions ==> a.BySender()
    ensures SenderActions(Events(link, actions), link) == actions
  {
    if actions != [] {
      assert actions[0] in actions;
      assert Events(link, actions)[1..] == Events(link, actions[1..]);
      SenderActionsOf(link, actions[1..]);
    }
  }

  /** Whatever the loops met with, a running server lets them take place. */
  lemma LoopsCanRun(sys: System, link: Link, calls: seq<Call>, timeout: nat, period: nat) returns (run: seq<Event>)
    requires link in Links(sys.cfg) && link.src != link.dst
    requires forall i :: 0 <= i < |calls| ==> ByLoop(calls[i], timeout, period)
    ensures CanRun(sys, Initial(sys), run) && SenderActions(run, link) == AllActions(calls)
  {
    var actions := AllActions(calls);
    var _ := CallsRun(calls, [], timeout, period, actions);
    AllBySender(calls);
    LinkIsRegistered(sys, link);
    SenderRunsOnLink(sys, link, Initial(sys)[link], actions);
    RunOnLink(sys, Initial(sys), link, actions);
    SenderActionsOf(link, actions);
    run := Events(link, actions);
  }
}
