/**
 What a mailbox (`ClientConnection`) means, for both builds: per message id a byte stream (`USE_BUFFER`) or
 a queue of messages, and the laws that hold over every run of writes and receives.
 */
module Mailbox {
  import opened Bytes

  datatype MsgId = MsgId(name: string)

  datatype Msg = Msg(id: MsgId, data: Message)

  datatype Build = Buffered | Queued

  /** What is held for one message id. */
  datatype Slot = Stream(bytes: Message) | Queue(messages: seq<Message>) {

    function Put(m: Message): Slot {
      match this
      case Stream(b) => Stream(b + m)
      case Queue(q) => Queue(q + [m])
    }

    /** A receive of `len` bytes is served at once; the queue build does not look at `len`. */
    predicate Ready(len: nat) {
      match this
      case Stream(b) => b != [] && len <= |b|
      case Queue(q) => q != []
    }

    function Take(len: nat): Message
      requires Ready(len)
    {
      match this
      case Stream(b) => b[..len]
      case Queue(q) => q[0]
    }

    function Rest(len: nat): Slot
      requires Ready(len)
    {
      match this
      case Stream(b) => Stream(b[len..])
      case Queue(q) => Queue(q[1..])
    }

    /** The held bytes, oldest first. */
    function Content(): Message {
      match this
      case Stream(b) => b
      case Queue(q) => Flatten(q)
    }
  }

  function Fresh(build: Build): Slot {
    match build
    case Buffered => Stream([])
    case Queued => Queue([])
  }

  datatype Box = Box(build: Build, slots: map<MsgId, Slot>) {

    function At(id: MsgId): Slot {
      if id in slots then slots[id] else Fresh(build)
    }

    function Write(id: MsgId, m: Message): Box {
      this.(slots := slots[id := At(id).Put(m)])
    }

    /** One pass of a receive: the reply, or nothing when it would have to wait (and perhaps time out). */
    function Reply(id: MsgId, len: nat): Option<Message> {
      if At(id).Ready(len) then Some(At(id).Take(len)) else None
    }

    function Receive(id: MsgId, len: nat): Box {
      if At(id).Ready(len) then this.(slots := slots[id := At(id).Rest(len)]) else this
    }
  }

  function Empty(build: Build): Box {
    Box(build, map[])
  }

  datatype Op = Write(id: MsgId, m: Message) | Recv(id: MsgId, len: nat) {

    /** The effect of the operation on the slot of its id. */
    function Apply(slot: Slot): Slot {
      match this
      case Write(_, m) => slot.Put(m)
      case Recv(_, len) => if slot.Ready(len) then slot.Rest(len) else slot
    }

    function Arriving(): seq<Message> {
      if Write? then [m] else []
    }
  }

  function Step(box: Box, op: Op): Box {
    match op
    case Write(id, m) => box.Write(id, m)
    case Recv(id, len) => box.Receive(id, len)
  }

  function Output(box: Box, op: Op): Option<Message> {
    match op
    case Write(_, _) => None
    case Recv(id, len) => box.Reply(id, len)
  }

  /** The mailbox after a run of operations. */
  function After(box: Box, ops: seq<Op>): (b: Box)
  {
    if ops == [] then box else Step(After(box, ops[..|ops| - 1]), ops[|ops| - 1])
  }

  lemma {:induction false} AfterAppend(box: Box, a: seq<Op>, b: seq<Op>)
    ensures After(box, a + b) == After(After(box, a), b)
  {
    if b == [] {
      assert a + b == a;
    } else {
      assert (a + b)[..|a + b| - 1] == a + b[..|b| - 1];
      AfterAppend(box, a, b[..|b| - 1]);
    }
  }

  /** The reply to each operation of a run; a write and a receive that found too little reply nothing. */
  function Outputs(box: Box, ops: seq<Op>): (outs: seq<Option<Message>>)
    ensures |outs| == |ops|
  {
    if ops == [] then []
    else
      var before := ops[..|ops| - 1];
      Outputs(box, before) + [Output(After(box, before), ops[|ops| - 1])]
  }

  /** The data of the messages for `id`, in order. */
  function Project(ms: seq<Msg>, id: MsgId): (ds: seq<Message>)
  {
    if ms == [] then []
    else
      var m := ms[|ms| - 1];
      Project(ms[..|ms| - 1], id) + if m.id == id then [m.data] else []
  }

  lemma {:induction false} ProjectSnoc(ms: seq<Msg>, m: Msg, id: MsgId)
    ensures Project(ms + [m], id) == Project(ms, id) + if m.id == id then [m.data] else []
  {
    assert (ms + [m])[..|ms|] == ms;
  }

  lemma {:induction false} ProjectAppend(a: seq<Msg>, b: seq<Msg>, id: MsgId)
    ensures Project(a + b, id) == Project(a, id) + Project(b, id)
  {
    if b == [] {
      assert a + b == a;
    } else {
      assert (a + b)[..|a + b| - 1] == a + b[..|b| - 1];
      ProjectAppend(a, b[..|b| - 1], id);
    }
  }

  /** Every message a run wrote, whatever its id, in order. */
  function Written(ops: seq<Op>): (ms: seq<Msg>)
  {
    if ops == [] then []
    else
      var op := ops[|ops| - 1];
      Written(ops[..|ops| - 1]) + if op.Write? then [Msg(op.id, op.m)] else []
  }

  /** The messages written to `id` by a run, in order. */
  function Writes(ops: seq<Op>, id: MsgId): seq<Message> {
    Project(Written(ops), id)
  }

  lemma WritesStep(before: seq<Op>, op: Op, id: MsgId)
    ensures Written(before + [op]) == Written(before) + if op.Write? then [Msg(op.id, op.m)] else []
    ensures Writes(before + [op], id) == Writes(before, id) + if op.id == id then op.Arriving() else []
  {
    assert (before + [op])[..|before|] == before;
    if op.Write? {
      var w := Written(before);
      assert (w + [Msg(op.id, op.m)])[..|w|] == w;
    } else {
      assert Written(before + [op]) == Written(before);
    }
  }

  /** The receives of a run, in order. */
  function Asked(ops: seq<Op>): (asked: seq<Op>)
  {
    if ops == [] then []
    else
      var op := ops[|ops| - 1];
      Asked(ops[..|ops| - 1]) + if op.Recv? then [op] else []
  }

  lemma AskedStep(before: seq<Op>, op: Op)
    ensures Asked(before + [op]) == Asked(before) + if op.Recv? then [op] else []
  {
    assert (before + [op])[..|before|] == before;
  }

  /** The replies among `outs` to the receives of `id`, in order. */
  function Replies(ops: seq<Op>, outs: seq<Option<Message>>, id: MsgId): (ms: seq<Message>)
    requires |ops| == |outs|
  {
    if ops == [] then []
    else
      var last := |ops| - 1;
      Replies(ops[..last], outs[..last], id)
      + if ops[last].Recv? && ops[last].id == id && outs[last].Some? then [outs[last].value] else []
  }

  /** The messages or stretches of bytes that a run replied to receivers of `id`, in order. */
  function Handed(box: Box, ops: seq<Op>, id: MsgId): seq<Message> {
    Replies(ops, Outputs(box, ops), id)
  }

  /** The bytes handed to receivers of `id` by a run, in order. */
  function Received(box: Box, ops: seq<Op>, id: MsgId): Message {
    Flatten(Handed(box, ops, id))
  }

  function Given(out: Option<Message>): seq<Message> {
    if out.Some? then [out.value] else []
  }

  lemma HandedStep(box: Box, before: seq<Op>, op: Op, id: MsgId)
    ensures Handed(box, before + [op], id)
         == Handed(box, before, id) + if op.id == id then Given(Output(After(box, before), op)) else []
  {
    var ops := before + [op];
    assert ops[..|before|] == before;
    assert Outputs(box, ops)[..|before|] == Outputs(box, before);
  }

  /** An operation touches the slot of its own id and no other. */
  lemma StepAt(box: Box, op: Op, id: MsgId)
    ensures Step(box, op).At(id) == if op.id == id then op.Apply(box.At(id)) else box.At(id)
    ensures Step(box, op).build == box.build
  {
  }

  /** A reply is what was held first: followed by what is left, it is what was held and what arrived. */
  lemma StepConservation(box: Box, op: Op)
    ensures Flatten(Given(Output(box, op))) + Step(box, op).At(op.id).Content()
         == box.At(op.id).Content() + Flatten(op.Arriving())
  {
    StepAt(box, op, op.id);
    var slot, out := box.At(op.id), Output(box, op);
    if op.Write? {
      assert Flatten([op.m]) == op.m;
      if slot.Queue? {
        FlattenSingle(slot.messages, op.m);
      }
    } else if out.Some? {
      assert Flatten([out.value]) == out.value;
    }
  }

  /** `m` was the front of what was held for `id`: the bytes, and in the queue build the whole message. */
  ghost predicate HandsOver(before: Box, after: Box, id: MsgId, m: Message) {
    && before.At(id).Content() == m + after.At(id).Content()
    && (before.At(id).Queue? ==> after.At(id).Queue? && before.At(id).messages == [m] + after.At(id).messages)
  }

  lemma ReplyIsFront(box: Box, id: MsgId, len: nat)
    requires box.Reply(id, len).Some?
    ensures HandsOver(box, box.Receive(id, len), id, box.Reply(id, len).value)
  {
    StepAt(box, Recv(id, len), id);
  }

  /**
   Conservation, for either build and every run: what was replied to receivers of an id, followed by what is still
   held for it, is what was held at first followed by what was written.
   */
  lemma {:induction false} Conservation(box: Box, ops: seq<Op>, id: MsgId)
    ensures Received(box, ops, id) + After(box, ops).At(id).Content()
         == box.At(id).Content() + Flatten(Writes(ops, id))
  {
    if ops == [] {
      assert [] + box.At(id).Content() == box.At(id).Content() + [];
    } else {
      var before, op := ops[..|ops| - 1], ops[|ops| - 1];
      Conservation(box, before, id);
      assert ops == before + [op];
      var mid := After(box, before);
      WritesStep(before, op, id);
      HandedStep(box, before, op, id);
      StepAt(mid, op, id);
      if op.id == id {
        var given := Given(Output(mid, op));
        StepConservation(mid, op);
        FlattenAppend(Writes(before, id), op.Arriving());
        FlattenAppend(Handed(box, before, id), given);
        Regroup(Received(box, before, id), mid.At(id).Content(), box.At(id).Content(), Flatten(Writes(before, id)),
                Flatten(given), Step(mid, op).At(id).Content(), Flatten(op.Arriving()));
      } else {
        assert Writes(ops, id) == Writes(before, id) && Handed(box, ops, id) == Handed(box, before, id);
      }
    }
  }

  /** The queue build keeps messages whole: those replied, then those queued, are those written. */
  lemma {:induction false} MessagesAreKept(ops: seq<Op>, id: MsgId)
    ensures var slot := After(Empty(Queued), ops).At(id);
            slot.Queue? && Handed(Empty(Queued), ops, id) + slot.messages == Writes(ops, id)
  {
    if ops != [] {
      var before, op := ops[..|ops| - 1], ops[|ops| - 1];
      MessagesAreKept(before, id);
      assert ops == before + [op];
      WritesStep(before, op, id);
      HandedStep(Empty(Queued), before, op, id);
      StepAt(After(Empty(Queued), before), op, id);
    }
  }

  lemma Regroup(got: Message, held: Message, first: Message, sent: Message,
                more: Message, left: Message, arrived: Message)
    requires got + held == first + sent
    requires more + left == held + arrived
    ensures (got + more) + left == first + (sent + arrived)
  {
    assert (got + more) + left == got + (more + left) == (got + held) + arrived == first + (sent + arrived);
  }

  /** The operations of a run that concern `id`. */
  function Only(ops: seq<Op>, id: MsgId): (some: seq<Op>)
  {
    if ops == [] then []
    else
      var op := ops[|ops| - 1];
      Only(ops[..|ops| - 1], id) + if op.id == id then [op] else []
  }

  /** Isolation: for one id a run behaves as if the operations on all the other ids had not happened. */
  lemma {:induction false} Isolation(box: Box, ops: seq<Op>, id: MsgId)
    ensures After(box, ops).At(id) == After(box, Only(ops, id)).At(id)
    ensures After(box, ops).build == After(box, Only(ops, id)).build
    ensures Handed(box, ops, id) == Handed(box, Only(ops, id), id)
  {
    if ops != [] {
      var before, op := ops[..|ops| - 1], ops[|ops| - 1];
      Isolation(box, before, id);
      StepAt(After(box, before), op, id);
      StepAt(After(box, Only(before, id)), op, id);
      assert ops == before + [op];
      HandedStep(box, before, op, id);
      if op.id == id {
        var some := Only(before, id);
        assert (some + [op])[..|some|] == some;
        HandedStep(box, some, op, id);
      } else {
        assert Only(ops, id) == Only(before, id);
      }
    }
  }

  /**
   The receive finds nothing queued for its id, or it asks for exactly the size of the oldest unread message and some
   queued message has a byte.
   */
  predicate AsksExactly(queue: Box, op: Op) {
    match op
    case Write(_, _) => true
    case Recv(id, len) =>
      && queue.At(id).Queue?
      && var q := queue.At(id).messages;
         q == [] || (len == |q[0]| && Flatten(q) != [])
  }

  predicate Exact(ops: seq<Op>) {
    ops == [] ||
    (Exact(ops[..|ops| - 1]) && AsksExactly(After(Empty(Queued), ops[..|ops| - 1]), ops[|ops| - 1]))
  }

  /** The byte stream is the concatenation of the queued messages. */
  ghost predicate SameSlot(stream: Slot, queue: Slot) {
    stream.Stream? && queue.Queue? && stream.bytes == Flatten(queue.messages)
  }

  ghost predicate Same(stream: Box, queue: Box) {
    && stream.build == Buffered && queue.build == Queued
    && (forall id :: SameSlot(stream.At(id), queue.At(id)))
  }

  lemma SameSlotStep(stream: Slot, queue: Slot, op: Op)
    requires SameSlot(stream, queue)
    requires op.Recv? && queue.messages != [] ==> op.len == |queue.messages[0]| && stream.bytes != []
    ensures SameSlot(op.Apply(stream), op.Apply(queue))
  {
    var q := queue.messages;
    match op
    case Write(_, m) =>
      FlattenSingle(q, m);
    case Recv(_, len) =>
      if q != [] {
        assert Flatten(q) == q[0] + Flatten(q[1..]);
        assert stream.Ready(len) && stream.bytes[len..] == Flatten(q[1..]);
      }
  }

  lemma SameStep(stream: Box, queue: Box, op: Op)
    requires Same(stream, queue)
    ensures AsksExactly(queue, op) <==> Output(stream, op) == Output(queue, op)
    ensures AsksExactly(queue, op) ==> Same(Step(stream, op), Step(queue, op))
  {
    var s, q := stream.At(op.id), queue.At(op.id);
    assert SameSlot(s, q);
    if op.Recv? && q.messages != [] {
      assert s.bytes == q.messages[0] + Flatten(q.messages[1..]);
      assert op.len == |q.messages[0]| ==> s.bytes[..op.len] == q.messages[0];
    }
    if AsksExactly(queue, op) {
      forall id
        ensures SameSlot(Step(stream, op).At(id), Step(queue, op).At(id))
      {
        StepAt(stream, op, id);
        StepAt(queue, op, id);
        if id == op.id {
          SameSlotStep(s, q, op);
        }
      }
    }
  }

  ghost predicate Agree(ops: seq<Op>) {
    Outputs(Empty(Buffered), ops) == Outputs(Empty(Queued), ops)
  }

  lemma AgreeStep(before: seq<Op>, op: Op)
    ensures Agree(before + [op]) <==>
              && Agree(before)
              && Output(After(Empty(Buffered), before), op) == Output(After(Empty(Queued), before), op)
  {
    var ops := before + [op];
    assert ops[..|before|] == before;
    var a, b := Outputs(Empty(Buffered), ops), Outputs(Empty(Queued), ops);
    assert a[..|before|] == Outputs(Empty(Buffered), before);
    assert b[..|before|] == Outputs(Empty(Queued), before);
  }

  /**
   The two builds give the same replies over a whole run if and only if every receive that finds a message asks for
   exactly the size of the oldest one and finds at least one byte; and then the byte stream of every id stays the
   concatenation of its queued messages.
   */
  lemma {:induction false} BuildsAgree(ops: seq<Op>)
    ensures Exact(ops) <==> Agree(ops)
    ensures Exact(ops) ==> Same(After(Empty(Buffered), ops), After(Empty(Queued), ops))
  {
    if ops != [] {
      var before, op := ops[..|ops| - 1], ops[|ops| - 1];
      BuildsAgree(before);
      assert ops == before + [op];
      AgreeStep(before, op);
      if Exact(before) {
        SameStep(After(Empty(Buffered), before), After(Empty(Queued), before), op);
      }
    }
  }

  ghost predicate NoEmptyMessage(ops: seq<Op>) {
    forall k :: 0 <= k < |ops| && ops[k].Write? ==> ops[k].m != []
  }

  /** Every receive that finds a message asks for exactly the size of the oldest one. */
  predicate Sized(ops: seq<Op>) {
    ops == [] ||
    (Sized(ops[..|ops| - 1]) &&
     var op, slot := ops[|ops| - 1], After(Empty(Queued), ops[..|ops| - 1]).At(ops[|ops| - 1].id);
     op.Recv? ==> slot.Queue? && (slot.messages == [] || op.len == |slot.messages[0]|))
  }

  ghost predicate NoneEmpty(slot: Slot) {
    slot.Queue? && forall k :: 0 <= k < |slot.messages| ==> slot.messages[k] != []
  }

  lemma {:induction false} NoEmptyMessageHeld(ops: seq<Op>, id: MsgId)
    requires NoEmptyMessage(ops)
    ensures NoneEmpty(After(Empty(Queued), ops).At(id))
  {
    if ops != [] {
      var before, op := ops[..|ops| - 1], ops[|ops| - 1];
      NoEmptyMessageHeld(before, id);
      StepAt(After(Empty(Queued), before), op, id);
    }
  }

  /** When no message is empty, asking for the right sizes is all there is to it. */
  lemma {:induction false} BuildsAgreeOnNonEmpty(ops: seq<Op>)
    requires NoEmptyMessage(ops)
    ensures Sized(ops) <==> Agree(ops)
  {
    BuildsAgree(ops);
    if ops != [] {
      var before, op := ops[..|ops| - 1], ops[|ops| - 1];
      BuildsAgreeOnNonEmpty(before);
      BuildsAgree(before);
      NoEmptyMessageHeld(before, op.id);
    }
  }

  /**
   An empty message at the front: asked for its zero bytes, the queue hands it over, and the stream does the same if
   and only if some byte is queued behind it.
   */
  lemma EmptyMessageTellsBuildsApart(ops: seq<Op>, id: MsgId)
    requires Agree(ops)
    requires var slot := After(Empty(Queued), ops).At(id); slot.Queue? && slot.messages != [] && slot.messages[0] == []
    ensures Agree(ops + [Recv(id, 0)]) <==> Flatten(After(Empty(Queued), ops).At(id).messages) != []
  {
    BuildsAgree(ops);
    AgreeStep(ops, Recv(id, 0));
    SameStep(After(Empty(Buffered), ops), After(Empty(Queued), ops), Recv(id, 0));
  }
}
