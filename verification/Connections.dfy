/**
 The two builds of `ClientConnection` as objects: `BufferedConnection` keeps a ring buffer per message id,
 `QueuedConnection` a queue of messages. Both are proved against `Mailbox`.
 */
module Connections {
  import opened Bytes
  import opened Mailbox
  import opened CycleBuffers

  /** Making the slot of an id before writing to it changes nothing. */
  lemma WriteToNewSlot(box: Box, id: MsgId, m: Message)
    requires id !in box.slots
    ensures box.(slots := box.slots[id := Fresh(box.build)]).Write(id, m) == box.Write(id, m)
  {
  }

  const MS := 1_000_000  // nanoseconds

  /**
   One turn of the waiting loop as the clock and the other threads make it: when the elapsed time was read, when the
   wait began, what other writers and receivers did to the mailbox during the wait, when it ended, and whether it
   reports a timeout if its deadline has passed by then.
   */
  datatype Round = Round(end: int, start: int, meanwhile: seq<Op>, woke: int, timedOut: bool)

  /** `Overflowed` is a mailbox that ran into 32-bit limits on the given operation of the current round. */
  datatype Outcome = Got(m: Message) | TimedOut | Waiting | Overflowed(count: nat)

  /** The clock never runs backwards. */
  ghost predicate WellFormed(beg: int, rounds: seq<Round>) {
    forall k :: 0 <= k < |rounds| ==> beg <= rounds[k].end <= rounds[k].start <= rounds[k].woke
  }

  /** Everything that happened during the given rounds. */
  function Meanwhile(rounds: seq<Round>): (ops: seq<Op>)
  {
    if rounds == [] then [] else Meanwhile(rounds[..|rounds| - 1]) + rounds[|rounds| - 1].meanwhile
  }

  /** The mailbox after what others did in the first `k` rounds. */
  function Seen(box: Box, rounds: seq<Round>, k: nat): Box
    requires k <= |rounds|
  {
    After(box, Meanwhile(rounds[..k]))
  }

  lemma SeenNext(box: Box, rounds: seq<Round>, k: nat)
    requires k < |rounds|
    ensures Seen(box, rounds, k + 1) == After(Seen(box, rounds, k), rounds[k].meanwhile)
  {
    assert rounds[..k + 1][..k] == rounds[..k];
    AfterAppend(box, Meanwhile(rounds[..k]), rounds[k].meanwhile);
  }

  /** When a wait begun at `start` may report a timeout, from the truncated milliseconds between `beg` and `end`. */
  function Deadline(beg: int, timeout: int, end: int, start: int): int {
    start + (timeout - (end - beg) / MS) * MS
  }

  /**
   However often the loop has gone round, the deadline is `timeout` milliseconds after entry, later only by the lag
   between the two clock readings and by less than one millisecond; and the wait is for whole milliseconds, so that no
   other deadline is meant.
   */
  lemma DeadlineIsStable(beg: int, timeout: int, end: int, start: int)
    requires beg <= end <= start
    ensures beg + timeout * 1_000_000 + (start - end)
         <= Deadline(beg, timeout, end, start)
          < beg + (timeout + 1) * 1_000_000 + (start - end)
    ensures (Deadline(beg, timeout, end, start) - start) % 1_000_000 == 0
  {
  }

  predicate Expires(beg: int, timeout: int, r: Round) {
    r.timedOut && r.woke >= Deadline(beg, timeout, r.end, r.start)
  }

  /**
   What a call of `recv` does, in either build: it goes round `turns` times, each time because the mailbox, as others
   have left it, cannot serve it, and takes the first reply there is. A timeout is reported no earlier than `timeout`
   milliseconds after entry, and the call has then taken nothing.
   */
  ghost predicate Receives(box: Box, box': Box, id: MsgId, length: nat, timeout: int, beg: int, rounds: seq<Round>,
                           outcome: Outcome, turns: nat)
  {
    && turns <= |rounds|
    && (forall k :: 0 <= k < turns ==> !Seen(box, rounds, k).At(id).Ready(length))
    && (forall k :: 0 <= k < turns - 1 ==> !Expires(beg, timeout, rounds[k]))
    && var seen := Seen(box, rounds, turns);
       match outcome
       case Got(m) => seen.Reply(id, length) == Some(m) && box' == seen.Receive(id, length)
       case TimedOut =>
         && turns > 0 && rounds[turns - 1].timedOut && Expires(beg, timeout, rounds[turns - 1])
         && rounds[turns - 1].woke >= beg + timeout * MS
         && box' == seen
       case Waiting => turns == |rounds| && !seen.At(id).Ready(length) && box' == seen
       case Overflowed(count) =>
         && turns < |rounds| && count < |rounds[turns].meanwhile| && rounds[turns].meanwhile[count].Write?
         && box' == After(seen, rounds[turns].meanwhile[..count])
  }

  /** The call has gone round `turns` times and looks at the mailbox `now`. */
  ghost predicate Looks(box: Box, now: Box, id: MsgId, length: nat, timeout: int, beg: int, rounds: seq<Round>,
                        turns: nat)
  {
    && turns <= |rounds|
    && now == Seen(box, rounds, turns)
    && (forall k :: 0 <= k < turns ==>
          !Seen(box, rounds, k).At(id).Ready(length) && !Expires(beg, timeout, rounds[k]))
  }

  /** A look ends the call if there is a reply, and the call goes no further than the given rounds. */
  lemma LookOnce(box: Box, now: Box, id: MsgId, length: nat, timeout: int, beg: int, rounds: seq<Round>, turns: nat)
    requires Looks(box, now, id, length, timeout, beg, rounds, turns)
    ensures turns <= |rounds| && now == Seen(box, rounds, turns)
    ensures match now.Reply(id, length)
            case Some(m) => Receives(box, now.Receive(id, length), id, length, timeout, beg, rounds, Got(m), turns)
            case None =>
              && now.Receive(id, length) == now
              && (turns == |rounds| ==> Receives(box, now, id, length, timeout, beg, rounds, Waiting, turns))
  {
  }

  /** A look that finds no reply leads to a wait, which times out or leads to another look. */
  lemma WaitOnce(box: Box, now: Box, id: MsgId, length: nat, timeout: int, beg: int, rounds: seq<Round>, turns: nat)
    requires Looks(box, now, id, length, timeout, beg, rounds, turns) && WellFormed(beg, rounds)
    requires turns < |rounds| && now.Reply(id, length).None?
    ensures var r := rounds[turns];
            if Expires(beg, timeout, r)
            then Receives(box, After(now, r.meanwhile), id, length, timeout, beg, rounds, TimedOut, turns + 1)
            else Looks(box, After(now, r.meanwhile), id, length, timeout, beg, rounds, turns + 1)
  {
    SeenNext(box, rounds, turns);
    DeadlineIsStable(beg, timeout, rounds[turns].end, rounds[turns].start);
  }

  lemma Overflow(box: Box, now: Box, id: MsgId, length: nat, timeout: int, beg: int, rounds: seq<Round>, turns: nat,
                 count: nat)
    requires Looks(box, now, id, length, timeout, beg, rounds, turns)
    requires turns < |rounds| && count < |rounds[turns].meanwhile| && rounds[turns].meanwhile[count].Write?
    ensures Receives(box, After(now, rounds[turns].meanwhile[..count]), id, length, timeout, beg, rounds,
                     Overflowed(count), turns)
  {
  }

  lemma LooksAtFirst(box: Box, id: MsgId, length: nat, timeout: int, beg: int, rounds: seq<Round>)
    ensures Looks(box, box, id, length, timeout, beg, rounds, 0)
  {
  }

  lemma SpliceFront(d: Message, m: Message)
    requires |m| <= |d|
    ensures Splice(d, 0, m)[..|m|] == m
  {
  }

  lemma MeanwhileNext(box: Box, ops: seq<Op>, i: nat)
    requires i < |ops|
    ensures After(box, ops[..i + 1]) == Step(After(box, ops[..i]), ops[i])
  {
    assert ops[..i + 1][..i] == ops[..i];
  }

  /** Ring buffer `b` is in order and holds `bytes`. */
  ghost predicate Holds(b: CycleBuffer, bytes: Message)
    reads b, b.buffer
  {
    b.Valid() && b.Contents() == bytes
  }

  class BufferedConnection {
    var buffers: map<MsgId, CycleBuffer>
    var bufferSize: int
    /** What the mailbox holds. */
    ghost var box: Box
    /** Which id an object belongs to: no two ids share a ring buffer or an array. */
    ghost var home: map<object, MsgId>

    /** Ring buffer `b` is the one of `id` and holds what the mailbox holds for `id`. */
    ghost predicate Owns(id: MsgId, b: CycleBuffer)
      reads this, b, b.buffer
    {
      && b in home && home[b] == id
      && b.buffer in home && home[b.buffer] == id
      && id in box.slots && box.slots[id].Stream? && Holds(b, box.slots[id].bytes)
    }

    ghost predicate Valid()
      reads this, buffers.Values, set id | id in buffers :: buffers[id].buffer
    {
      && 1 <= bufferSize <= INT32_MAX
      && box.build == Buffered && box.slots.Keys == buffers.Keys
      && (forall id :: id in buffers ==> Owns(id, buffers[id]))
    }

    constructor (size: int)
      requires 1 <= size <= INT32_MAX
      ensures Valid() && box == Empty(Buffered)
    {
      buffers := map[];
      bufferSize := size;
      home := map[];
      box := Empty(Buffered);
    }

    /** The ring buffer that would take a message of `length` bytes for `id` can grow to hold it. */
    predicate CanHold(id: MsgId, length: int)
      requires Valid()
      reads this, buffers.Values, set id | id in buffers :: buffers[id].buffer
    {
      if id in buffers then buffers[id].CanHold(length)
      else length <= bufferSize || Grown(bufferSize, length) <= INT32_MAX
    }

    lemma RingOf(id: MsgId)
      requires Valid()
      ensures box.build == Buffered && (id in buffers <==> id in box.slots)
      ensures id in buffers ==> buffers[id].Valid() && box.slots[id] == Stream(buffers[id].Contents())
    {
      assert id in buffers ==> Owns(id, buffers[id]);
    }

    /** How many bytes the ring buffer that would take a message for `id` has room for, or would be made with. */
    function Capacity(id: MsgId): int
      reads this, buffers.Values
    {
      if id in buffers then buffers[id].n else bufferSize
    }

    lemma HoldsAtLeast(id: MsgId, length: int)
      requires Valid() && 0 <= length && length + 2 * Capacity(id) <= INT32_MAX
      ensures CanHold(id, length)
    {
      if id in buffers {
        RingOf(id);
        buffers[id].HoldsAtLeast(length);
      } else {
        GrowthSuffices(bufferSize, length);
      }
    }

    /** The ring buffer of `id` and its array. */
    ghost function Footprint(id: MsgId): set<object>
      reads this, buffers.Values
    {
      if id in buffers then {buffers[id], buffers[id].buffer} else {}
    }

    lemma FootprintIsHome(id: MsgId)
      requires Valid()
      ensures Footprint(id) <= home.Keys
    {
      assert id in buffers ==> Owns(id, buffers[id]);
    }

    method Write(id: MsgId, data: Message)
      requires Valid() && CanHold(id, |data|)
      modifies this, Footprint(id)
      ensures Valid() && bufferSize == old(bufferSize)
      ensures fresh(Footprint(id) - old(Footprint(id))) && fresh(home.Keys - old(home.Keys))
      ensures box == old(box).Write(id, data)
    {
      hide Grown, Valid, CycleBuffer.Valid, CycleBuffer.Contents;
      RingOf(id);
      if id !in buffers {
        WriteToNewSlot(box, id, data);
        Create(id);
        RingOf(id);
      }
      Fill(id, data);
    }

    method Create(id: MsgId)
      requires Valid() && id !in buffers
      modifies this
      ensures Valid() && bufferSize == old(bufferSize)
      ensures id in buffers && fresh(buffers[id]) && fresh(buffers[id].buffer) && fresh(home.Keys - old(home.Keys))
      ensures buffers[id].n == buffers[id].remainSpace == bufferSize
      ensures box == old(box).(slots := old(box).slots[id := Fresh(Buffered)])
    {
      hide CycleBuffer.Contents, CycleBuffer.Valid;
      var b := new CycleBuffer(bufferSize);
      assert Holds(b, []);
      hide Holds;
      buffers := buffers[id := b];
      home := home[b := id][b.buffer := id];
      box := box.(slots := box.slots[id := Stream([])]);
    }

    method Fill(id: MsgId, data: Message)
      requires Valid() && id in buffers && buffers[id].Valid() && buffers[id].CanHold(|data|)
      modifies this`home, this`box, buffers[id], buffers[id].buffer
      ensures Valid()
      ensures buffers[id].buffer == old(buffers[id].buffer) || fresh(buffers[id].buffer)
      ensures fresh(home.Keys - old(home.Keys))
      ensures box == old(box).(slots := old(box).slots[id := Stream(old(buffers[id].Contents()) + data)])
    {
      hide CycleBuffer.Contents, CycleBuffer.Valid, CycleBuffer.CanHold;
      var b := buffers[id];
      assert Owns(id, b);
      b.Write(data);
      assert Holds(b, old(b.Contents()) + data);
      hide Holds;
      home := home[b.buffer := id];
      box := box.(slots := box.slots[id := Stream(old(b.Contents()) + data)]);
    }

    /** One pass of `recv` under the mutex: true when the request was served. */
    method TryRecv(id: MsgId, data: array<Byte>, length: nat) returns (served: bool)
      requires Valid() && data !in home
      requires length <= data.Length
      modifies this`box, Footprint(id), data
      ensures Valid()
      ensures served == old(box).Reply(id, length).Some?
      ensures served ==> |old(box).Reply(id, length).value| == length
      ensures data[..] == if served then Splice(old(data[..]), 0, old(box).Reply(id, length).value)
                          else old(data[..])
      ensures box == old(box).Receive(id, length)
      ensures served ==> HandsOver(old(box), box, id, data[..length])
    {
      hide Splice, CycleBuffer.Contents, CycleBuffer.Valid;
      served := false;
      if id in buffers {
        assert Owns(id, buffers[id]);
        var empty := buffers[id].Empty();
        if !empty {
          var ok := buffers[id].CanRead(length);
          if ok {
            SpliceFront(data[..], box.Reply(id, length).value);
            ReplyIsFront(box, id, length);
            Serve(id, data, length);
            served := true;
          }
        }
      }
    }

    method Serve(id: MsgId, data: array<Byte>, length: nat)
      requires Valid() && data !in home
      requires id in buffers && buffers[id].Valid() && length <= |buffers[id].Contents()| && length <= data.Length
      modifies this`box, buffers[id], data
      ensures Valid()
      ensures data[..] == Splice(old(data[..]), 0, old(buffers[id].Contents())[..length])
      ensures box == old(box).(slots := old(box).slots[id := Stream(old(buffers[id].Contents())[length..])])
    {
      hide CycleBuffer.Contents, CycleBuffer.Valid, Splice;
      var b := buffers[id];
      assert Owns(id, b);
      b.Read(data, length);
      assert Holds(b, old(b.Contents())[length..]);
      hide Holds;
      box := box.(slots := box.slots[id := Stream(old(b.Contents())[length..])]);
    }

    /** One operation of another thread; a receiver has memory of its own. */
    method Meet(op: Op) returns (ok: bool)
      requires Valid()
      modifies this, home.Keys
      ensures Valid() && fresh(home.Keys - old(home.Keys))
      ensures ok ==> box == Step(old(box), op)
      ensures !ok ==> op.Write? && box == old(box) && |op.m| + 2 * Capacity(op.id) > INT32_MAX
    {
      hide CycleBuffer.Contents, CycleBuffer.Valid, CycleBuffer.CanHold;
      match op
      case Write(id, m) =>
        ok := CanHold(id, |m|);
        if ok {
          Write(id, m);
        } else if |m| + 2 * Capacity(id) <= INT32_MAX {
          HoldsAtLeast(id, |m|);
        }
      case Recv(id, len) =>
        var own := new Byte[len];
        var _ := TryRecv(id, own, len);
        ok := true;
    }

    /** What other threads do to the mailbox while a receiver waits, up to a write that no ring buffer could hold. */
    method Deliver(ops: seq<Op>) returns (count: nat)
      requires Valid()
      modifies this, home.Keys
      ensures Valid() && fresh(home.Keys - old(home.Keys)) && count <= |ops|
      ensures box == After(old(box), ops[..count])
      ensures count < |ops| ==> ops[count].Write? && |ops[count].m| + 2 * Capacity(ops[count].id) > INT32_MAX
    {
      count := 0;
      hide Valid, After, CanHold, Capacity;
      while count < |ops|
        invariant Valid() && fresh(home.Keys - old(home.Keys)) && count <= |ops|
        invariant box == After(old(box), ops[..count])
      {
        var ok := Meet(ops[count]);
        if !ok {
          return;
        }
        MeanwhileNext(old(box), ops, count);
        count := count + 1;
      }
    }

    /** One turn of the loop of `recv`: a look, and if that finds no reply a wait. The call ends or goes round again. */
    method Turn(id: MsgId, data: array<Byte>, length: nat, timeout: int, beg: int, rounds: seq<Round>, turn: nat,
                ghost first: Box)
      returns (ended: Option<Outcome>, turns: nat)
      requires Valid() && data !in home && length <= data.Length && WellFormed(beg, rounds)
      requires turn <= |rounds| && Looks(first, box, id, length, timeout, beg, rounds, turn)
      modifies this, home.Keys, data
      ensures Valid() && fresh(home.Keys - old(home.Keys))
      ensures match ended
              case None => turn < turns <= |rounds| && Looks(first, box, id, length, timeout, beg, rounds, turns)
              case Some(outcome) =>
                && Receives(first, box, id, length, timeout, beg, rounds, outcome, turns)
                && (outcome.Overflowed? ==>
                      var op := rounds[turns].meanwhile[outcome.count]; |op.m| + 2 * Capacity(op.id) > INT32_MAX)
      ensures if ended.Some? && ended.value.Got?
              then |ended.value.m| == length && data[..] == Splice(old(data[..]), 0, ended.value.m)
              else data[..] == old(data[..])
    {
      hide Valid, CanHold, Capacity, Splice, Looks, After, Box.Reply, Box.Receive, Box.At, HandsOver;
      turns := turn;
      LookOnce(first, box, id, length, timeout, beg, rounds, turns);
      FootprintIsHome(id);
      ghost var was, now := data[..], box;
      var served := TryRecv(id, data, length);
      if served {
        SpliceFront(was, now.Reply(id, length).value);
        return Some(Got(data[..length])), turns;
      }
      if turns == |rounds| {
        return Some(Waiting), turns;
      }
      var r := rounds[turns];
      var elapsed := (r.end - beg) / MS;
      var deadline := r.start + (timeout - elapsed) * MS;
      WaitOnce(first, now, id, length, timeout, beg, rounds, turns);
      var count := Deliver(r.meanwhile);
      if count < |r.meanwhile| {
        Overflow(first, now, id, length, timeout, beg, rounds, turns, count);
        return Some(Overflowed(count)), turns;
      }
      assert r.meanwhile[..count] == r.meanwhile;
      turns := turns + 1;
      ended := if r.timedOut && r.woke >= deadline then Some(TimedOut) else None;
    }

    /** The whole of `recv`: look, compute the remaining time, wait, look again. */
    method Recv(id: MsgId, data: array<Byte>, length: nat, timeout: int, beg: int, rounds: seq<Round>)
      returns (outcome: Outcome, turns: nat)
      requires Valid() && data !in home && length <= data.Length && WellFormed(beg, rounds)
      modifies this, home.Keys, data
      ensures Valid() && fresh(home.Keys - old(home.Keys))
      ensures Receives(old(box), box, id, length, timeout, beg, rounds, outcome, turns)
      ensures outcome.Overflowed? ==>
                var op := rounds[turns].meanwhile[outcome.count]; |op.m| + 2 * Capacity(op.id) > INT32_MAX
      ensures if outcome.Got? then |outcome.m| == length && data[..] == Splice(old(data[..]), 0, outcome.m)
              else data[..] == old(data[..])
    {
      LooksAtFirst(box, id, length, timeout, beg, rounds);
      hide Valid, CanHold, Capacity, Splice, Looks;
      turns := 0;
      while true
        invariant Valid() && fresh(home.Keys - old(home.Keys)) && data !in home && turns <= |rounds|
        invariant Looks(old(box), box, id, length, timeout, beg, rounds, turns) && data[..] == old(data[..])
        decreases |rounds| - turns
      {
        var ended;
        ended, turns := Turn(id, data, length, timeout, beg, rounds, turns, old(box));
        if ended.Some? {
          return ended.value, turns;
        }
      }
    }
  }

  /** A message that would be handed over fits into `room` bytes; the code does not check, and copies all of it. */
  ghost predicate Fits(box: Box, id: MsgId, length: nat, room: nat) {
    box.Reply(id, length).Some? ==> |box.Reply(id, length).value| <= room
  }

  class QueuedConnection {
    var queues: map<MsgId, seq<Message>>

    ghost function View(): (box: Box)
      reads this
    {
      Box(Queued, map id | id in queues :: Queue(queues[id]))
    }

    constructor ()
      ensures View() == Empty(Queued)
    {
      queues := map[];
    }

    method Write(id: MsgId, data: Message)
      modifies this
      ensures View() == old(View()).Write(id, data)
    {
      if id !in queues {
        queues := queues[id := []];
      }
      queues := queues[id := queues[id] + [data]];
    }

    /** One pass of `recv` under the mutex: the size of the message copied, whatever length was requested. */
    method TryRecv(id: MsgId, data: array<Byte>, length: nat) returns (size: Option<nat>)
      requires Fits(View(), id, length, data.Length)
      modifies this, data
      ensures match old(View()).Reply(id, length)
              case Some(m) => size == Some(|m|) && data[..] == Splice(old(data[..]), 0, m)
              case None => size == None && data[..] == old(data[..])
      ensures View() == old(View()).Receive(id, length)
      ensures size.Some? ==> size.value <= data.Length && HandsOver(old(View()), View(), id, data[..size.value])
    {
      if id in queues && queues[id] != [] {
        assert View().At(id) == Queue(queues[id]);
        SpliceFront(data[..], queues[id][0]);
        ReplyIsFront(View(), id, length);
        MemCpy(data, 0, queues[id][0]);
        size := Some(|queues[id][0]|);
        queues := queues[id := queues[id][1..]];
      } else {
        size := None;
      }
    }

    /** What other threads do to the mailbox while a receiver waits; each has memory enough of its own. */
    method Deliver(ops: seq<Op>)
      modifies this
      ensures View() == After(old(View()), ops)
    {
      for i := 0 to |ops|
        invariant View() == After(old(View()), ops[..i])
      {
        MeanwhileNext(old(View()), ops, i);
        match ops[i] {
          case Write(id, m) => Write(id, m);
          case Recv(id, len) =>
            var own := new Byte[if id in queues && queues[id] != [] then |queues[id][0]| else 0];
            var _ := TryRecv(id, own, len);
        }
      }
      assert ops[..|ops|] == ops;
    }

    /** One turn of the loop of `recv`, as in the buffered build. */
    method Turn(id: MsgId, data: array<Byte>, length: nat, timeout: int, beg: int, rounds: seq<Round>, turn: nat,
                ghost first: Box)
      returns (ended: Option<Outcome>, turns: nat)
      requires WellFormed(beg, rounds) && turn <= |rounds|
      requires Looks(first, View(), id, length, timeout, beg, rounds, turn)
      requires Fits(View(), id, length, data.Length)
      modifies this, data
      ensures match ended
              case None => turn < turns <= |rounds| && Looks(first, View(), id, length, timeout, beg, rounds, turns)
              case Some(outcome) =>
                Receives(first, View(), id, length, timeout, beg, rounds, outcome, turns) && !outcome.Overflowed?
      ensures if ended.Some? && ended.value.Got?
              then |ended.value.m| <= data.Length && data[..] == Splice(old(data[..]), 0, ended.value.m)
              else data[..] == old(data[..])
    {
      hide Looks, Receives, View, After, Box.Reply, Box.Receive, Splice, HandsOver;
      turns := turn;
      ghost var now := View();
      LookOnce(first, now, id, length, timeout, beg, rounds, turns);
      var size := TryRecv(id, data, length);
      if size.Some? {
        SpliceFront(old(data[..]), now.Reply(id, length).value);
        return Some(Got(data[..size.value])), turns;
      }
      if turns == |rounds| {
        return Some(Waiting), turns;
      }
      var r := rounds[turns];
      var elapsed := (r.end - beg) / MS;
      var deadline := r.start + (timeout - elapsed) * MS;
      WaitOnce(first, now, id, length, timeout, beg, rounds, turns);
      Deliver(r.meanwhile);
      turns := turns + 1;
      ended := if r.timedOut && r.woke >= deadline then Some(TimedOut) else None;
    }

    /** The whole of `recv`: look, compute the remaining time, wait, look again. */
    method Recv(id: MsgId, data: array<Byte>, length: nat, timeout: int, beg: int, rounds: seq<Round>)
      returns (outcome: Outcome, turns: nat)
      requires WellFormed(beg, rounds)
      requires forall k :: 0 <= k <= |rounds| ==> Fits(Seen(View(), rounds, k), id, length, data.Length)
      modifies this, data
      ensures Receives(old(View()), View(), id, length, timeout, beg, rounds, outcome, turns) && !outcome.Overflowed?
      ensures if outcome.Got? then |outcome.m| <= data.Length && data[..] == Splice(old(data[..]), 0, outcome.m)
              else data[..] == old(data[..])
    {
      turns := 0;
      LooksAtFirst(View(), id, length, timeout, beg, rounds);
      hide Looks, Receives, View, After, Splice, Seen, Fits;
      while true
        invariant turns <= |rounds|
        invariant Looks(old(View()), View(), id, length, timeout, beg, rounds, turns) && data[..] == old(data[..])
        decreases |rounds| - turns
      {
        LookOnce(old(View()), View(), id, length, timeout, beg, rounds, turns);
        var ended;
        ended, turns := Turn(id, data, length, timeout, beg, rounds, turns, old(View()));
        if ended.Some? {
          return ended.value, turns;
        }
      }
    }
  }
}
