/**
 The receiving object of a node (`IoChannelI` over the connection map that `ViaNetIO::init` fills): one mailbox per
 client, looked up by the source node of a call.
 */
module Servants {
  import opened Bytes
  import opened Mailbox
  import opened Topology
  import opened Connections
  import opened CycleBuffers
  import WorkQueues

  datatype Operation = Send(src: NodeId, id: MsgId, data: Message) | Ping | Other

  datatype Answer = Done | OperationNotExist

  class SyncServant {
    var connections: map<NodeId, QueuedConnection>

    /** No two clients share a mailbox. */
    ghost predicate Valid()
      reads this
    {
      forall i, j :: i in connections && j in connections && i != j ==> connections[i] != connections[j]
    }

    /** The first loop of `init`: an empty mailbox for each client, and for no other node. */
    constructor (clients: set<NodeId>)
      ensures Valid() && connections.Keys == clients
      ensures forall c :: c in clients ==> fresh(connections[c]) && connections[c].View() == Empty(Queued)
    {
      connections := map[];
      new;
      var todo := clients;
      while todo != {}
        invariant todo <= clients && connections.Keys == clients - todo && Valid()
        invariant forall c :: c in connections ==> fresh(connections[c]) && connections[c].View() == Empty(Queued)
        invariant forall c :: c in connections ==> connections[c] != this as object
        decreases |todo|
      {
        var c :| c in todo;
        todo := todo - {c};
        var conn := new QueuedConnection();
        connections := connections[c := conn];
      }
    }

    /**
     The "send", "ping" and other branches of `ice_invoke`: a message from a known node goes to that node's mailbox
     and to no other; one from an unknown node is dropped, and the caller is told that all went well.
     */
    method Invoke(op: Operation) returns (answer: Answer)
      requires Valid()
      modifies connections.Values
      ensures Valid() && connections == old(connections)
      ensures answer == if op.Other? then OperationNotExist else Done
      ensures forall n :: n in connections ==>
                connections[n].View() == if op.Send? && op.src == n
                                         then old(connections[n].View()).Write(op.id, op.data)
                                         else old(connections[n].View())
    {
      match op
      case Send(src, id, data) =>
        if src in connections {
          connections[src].Write(id, data);
        }
        answer := Done;
      case Ping => answer := Done;
      case Other => answer := OperationNotExist;
    }

    /** `ViaNetIO::recv`, one pass: only a node that is a client here can be received from. */
    method TryRecv(remote: NodeId, id: MsgId, data: array<Byte>, length: nat) returns (r: Result<Option<nat>>)
      requires Valid()
      requires remote in connections ==> Fits(connections[remote].View(), id, length, data.Length)
      modifies connections.Values, data
      ensures Valid() && connections == old(connections)
      ensures r.Ok? <==> remote in connections
      ensures r.Err? ==> r.error == NoFindNid && data[..] == old(data[..])
      ensures r.Ok? ==>
                match old(connections[remote].View()).Reply(id, length)
                case Some(m) => r.value == Some(|m|) && data[..] == Splice(old(data[..]), 0, m)
                case None => r.value == None && data[..] == old(data[..])
      ensures forall n :: n in connections ==>
                connections[n].View() == if n == remote then old(connections[n].View()).Receive(id, length)
                                         else old(connections[n].View())
    {
      hide Splice;
      if remote !in connections {
        return Err(NoFindNid);
      }
      var size := connections[remote].TryRecv(id, data, length);
      return Ok(size);
    }
  }

  class AsyncServant {
    const queues: map<NodeId, WorkQueues.WorkQueue>

    constructor (queues: map<NodeId, WorkQueues.WorkQueue>)
      ensures this.queues == queues
    {
      this.queues := queues;
    }

    /**
     `send_async`: a call from a known node is handed to that node's work queue, which answers it; a call from an
     unknown node is never answered.
     */
    method SendAsync(call: nat, src: NodeId, id: MsgId, data: Message) returns (answered: bool)
      requires src in queues ==>
                 && queues[src].Valid()
                 && WorkQueues.Enabled(queues[src].q, WorkQueues.Add(WorkQueues.Entry(call, id, data)))
      modifies if src in queues then {queues[src]} else {}
      ensures answered <==> src in queues
      ensures src in queues ==>
                && queues[src].Valid()
                && queues[src].q
                   == WorkQueues.Next(old(queues[src].q), WorkQueues.Add(WorkQueues.Entry(call, id, data)))
    {
      answered := false;
      if src in queues {
        var _ := queues[src].Enqueue(call, id, data);
        answered := true;
      }
    }
  }
}
