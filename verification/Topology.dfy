/**
 Who dials whom: each node computes its own servers and clients from the shared configuration (`ChannelConfig`).
 The pure functions say what the sets are; the methods are the loops that compute them.
 */
module Topology {

  datatype NodeId = NodeId(name: string)

  /** A parsed configuration: known nodes, task nodes, and the policy that maps a client to its servers. */
  datatype Config = Config(nodeInfo: set<NodeId>, taskNodes: set<NodeId>, policy: map<NodeId, set<NodeId>>)

  datatype Error = NoFindNid | NeitherClientNorServer

  datatype Result<+T> = Ok(value: T) | Err(error: Error)

  datatype Links = Links(clients: set<NodeId>, servers: set<NodeId>)

  /** The nodes `i` dials. Without a policy every task node dials every other. */
  function Servers(cfg: Config, i: NodeId): set<NodeId> {
    if cfg.policy == map[] then cfg.taskNodes - {i}
    else if i in cfg.policy then cfg.policy[i] else {}
  }

  /** The nodes `i` expects to be dialled by. */
  function Clients(cfg: Config, i: NodeId): set<NodeId> {
    if cfg.policy == map[] then cfg.taskNodes - {i}
    else set k | k in cfg.policy && k != i && i in cfg.policy[k]
  }

  /** What `GetNodeInfos` answers for node `i`. */
  function NodeInfos(cfg: Config, i: NodeId): Result<Links> {
    if !(Servers(cfg, i) <= cfg.nodeInfo) then Err(NoFindNid)
    else if cfg.policy != map[] && Servers(cfg, i) == {} && Clients(cfg, i) == {} then Err(NeitherClientNorServer)
    else Ok(Links(Clients(cfg, i), Servers(cfg, i)))
  }

  /** `node` dials `k`, read off the configuration. */
  predicate Dials(cfg: Config, node: NodeId, k: NodeId) {
    if cfg.policy == map[] then k in cfg.taskNodes && k != node
    else node in cfg.policy && k in cfg.policy[node]
  }

  /** `node` expects to be dialled by `k`, read off the configuration. */
  predicate Expects(cfg: Config, node: NodeId, k: NodeId) {
    if cfg.policy == map[] then k in cfg.taskNodes && k != node
    else k in cfg.policy && k != node && node in cfg.policy[k]
  }

  /** The right answer, node by node: who is in each set, and each error exactly when it is due. */
  ghost predicate IsAnswer(cfg: Config, node: NodeId, r: Result<Links>) {
    if exists k :: Dials(cfg, node, k) && k !in cfg.nodeInfo then r == Err(NoFindNid)
    else if cfg.policy != map[] && forall k :: !Dials(cfg, node, k) && !Expects(cfg, node, k)
    then r == Err(NeitherClientNorServer)
    else
      && r.Ok?
      && (forall k :: k in r.value.servers <==> Dials(cfg, node, k))
      && (forall k :: k in r.value.clients <==> Expects(cfg, node, k))
  }

  lemma ViewsByElement(cfg: Config, node: NodeId)
    ensures forall k :: k in Servers(cfg, node) <==> Dials(cfg, node, k)
    ensures forall k :: k in Clients(cfg, node) <==> Expects(cfg, node, k)
  {
  }

  lemma AnswerByElement(cfg: Config, node: NodeId)
    ensures IsAnswer(cfg, node, NodeInfos(cfg, node))
  {
    ViewsByElement(cfg, node);
    hide Servers, Clients, Dials, Expects;
  }

  /** What a node is told are those sets, so laws about them are laws about what the nodes compute. */
  lemma AnswerIsViews(cfg: Config, i: NodeId)
    ensures NodeInfos(cfg, i).Ok? ==> NodeInfos(cfg, i).value == Links(Clients(cfg, i), Servers(cfg, i))
  {
  }

  /**
   The local views are dual. A policy that lets a node dial itself is the one exception: such a node has itself
   as a server and never as a client. In full mesh both nodes must be task nodes.
   */
  lemma ViewsAreDual(cfg: Config, i: NodeId, j: NodeId)
    requires cfg.policy != map[] || {i, j} <= cfg.taskNodes
    ensures (j in Servers(cfg, i) && i != j) <==> i in Clients(cfg, j)
  {
  }

  /** Hence a node that another one dials has a client, and so starts its server. */
  lemma DialledNodeHasClient(cfg: Config, i: NodeId, j: NodeId)
    requires cfg.policy != map[] || {i, j} <= cfg.taskNodes
    requires j in Servers(cfg, i) && i != j
    ensures Clients(cfg, j) != {}
  {
    ViewsAreDual(cfg, i, j);
  }

  method GetInfoByNodeId(cfg: Config, links: Links, node: NodeId) returns (r: Result<Links>)
    ensures r == if node in cfg.nodeInfo then Ok(Links(links.clients + {node}, links.servers + {node}))
                 else Err(NoFindNid)
  {
    if node !in cfg.nodeInfo {
      return Err(NoFindNid);
    }
    return Ok(Links(links.clients + {node}, links.servers + {node}));
  }

  method GetAllNodeInfos(cfg: Config, node: NodeId) returns (r: Result<Links>)
    ensures r == if cfg.taskNodes - {node} <= cfg.nodeInfo
                 then Ok(Links(cfg.taskNodes - {node}, cfg.taskNodes - {node}))
                 else Err(NoFindNid)
  {
    var links := Links({}, {});
    var todo := cfg.taskNodes;
    while todo != {}
      invariant todo <= cfg.taskNodes
      invariant links.clients == links.servers == cfg.taskNodes - todo - {node}
      invariant links.servers <= cfg.nodeInfo
      decreases |todo|
    {
      var nid :| nid in todo;
      todo := todo - {nid};
      if node != nid {
        var more := GetInfoByNodeId(cfg, links, nid);
        if more.Err? {
          return more;
        }
        links := more.value;
      }
    }
    assert links.servers == cfg.taskNodes - {node};
    return Ok(links);
  }

  /** The servers a policy entry names, each looked up. */
  method GetServers(cfg: Config, ids: set<NodeId>) returns (r: Result<set<NodeId>>)
    ensures r == if ids <= cfg.nodeInfo then Ok(ids) else Err(NoFindNid)
  {
    var links := Links({}, {});
    var todo := ids;
    while todo != {}
      invariant todo <= ids
      invariant links.servers == ids - todo
      invariant links.servers <= cfg.nodeInfo
      decreases |todo|
    {
      var nid :| nid in todo;
      todo := todo - {nid};
      var more := GetInfoByNodeId(cfg, links, nid);
      if more.Err? {
        return Err(NoFindNid);
      }
      links := more.value;
    }
    assert links.servers == ids;
    return Ok(links.servers);
  }

  /** The loop of `GetNodeInfos` over the policy. */
  method ScanPolicy(cfg: Config, node: NodeId) returns (r: Result<Links>)
    requires cfg.policy != map[]
    ensures r == if Servers(cfg, node) <= cfg.nodeInfo then Ok(Links(Clients(cfg, node), Servers(cfg, node)))
                 else Err(NoFindNid)
  {
    var clients, servers := {}, {};
    var todo := cfg.policy.Keys;
    while todo != {}
      invariant todo <= cfg.policy.Keys
      invariant clients == set k | k in cfg.policy && k !in todo && k != node && node in cfg.policy[k]
      invariant servers == if node in cfg.policy && node !in todo then cfg.policy[node] else {}
      invariant servers <= cfg.nodeInfo
      decreases |todo|
    {
      var key :| key in todo;
      todo := todo - {key};
      if key == node {
        var more := GetServers(cfg, cfg.policy[key]);
        if more.Err? {
          return Err(NoFindNid);
        }
        servers := servers + more.value;
      }
      if key != node && node in cfg.policy[key] {
        clients := clients + {key};
      }
    }
    assert clients == Clients(cfg, node);
    return Ok(Links(clients, servers));
  }

  method GetNodeInfos(cfg: Config, node: NodeId) returns (r: Result<Links>)
    ensures r == NodeInfos(cfg, node) && IsAnswer(cfg, node, r)
  {
    if cfg.policy == map[] {
      r := GetAllNodeInfos(cfg, node);
    } else {
      r := ScanPolicy(cfg, node);
      if r.Ok? && r.value.clients == {} && r.value.servers == {} {
        r := Err(NeitherClientNorServer);
      }
    }
    AnswerByElement(cfg, node);
    hide IsAnswer;
  }

  /** Each of `parse_data`, `parse_compute` and `parse_result`: a listed node must be known and becomes a task node. */
  method AddTaskNodes(nodeInfo: set<NodeId>, tasks: set<NodeId>, listed: seq<NodeId>) returns (r: Result<set<NodeId>>)
    ensures r == if (set n | n in listed) <= nodeInfo then Ok(tasks + set n | n in listed) else Err(NoFindNid)
  {
    var all := tasks;
    for i := 0 to |listed|
      invariant all == tasks + set n | n in listed[..i]
      invariant (set n | n in listed[..i]) <= nodeInfo
    {
      assert listed[..i + 1] == listed[..i] + [listed[i]];
      if listed[i] !in nodeInfo {
        assert listed[i] in set n | n in listed;
        return Err(NoFindNid);
      }
      if listed[i] !in all {
        all := all + {listed[i]};
      }
    }
    assert listed[..|listed|] == listed;
    return Ok(all);
  }
}
