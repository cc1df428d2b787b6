/**
 `GetPolicy`, which prints the effective policy as JSON text: every task node with the nodes it dials. Reading such a
 text back is in `PolicyParser`.
 */
module PolicyText {
  import opened Topology

  // ---------- iteration order of std::set<string> ----------

  /** Lexicographic order of strings. */
  predicate Leq(a: string, b: string) {
    a == [] || (b != [] && (a[0] < b[0] || (a[0] == b[0] && Leq(a[1..], b[1..]))))
  }

  /** The strings differ first at `k`, where `a` has the smaller character. */
  ghost predicate SmallerAt(a: string, b: string, k: nat) {
    k < |a| && k < |b| && a[..k] == b[..k] && a[k] < b[k]
  }

  /** That is: one is a prefix of the other, or has the smaller character where they first differ. */
  lemma {:induction false} LeqByFirstDifference(a: string, b: string)
    ensures Leq(a, b) <==> a <= b || exists k: nat :: SmallerAt(a, b, k)
  {
    if a != [] && b != [] {
      var a', b' := a[1..], b[1..];
      LeqByFirstDifference(a', b');
      assert a == [a[0]] + a' && b == [b[0]] + b';
      if a[0] == b[0] {
        assert a <= b <==> a' <= b';
        forall k: nat
          ensures SmallerAt(a', b', k) <==> SmallerAt(a, b, k + 1)
        {
          if k < |a'| && k < |b'| {
            assert a[..k + 1] == [a[0]] + a'[..k] && b[..k + 1] == [b[0]] + b'[..k];
            assert a'[..k] == a[..k + 1][1..] && b'[..k] == b[..k + 1][1..];
          }
        }
        if k: nat :| SmallerAt(a, b, k) {
          assert k > 0 && SmallerAt(a', b', k - 1);
        }
      } else {
        if a[0] < b[0] {
          assert SmallerAt(a, b, 0);
        }
        if k: nat :| SmallerAt(a, b, k) {
          assert k > 0 ==> a[..k][0] == b[..k][0];
        }
      }
    }
  }

  lemma {:induction false} LeqTotal(a: string, b: string)
    ensures Leq(a, b) || Leq(b, a)
  {
    if a != [] && b != [] {
      LeqTotal(a[1..], b[1..]);
    }
  }

  lemma {:induction false} LeqAntisymmetric(a: string, b: string)
    requires Leq(a, b) && Leq(b, a)
    ensures a == b
  {
    if a != [] && b != [] {
      LeqAntisymmetric(a[1..], b[1..]);
      assert a == [a[0]] + a[1..] && b == [b[0]] + b[1..];
    }
  }

  lemma {:induction false} LeqTransitive(a: string, b: string, c: string)
    requires Leq(a, b) && Leq(b, c)
    ensures Leq(a, c)
  {
    if a != [] && a[0] == b[0] == c[0] {
      LeqTransitive(a[1..], b[1..], c[1..]);
    }
  }

  ghost predicate IsLeast(x: NodeId, s: set<NodeId>) {
    x in s && forall y :: y in s ==> Leq(x.name, y.name)
  }

  lemma {:induction false} LeastExists(s: set<NodeId>)
    requires s != {}
    ensures exists x :: IsLeast(x, s)
    decreases |s|
  {
    var x :| x in s;
    LeqTotal(x.name, x.name);
    var rest := s - {x};
    if rest == {} {
      assert s == {x};
      assert IsLeast(x, s);
    } else {
      LeastExists(rest);
      var y :| IsLeast(y, rest);
      LeqTotal(x.name, y.name);
      if Leq(x.name, y.name) {
        forall z | z in rest ensures Leq(x.name, z.name) {
          LeqTransitive(x.name, y.name, z.name);
        }
        assert IsLeast(x, s);
      } else {
        assert IsLeast(y, s);
      }
    }
  }

  ghost function Least(s: set<NodeId>): (x: NodeId)
    requires s != {}
    ensures IsLeast(x, s)
  {
    LeastExists(s);
    var x :| IsLeast(x, s);
    x
  }

  /** The elements of a set in the order in which its loop visits them. */
  ghost function Listing(s: set<NodeId>): (l: seq<NodeId>)
    ensures forall n :: n in l <==> n in s
    decreases |s|
  {
    if s == {} then [] else [Least(s)] + Listing(s - {Least(s)})
  }

  ghost predicate Ascending(l: seq<NodeId>) {
    forall i, j :: 0 <= i < j < |l| ==> Leq(l[i].name, l[j].name) && l[i] != l[j]
  }

  lemma AscendingCons(x: NodeId, rest: seq<NodeId>)
    requires Ascending(rest) && forall n :: n in rest ==> Leq(x.name, n.name) && n != x
    ensures Ascending([x] + rest)
  {
    hide Leq;
    forall i, j | 0 <= i < j < |rest| + 1
      ensures Leq(([x] + rest)[i].name, ([x] + rest)[j].name) && ([x] + rest)[i] != ([x] + rest)[j]
    {
      assert ([x] + rest)[j] == rest[j - 1] && rest[j - 1] in rest;
      assert i > 0 ==> ([x] + rest)[i] == rest[i - 1];
    }
  }

  /** A set is visited in ascending order, each element once. */
  lemma {:induction false} ListingAscends(s: set<NodeId>)
    ensures |Listing(s)| == |s| && Ascending(Listing(s))
    decreases |s|
  {
    if s != {} {
      var x := Least(s);
      assert Listing(s) == [x] + Listing(s - {x});
      hide Leq, Listing, Ascending;
      ListingAscends(s - {x});
      AscendingCons(x, Listing(s - {x}));
    }
  }

  lemma LeastIsUnique(x: NodeId, s: set<NodeId>)
    requires IsLeast(x, s)
    ensures x == Least(s)
  {
    LeqAntisymmetric(x.name, Least(s).name);
  }

  // ---------- printing ----------

  /** One member of the policy object: a client and its servers. */
  datatype Entry = Entry(id: string, servers: seq<string>)

  function JoinTail(pieces: seq<string>): (s: string)
  {
    if pieces == [] then "" else "," + pieces[0] + JoinTail(pieces[1..])
  }

  /** The pieces with a comma between each two. */
  function Join(pieces: seq<string>): (s: string)
  {
    if pieces == [] then "" else pieces[0] + JoinTail(pieces[1..])
  }

  lemma {:induction false} JoinTailSnoc(pieces: seq<string>, p: string)
    ensures JoinTail(pieces + [p]) == JoinTail(pieces) + "," + p
  {
    if pieces == [] {
      assert JoinTail([p]) == "," + p + JoinTail([]) == "," + p;
    } else {
      assert (pieces + [p])[1..] == pieces[1..] + [p];
      JoinTailSnoc(pieces[1..], p);
    }
  }

  /** One turn of a printing loop: a comma goes before every piece but the first. */
  lemma JoinSnoc(pieces: seq<string>, p: string)
    ensures Join(pieces + [p]) == Join(pieces) + (if pieces == [] then "" else ",") + p
  {
    if pieces != [] {
      assert (pieces + [p])[1..] == pieces[1..] + [p];
      JoinTailSnoc(pieces[1..], p);
    }
  }

  function Quote(id: string): string {
    "\"" + id + "\""
  }

  function Quotes(ids: seq<string>): (ps: seq<string>)
    ensures |ps| == |ids|
  {
    if ids == [] then [] else [Quote(ids[0])] + Quotes(ids[1..])
  }

  function EntryText(e: Entry): string {
    Quote(e.id) + ":" + ("[" + Join(Quotes(e.servers)) + "]")
  }

  function EntryTexts(es: seq<Entry>): (ps: seq<string>)
    ensures |ps| == |es|
  {
    if es == [] then [] else [EntryText(es[0])] + EntryTexts(es[1..])
  }

  function Text(es: seq<Entry>): string {
    "{" + Join(EntryTexts(es)) + "}"
  }

  function Names(ids: seq<NodeId>): (names: seq<string>)
    ensures |names| == |ids|
    ensures forall i :: 0 <= i < |ids| ==> names[i] == ids[i].name
  {
    if ids == [] then [] else [ids[0].name] + Names(ids[1..])
  }

  ghost function EntryOf(cfg: Config, n: NodeId): Entry {
    Entry(n.name, Names(Listing(Servers(cfg, n))))
  }

  /** What `GetPolicy` prints: every task node with the servers it dials. */
  ghost function EntriesOf(cfg: Config, nodes: seq<NodeId>): (es: seq<Entry>)
    ensures |es| == |nodes|
  {
    if nodes == [] then [] else [EntryOf(cfg, nodes[0])] + EntriesOf(cfg, nodes[1..])
  }

  ghost predicate AllLinked(cfg: Config) {
    forall n :: n in cfg.taskNodes ==> NodeInfos(cfg, n).Ok?
  }

  ghost function PolicyOf(cfg: Config): string {
    Text(EntriesOf(cfg, Listing(cfg.taskNodes)))
  }

  /** The loop over a set: each turn visits the least element not yet visited. */
  method NextOf(todo: set<NodeId>) returns (x: NodeId)
    requires todo != {}
    ensures x in todo && IsLeast(x, todo) && Listing(todo) == [x] + Listing(todo - {x})
  {
    LeastExists(todo);
    x :| x in todo && forall y :: y in todo ==> Leq(x.name, y.name);
    assert IsLeast(x, todo);
    LeastIsUnique(x, todo);
  }

  ghost function ServerTexts(s: set<NodeId>): seq<string> {
    Quotes(Names(Listing(s)))
  }

  ghost function MemberTexts(cfg: Config, s: set<NodeId>): seq<string> {
    EntryTexts(EntriesOf(cfg, Listing(s)))
  }

  lemma NextTexts(cfg: Config, s: set<NodeId>, x: NodeId)
    requires x in s && Listing(s) == [x] + Listing(s - {x})
    ensures ServerTexts(s) == [Quote(x.name)] + ServerTexts(s - {x})
    ensures MemberTexts(cfg, s) == [EntryText(EntryOf(cfg, x))] + MemberTexts(cfg, s - {x})
  {
  }

  lemma NoTexts(cfg: Config)
    ensures ServerTexts({}) == [] && MemberTexts(cfg, {}) == []
  {
  }

  /** A printing loop has printed the pieces `printed` of `all`; its text is empty exactly when that is nothing. */
  ghost predicate Printing(all: seq<string>, printed: seq<string>, todo: seq<string>, text: string) {
    && all == printed + todo
    && text == Join(printed)
    && (text == "" <==> printed == [])
  }

  /** One turn of a printing loop. */
  lemma PrintPiece(all: seq<string>, printed: seq<string>, piece: string, todo: seq<string>, text: string)
    requires Printing(all, printed, [piece] + todo, text) && piece != ""
    ensures Printing(all, printed + [piece], todo, (if text == "" then text else text + ",") + piece)
  {
    JoinSnoc(printed, piece);
    assert printed + ([piece] + todo) == (printed + [piece]) + todo;
  }

  lemma PrintedAll(all: seq<string>, printed: seq<string>, text: string)
    requires Printing(all, printed, [], text)
    ensures text == Join(all)
  {
    assert printed + [] == printed;
  }

  /** The inner loop of `GetPolicy`. */
  method PrintServers(servers: set<NodeId>) returns (text: string)
    ensures text == "[" + Join(ServerTexts(servers)) + "]"
  {
    var sid, todo := "", servers;
    ghost var cfg, printed: seq<string> := Config({}, {}, map[]), [];
    assert Printing(ServerTexts(servers), printed, ServerTexts(todo), sid);
    NoTexts(cfg);
    hide Printing, ServerTexts, MemberTexts, Listing, Join, IsLeast;
    while todo != {}
      invariant Printing(ServerTexts(servers), printed, ServerTexts(todo), sid)
      decreases |todo|
    {
      var x := NextOf(todo);
      NextTexts(cfg, todo, x);
      todo := todo - {x};
      PrintPiece(ServerTexts(servers), printed, Quote(x.name), ServerTexts(todo), sid);
      if sid != "" {
        sid := sid + ",";
      }
      sid := sid + Quote(x.name);
      printed := printed + [Quote(x.name)];
    }
    PrintedAll(ServerTexts(servers), printed, sid);
    return "[" + sid + "]";
  }

  /** The first task node, in the order of the printer, that has no links. */
  ghost predicate FirstUnlinked(cfg: Config, n: NodeId) {
    && n in cfg.taskNodes && NodeInfos(cfg, n).Err?
    && (forall m :: m in cfg.taskNodes && NodeInfos(cfg, m).Err? ==> Leq(n.name, m.name))
  }

  lemma FirstToFail(cfg: Config, todo: set<NodeId>, x: NodeId)
    requires todo <= cfg.taskNodes && IsLeast(x, todo) && NodeInfos(cfg, x).Err?
    requires forall n :: n in cfg.taskNodes && n !in todo ==> NodeInfos(cfg, n).Ok?
    ensures FirstUnlinked(cfg, x)
  {
  }

  lemma MemberNotEmpty(cfg: Config, x: NodeId)
    ensures EntryText(EntryOf(cfg, x)) != ""
  {
  }

  lemma MemberPiece(cfg: Config, x: NodeId, policy: string, servers: string)
    requires servers == "[" + Join(ServerTexts(Servers(cfg, x))) + "]"
    ensures (policy + (Quote(x.name) + ":")) + servers == policy + EntryText(EntryOf(cfg, x))
  {
  }

  /** One turn of the outer loop of `GetPolicy`: a comma if need be, the node, and its servers. */
  method PrintMember(cfg: Config, x: NodeId, servers: set<NodeId>, policy: string) returns (text: string)
    requires servers == Servers(cfg, x)
    ensures text == (if policy == "" then policy else policy + ",") + EntryText(EntryOf(cfg, x))
  {
    hide ServerTexts, Join, EntryText, EntryOf, Servers;
    var list := PrintServers(servers);
    text := policy;
    if text != "" {
      text := text + ",";
    }
    MemberPiece(cfg, x, text, list);
    text := text + (Quote(x.name) + ":");
    text := text + list;
  }

  method GetPolicy(cfg: Config) returns (r: Result<string>)
    ensures AllLinked(cfg) ==> r == Ok(PolicyOf(cfg))
    ensures !AllLinked(cfg) ==> r.Err? && exists n :: FirstUnlinked(cfg, n) && NodeInfos(cfg, n) == Err(r.error)
  {
    var policy, todo := "", cfg.taskNodes;
    ghost var all, printed: seq<string> := MemberTexts(cfg, todo), [];
    assert Printing(all, printed, MemberTexts(cfg, todo), policy);
    assert PolicyOf(cfg) == "{" + Join(all) + "}";
    NoTexts(cfg);
    hide Printing, ServerTexts, MemberTexts, Listing, Join, PolicyOf, EntryText, EntryOf, Quote;
    hide Servers, Clients, FirstUnlinked, IsLeast, IsAnswer, NodeInfos;
    while todo != {}
      invariant todo <= cfg.taskNodes
      invariant forall n :: n in cfg.taskNodes && n !in todo ==> NodeInfos(cfg, n).Ok?
      invariant Printing(all, printed, MemberTexts(cfg, todo), policy)
      decreases |todo|
    {
      var x := NextOf(todo);
      NextTexts(cfg, todo, x);
      var links := GetNodeInfos(cfg, x);
      if links.Err? {
        FirstToFail(cfg, todo, x);
        return Err(links.error);
      }
      AnswerIsViews(cfg, x);
      todo := todo - {x};
      ghost var piece := EntryText(EntryOf(cfg, x));
      MemberNotEmpty(cfg, x);
      PrintPiece(all, printed, piece, MemberTexts(cfg, todo), policy);
      policy := PrintMember(cfg, x, links.value.servers, policy);
      printed := printed + [piece];
    }
    PrintedAll(all, printed, policy);
    return Ok("{" + policy + "}");
  }
}
