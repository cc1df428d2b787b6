/**
 Reading a printed policy back: a parser for the objects, arrays and strings of RFC 8259 (sections 4, 5 and 7;
 strings without escapes), then `parse_policy`. With `PolicyText` it shows when printing the policy and using the
 text as the policy leaves every node's view as it was.
 */
module PolicyParser {
  import opened Bytes
  import opened Topology
  import opened PolicyText

  datatype Parsed<+T> = Fail | Done(value: T, rest: string)

  predicate IsSpace(c: char) {
    c == ' ' || c == '\t' || c == '\n' || c == '\r'
  }

  /** A character that may stand unescaped in a string. */
  predicate IsPlain(c: char) {
    c != '\"' && c != '\\' && c >= ' '
  }

  predicate Clean(id: string) {
    forall i :: 0 <= i < |id| ==> IsPlain(id[i])
  }

  function Skip(s: string): (r: string)
    ensures |r| <= |s|
  {
    if s != "" && IsSpace(s[0]) then Skip(s[1..]) else s
  }

  /** The text after the given character, if that comes next. */
  function Eat(s: string, c: char): (r: Option<string>)
    ensures r.Some? ==> |r.value| < |s|
  {
    var t := Skip(s);
    if t != "" && t[0] == c then Some(t[1..]) else None
  }

  function ParseChars(s: string): (r: Parsed<string>)
    ensures r.Done? ==> |r.rest| < |s|
  {
    if s == "" then Fail
    else if s[0] == '\"' then Done("", s[1..])
    else if !IsPlain(s[0]) then Fail
    else match ParseChars(s[1..])
      case Fail => Fail
      case Done(v, rest) => Done([s[0]] + v, rest)
  }

  function ParseString(s: string): (r: Parsed<string>)
    ensures r.Done? ==> |r.rest| < |s|
  {
    match Eat(s, '\"')
    case None => Fail
    case Some(t) => ParseChars(t)
  }

  /** The strings of an array from its second bracket content on: at least one, then the closing bracket. */
  function ParseStrings(s: string): (r: Parsed<seq<string>>)
    ensures r.Done? ==> |r.rest| < |s|
    decreases |s|
  {
    match ParseString(s)
    case Fail => Fail
    case Done(v, t) =>
      if Eat(t, ']').Some? then Done([v], Eat(t, ']').value)
      else if Eat(t, ',').Some? then
        match ParseStrings(Eat(t, ',').value)
        case Fail => Fail
        case Done(vs, rest) => Done([v] + vs, rest)
      else Fail
  }

  function ParseArray(s: string): (r: Parsed<seq<string>>)
    ensures r.Done? ==> |r.rest| < |s|
  {
    match Eat(s, '[')
    case None => Fail
    case Some(t) => if Eat(t, ']').Some? then Done([], Eat(t, ']').value) else ParseStrings(t)
  }

  function ParseMember(s: string): (r: Parsed<Entry>)
    ensures r.Done? ==> |r.rest| < |s|
  {
    match ParseString(s)
    case Fail => Fail
    case Done(id, t) =>
      match Eat(t, ':')
      case None => Fail
      case Some(u) =>
        match ParseArray(u)
        case Fail => Fail
        case Done(servers, rest) => Done(Entry(id, servers), rest)
  }

  function ParseMembers(s: string): (r: Parsed<seq<Entry>>)
    ensures r.Done? ==> |r.rest| < |s|
    decreases |s|
  {
    match ParseMember(s)
    case Fail => Fail
    case Done(v, t) =>
      if Eat(t, '}').Some? then Done([v], Eat(t, '}').value)
      else if Eat(t, ',').Some? then
        match ParseMembers(Eat(t, ',').value)
        case Fail => Fail
        case Done(vs, rest) => Done([v] + vs, rest)
      else Fail
  }

  /** A whole policy text. */
  function ParseText(s: string): (r: Option<seq<Entry>>)
  {
    match Eat(s, '{')
    case None => None
    case Some(t) =>
      var r := if Eat(t, '}').Some? then Done([], Eat(t, '}').value) else ParseMembers(t);
      if r.Done? && Skip(r.rest) == "" then Some(r.value) else None
  }

  // ---------- the text is unambiguous ----------

  /** A character that starts a token is found where it stands. */
  lemma EatHere(c: char, rest: string)
    requires !IsSpace(c)
    ensures Eat([c] + rest, c) == Some(rest)
    ensures forall d :: d != c ==> Eat([c] + rest, d) == None
  {
  }

  lemma {:induction false} CharsRoundTrip(id: string, rest: string)
    requires Clean(id)
    ensures ParseChars(id + ("\"" + rest)) == Done(id, rest)
  {
    var s := id + ("\"" + rest);
    if id == "" {
      assert s == "\"" + rest && s[1..] == rest;
    } else {
      assert IsPlain(id[0]);
      assert s[1..] == id[1..] + ("\"" + rest);
      CharsRoundTrip(id[1..], rest);
      assert [id[0]] + id[1..] == id;
    }
  }

  lemma StringRoundTrip(id: string, rest: string)
    requires Clean(id)
    ensures ParseString(Quote(id) + rest) == Done(id, rest)
  {
    var t := id + ("\"" + rest);
    assert Quote(id) + rest == ['\"'] + t;
    EatHere('\"', t);
    CharsRoundTrip(id, rest);
  }

  ghost predicate AllClean(ids: seq<string>) {
    forall i :: 0 <= i < |ids| ==> Clean(ids[i])
  }

  lemma JoinCons(p: string, ps: seq<string>)
    ensures Join([p] + ps) == p + (if ps == [] then "" else "," + Join(ps))
  {
  }

  lemma {:induction false} StringsRoundTrip(ids: seq<string>, rest: string)
    requires ids != [] && AllClean(ids)
    ensures ParseStrings(Join(Quotes(ids)) + ("]" + rest)) == Done(ids, rest)
  {
    var id, more := ids[0], ids[1..];
    var close := "]" + rest;
    JoinCons(Quote(id), Quotes(more));
    var s := Join(Quotes(ids)) + close;
    hide Join, Eat, ParseString, Quote;
    if more == [] {
      assert ids == [id];
      assert s == Quote(id) + close;
      StringRoundTrip(id, close);
      EatHere(']', rest);
    } else {
      var t := Join(Quotes(more)) + close;
      assert s == Quote(id) + ("," + t);
      StringRoundTrip(id, "," + t);
      EatHere(',', t);
      StringsRoundTrip(more, rest);
      assert [id] + more == ids;
    }
  }

  lemma ArrayRoundTrip(ids: seq<string>, rest: string)
    requires AllClean(ids)
    ensures ParseArray(("[" + Join(Quotes(ids)) + "]") + rest) == Done(ids, rest)
  {
    var t := Join(Quotes(ids)) + ("]" + rest);
    assert ("[" + Join(Quotes(ids)) + "]") + rest == ['['] + t;
    EatHere('[', t);
    if ids == [] {
      assert t == "]" + rest;
      EatHere(']', rest);
    } else {
      JoinCons(Quote(ids[0]), Quotes(ids[1..]));
      assert t == ['\"'] + t[1..];
      EatHere('\"', t[1..]);
      StringsRoundTrip(ids, rest);
    }
  }

  ghost predicate CleanEntry(e: Entry) {
    Clean(e.id) && AllClean(e.servers)
  }

  ghost predicate AllCleanEntries(es: seq<Entry>) {
    forall i :: 0 <= i < |es| ==> CleanEntry(es[i])
  }

  lemma MemberRoundTrip(e: Entry, rest: string)
    requires CleanEntry(e)
    ensures ParseMember(EntryText(e) + rest) == Done(e, rest)
  {
    var u := ("[" + Join(Quotes(e.servers)) + "]") + rest;
    assert EntryText(e) + rest == Quote(e.id) + (":" + u);
    StringRoundTrip(e.id, ":" + u);
    EatHere(':', u);
    ArrayRoundTrip(e.servers, rest);
  }

  lemma MembersText(es: seq<Entry>)
    requires es != []
    ensures Join(EntryTexts(es)) == EntryText(es[0]) + (if es[1..] == [] then "" else "," + Join(EntryTexts(es[1..])))
    ensures Join(EntryTexts(es)) != "" && Join(EntryTexts(es))[0] == '\"'
  {
    JoinCons(EntryText(es[0]), EntryTexts(es[1..]));
  }

  lemma {:induction false} MembersRoundTrip(es: seq<Entry>, rest: string)
    requires es != [] && AllCleanEntries(es)
    ensures ParseMembers(Join(EntryTexts(es)) + ("}" + rest)) == Done(es, rest)
  {
    hide Join, Eat, ParseMember, EntryText, EntryTexts, CleanEntry;
    var e, more := es[0], es[1..];
    var close := "}" + rest;
    var s := Join(EntryTexts(es)) + close;
    MembersText(es);
    if more == [] {
      assert es == [e];
      assert s == EntryText(e) + close;
      MemberRoundTrip(e, close);
      EatHere('}', rest);
    } else {
      var t := Join(EntryTexts(more)) + close;
      assert s == EntryText(e) + ("," + t);
      MemberRoundTrip(e, "," + t);
      EatHere(',', t);
      MembersRoundTrip(more, rest);
      assert [e] + more == es;
    }
  }

  lemma EmptyTextRoundTrip()
    ensures ParseText(Text([])) == Some([])
  {
    assert Text([]) == ['{'] + "}";
    EatHere('{', "}");
    EatHere('}', "");
  }

  /** Parsing what was printed gives back the entries, for ids without quotes, backslashes and control characters. */
  lemma TextRoundTrip(es: seq<Entry>)
    requires AllCleanEntries(es)
    ensures ParseText(Text(es)) == Some(es)
  {
    if es == [] {
      EmptyTextRoundTrip();
    } else {
      var t := Join(EntryTexts(es)) + ("}" + "");
      assert Text(es) == ['{'] + t;
      hide Eat, ParseMembers, Join, EntryTexts, CleanEntry, Text;
      EatHere('{', t);
      MembersText(es);
      assert t == ['\"'] + t[1..];
      EatHere('\"', t[1..]);
      MembersRoundTrip(es, "");
    }
  }

  /** Hence the printed text is unambiguous. */
  lemma TextIsInjective(a: seq<Entry>, b: seq<Entry>)
    requires AllCleanEntries(a)
    requires AllCleanEntries(b)
    requires Text(a) == Text(b)
    ensures a == b
  {
    TextRoundTrip(a);
    TextRoundTrip(b);
  }

  // ---------- the policy read back ----------

  function Ids(names: seq<string>): set<NodeId> {
    set i | 0 <= i < |names| :: NodeId(names[i])
  }

  /** The map `parse_policy` fills: of two members with the same name the first one counts. */
  function ToPolicy(es: seq<Entry>): (policy: map<NodeId, set<NodeId>>)
  {
    if es == [] then map[] else ToPolicy(es[1..])[NodeId(es[0].id) := Ids(es[0].servers)]
  }

  lemma {:induction false} ToPolicySnoc(es: seq<Entry>, e: Entry)
    ensures ToPolicy(es + [e]) == if NodeId(e.id) in ToPolicy(es) then ToPolicy(es)
                                  else ToPolicy(es)[NodeId(e.id) := Ids(e.servers)]
  {
    if es != [] {
      assert (es + [e])[1..] == es[1..] + [e];
      ToPolicySnoc(es[1..], e);
    }
  }

  /** Member `i` is the first of its name. */
  ghost predicate IsFirst(es: seq<Entry>, i: nat) {
    i < |es| && forall j :: 0 <= j < i ==> es[j].id != es[i].id
  }

  lemma {:induction false} KeysAreNames(es: seq<Entry>)
    ensures forall n :: n in ToPolicy(es) <==> exists i :: 0 <= i < |es| && es[i].id == n.name
  {
    hide Ids;
    if es != [] {
      KeysAreNames(es[1..]);
      forall n
        ensures n in ToPolicy(es) <==> exists i :: 0 <= i < |es| && es[i].id == n.name
      {
        if i :| 0 <= i < |es[1..]| && es[1..][i].id == n.name {
          assert es[i + 1].id == n.name;
        }
        if i :| 0 <= i < |es| && es[i].id == n.name {
          assert i > 0 ==> es[1..][i - 1].id == n.name;
        }
      }
    }
  }

  lemma {:induction false} FirstOfTail(es: seq<Entry>, i: nat)
    requires IsFirst(es, i) && i > 0
    ensures IsFirst(es[1..], i - 1) && es[1..][i - 1] == es[i] && es[0].id != es[i].id
  {
    assert forall j :: 0 <= j < i - 1 ==> es[1..][j] == es[j + 1];
  }

  lemma {:induction false} FirstHolds(es: seq<Entry>, i: nat)
    requires IsFirst(es, i)
    ensures NodeId(es[i].id) in ToPolicy(es) && ToPolicy(es)[NodeId(es[i].id)] == Ids(es[i].servers)
    decreases i
  {
    hide Ids;
    if i > 0 {
      FirstOfTail(es, i);
      FirstHolds(es[1..], i - 1);
    }
  }

  lemma {:induction false} FirstCounts(es: seq<Entry>)
    ensures forall i: nat :: IsFirst(es, i) ==>
              NodeId(es[i].id) in ToPolicy(es) && ToPolicy(es)[NodeId(es[i].id)] == Ids(es[i].servers)
  {
    hide ToPolicy, Ids;
    forall i: nat | IsFirst(es, i)
      ensures NodeId(es[i].id) in ToPolicy(es) && ToPolicy(es)[NodeId(es[i].id)] == Ids(es[i].servers)
    {
      FirstHolds(es, i);
    }
  }

  /** The loops of `parse_policy`, whose `emplace` leaves an existing key alone. */
  method ParsePolicy(es: seq<Entry>) returns (policy: map<NodeId, set<NodeId>>)
    ensures policy == ToPolicy(es)
    ensures forall n :: n in policy <==> exists i :: 0 <= i < |es| && es[i].id == n.name
    ensures forall i: nat :: IsFirst(es, i) ==>
              NodeId(es[i].id) in policy && policy[NodeId(es[i].id)] == Ids(es[i].servers)
  {
    policy := map[];
    for i := 0 to |es|
      invariant policy == ToPolicy(es[..i])
    {
      var ids: set<NodeId> := {};
      var servers := es[i].servers;
      for k := 0 to |servers|
        invariant ids == Ids(servers[..k])
      {
        assert servers[..k + 1] == servers[..k] + [servers[k]];
        ids := ids + {NodeId(servers[k])};
      }
      assert servers[..|servers|] == servers;
      assert es[..i + 1] == es[..i] + [es[i]];
      ToPolicySnoc(es[..i], es[i]);
      if NodeId(es[i].id) !in policy {
        policy := policy[NodeId(es[i].id) := ids];
      }
    }
    assert es[..|es|] == es;
    KeysAreNames(es);
    FirstCounts(es);
  }

  /** The policy that maps every listed node to the servers it dials now. */
  function Effective(cfg: Config, nodes: set<NodeId>): map<NodeId, set<NodeId>> {
    map n | n in nodes :: Servers(cfg, n)
  }

  lemma EntryIds(cfg: Config, n: NodeId)
    ensures Ids(EntryOf(cfg, n).servers) == Servers(cfg, n)
  {
  }

  lemma EffectiveCons(cfg: Config, n: NodeId, rest: seq<NodeId>)
    ensures Effective(cfg, set m | m in [n] + rest) == Effective(cfg, set m | m in rest)[n := Servers(cfg, n)]
  {
    hide Servers;
    assert (set m | m in [n] + rest) == (set m | m in rest) + {n};
  }

  lemma {:induction false} ToPolicyOfEntries(cfg: Config, nodes: seq<NodeId>)
    ensures ToPolicy(EntriesOf(cfg, nodes)) == Effective(cfg, set n | n in nodes)
  {
    if nodes != [] {
      var n, rest, es := nodes[0], nodes[1..], EntriesOf(cfg, nodes);
      assert es[1..] == EntriesOf(cfg, rest) && es[0] == EntryOf(cfg, n);
      assert ToPolicy(es) == ToPolicy(es[1..])[NodeId(n.name) := Ids(es[0].servers)];
      hide Servers, Ids, ToPolicy, EntriesOf, EntryOf, Effective;
      ToPolicyOfEntries(cfg, rest);
      EntryIds(cfg, n);
      EffectiveCons(cfg, n, rest);
      assert nodes == [n] + rest;
    }
  }

  ghost predicate Printable(cfg: Config) {
    && AllLinked(cfg)
    && (forall n :: n in cfg.taskNodes ==> Clean(n.name))
    && (forall n, m :: n in cfg.taskNodes && m in Servers(cfg, n) ==> Clean(m.name))
  }

  /** The configuration with its printed policy used as its policy. */
  ghost function Reread(cfg: Config): Config {
    match ParseText(PolicyOf(cfg))
    case None => cfg
    case Some(es) => cfg.(policy := ToPolicy(es))
  }

  lemma {:induction false} NamesClean(ids: seq<NodeId>)
    requires forall n :: n in ids ==> Clean(n.name)
    ensures AllClean(Names(ids))
  {
  }

  lemma {:induction false} EntriesClean(cfg: Config, nodes: seq<NodeId>)
    requires Printable(cfg) && forall n :: n in nodes ==> n in cfg.taskNodes
    ensures AllCleanEntries(EntriesOf(cfg, nodes))
  {
    if nodes != [] {
      EntriesClean(cfg, nodes[1..]);
      NamesClean(Listing(Servers(cfg, nodes[0])));
    }
  }

  lemma RereadPolicy(cfg: Config)
    requires Printable(cfg)
    ensures Reread(cfg) == cfg.(policy := Effective(cfg, cfg.taskNodes))
  {
    var l := Listing(cfg.taskNodes);
    EntriesClean(cfg, l);
    TextRoundTrip(EntriesOf(cfg, l));
    ToPolicyOfEntries(cfg, l);
    assert (set n | n in l) == cfg.taskNodes;
  }

  /** Under the printed policy a task node keeps its servers, and those of its clients that are task nodes. */
  lemma EffectiveViews(cfg: Config, n: NodeId)
    requires n in cfg.taskNodes
    ensures var cfg' := cfg.(policy := Effective(cfg, cfg.taskNodes));
            && Servers(cfg', n) == Servers(cfg, n)
            && Clients(cfg', n) == Clients(cfg, n) * cfg.taskNodes
  {
    var cfg' := cfg.(policy := Effective(cfg, cfg.taskNodes));
    assert n in cfg'.policy;
    assert Clients(cfg', n) == Clients(cfg, n) * cfg.taskNodes;
  }

  /** There it is an error to have no links left. */
  lemma EffectiveInfos(cfg: Config, n: NodeId)
    requires n in cfg.taskNodes && NodeInfos(cfg, n).Ok?
    ensures var cfg' := cfg.(policy := Effective(cfg, cfg.taskNodes));
            NodeInfos(cfg', n).Ok? <==> Servers(cfg, n) != {} || Clients(cfg, n) * cfg.taskNodes != {}
  {
    EffectiveViews(cfg, n);
    assert n in Effective(cfg, cfg.taskNodes);
    hide Servers, Clients;
  }

  /** No task node has a client outside the task, and a full mesh is not a single node. */
  ghost predicate SelfContained(cfg: Config) {
    if cfg.policy == map[] then |cfg.taskNodes| != 1
    else forall n, k :: n in cfg.taskNodes && k in Clients(cfg, n) ==> k in cfg.taskNodes
  }

  /**
   Using the printed policy as the policy gives every task node the same answer, clients and servers and errors
   alike, if and only if the configuration is self-contained.
   */
  lemma PrintedPolicyIsFaithful(cfg: Config)
    requires Printable(cfg)
    ensures SelfContained(cfg) <==> forall n :: n in cfg.taskNodes ==> NodeInfos(Reread(cfg), n) == NodeInfos(cfg, n)
  {
    RereadPolicy(cfg);
    var cfg' := Reread(cfg);
    if cfg.taskNodes != {} {
      var some :| some in cfg.taskNodes;
      assert some in cfg'.policy;
      assert cfg'.policy != map[];
      forall n | n in cfg.taskNodes
        ensures Servers(cfg', n) == Servers(cfg, n)
        ensures NodeInfos(cfg, n).Ok?
      {
      }
      if cfg.policy == map[] {
        FaithfulMesh(cfg);
      } else {
        FaithfulPolicy(cfg);
      }
    }
  }

  lemma FaithfulMesh(cfg: Config)
    requires Printable(cfg) && cfg.policy == map[] && cfg.taskNodes != {}
    ensures var cfg' := cfg.(policy := Effective(cfg, cfg.taskNodes));
            |cfg.taskNodes| != 1 <==> forall n :: n in cfg.taskNodes ==> NodeInfos(cfg', n) == NodeInfos(cfg, n)
  {
    var cfg' := cfg.(policy := Effective(cfg, cfg.taskNodes));
    var some :| some in cfg.taskNodes;
    assert some in cfg'.policy;
    forall n | n in cfg.taskNodes
      ensures Clients(cfg', n) == Clients(cfg, n) && Servers(cfg', n) == Servers(cfg, n)
    {
      EffectiveViews(cfg, n);
    }
    if |cfg.taskNodes| == 1 {
      assert |cfg.taskNodes - {some}| == 0;
      assert NodeInfos(cfg', some) != NodeInfos(cfg, some);
    } else {
      forall n | n in cfg.taskNodes
        ensures NodeInfos(cfg', n) == NodeInfos(cfg, n)
      {
        assert |cfg.taskNodes - {n}| != 0;
      }
    }
  }

  lemma FaithfulPolicy(cfg: Config)
    requires Printable(cfg) && cfg.policy != map[] && cfg.taskNodes != {}
    ensures var cfg' := cfg.(policy := Effective(cfg, cfg.taskNodes));
            SelfContained(cfg) <==> forall n :: n in cfg.taskNodes ==> NodeInfos(cfg', n) == NodeInfos(cfg, n)
  {
    var cfg' := cfg.(policy := Effective(cfg, cfg.taskNodes));
    var some :| some in cfg.taskNodes;
    assert some in cfg'.policy;
    forall n | n in cfg.taskNodes
      ensures Servers(cfg', n) == Servers(cfg, n)
      ensures Clients(cfg', n) == Clients(cfg, n) * cfg.taskNodes
      ensures NodeInfos(cfg, n) == Ok(Links(Clients(cfg, n), Servers(cfg, n)))
      ensures NodeInfos(cfg', n) == NodeInfos(cfg, n) <==> Clients(cfg, n) <= cfg.taskNodes
    {
      EffectiveViews(cfg, n);
      assert Clients(cfg', n) == Clients(cfg, n) <==> Clients(cfg, n) <= cfg.taskNodes;
    }
  }

  lemma {:induction false} SameEntries(a: Config, b: Config, nodes: seq<NodeId>)
    requires forall n :: n in nodes ==> Servers(a, n) == Servers(b, n)
    ensures EntriesOf(a, nodes) == EntriesOf(b, nodes)
  {
    if nodes != [] {
      SameEntries(a, b, nodes[1..]);
    }
  }

  /**
   The printed policy prints as itself, always; and it can be printed, rather than being an error, if and only if every
   task node dials someone or is dialled by a task node.
   */
  lemma PrintingIsIdempotent(cfg: Config)
    requires Printable(cfg)
    ensures PolicyOf(Reread(cfg)) == PolicyOf(cfg)
    ensures AllLinked(Reread(cfg)) <==>
            forall n :: n in cfg.taskNodes ==> Servers(cfg, n) != {} || Clients(cfg, n) * cfg.taskNodes != {}
  {
    RereadPolicy(cfg);
    hide Servers, Clients, NodeInfos;
    forall n | n in cfg.taskNodes
      ensures Servers(Reread(cfg), n) == Servers(cfg, n)
      ensures NodeInfos(Reread(cfg), n).Ok? <==> Servers(cfg, n) != {} || Clients(cfg, n) * cfg.taskNodes != {}
    {
      EffectiveViews(cfg, n);
      EffectiveInfos(cfg, n);
    }
    SameEntries(Reread(cfg), cfg, Listing(cfg.taskNodes));
  }
}
