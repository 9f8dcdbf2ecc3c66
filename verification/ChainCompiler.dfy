/** Compilation of a middlebox chain into per-switch flow rules, and the journey of a packet through a network whose
    flow tables hold them. A rule with the match of an existing rule replaces it (section 4.6 of the OpenFlow Switch
    Specification 1.0.0). */
module ChainCompiler {
  import opened SwitchGraph
  import opened ChainRoute

  type Vid = nat
  type Fields = map<string, string>

  datatype Match = Match(inPort: Option<Port>, vlan: Option<Vid>, fields: Fields)
  datatype VlanAction = Keep | SetVid(vid: Vid) | Strip
  datatype Flow = Flow(vlan: VlanAction, outPort: Port)
  datatype FlowKey = FlowKey(dpid: Dpid, match_: Match)
  datatype Rule = Rule(key: FlowKey, flow: Flow)

  type Flows = map<FlowKey, Flow>

  function Install(flows: Flows, rule: Rule): Flows { flows[rule.key := rule.flow] }

  function InstallAll(flows: Flows, rules: seq<Rule>): Flows {
    if rules == [] then flows else Install(InstallAll(flows, rules[..|rules| - 1]), rules[|rules| - 1])
  }

  // ---------------------------------------------------------------- compilation

  datatype Attach = Attach(dpid: Dpid, port: Port)

  datatype Network = Network(graph: Adjacency, hosts: map<Name, Attach>, mbs: map<Name, Attach>)

  function PushRule(h: Hop, vid: Vid, fields: Fields): Rule {
    Rule(FlowKey(h.dpid, Match(Some(h.inPort), None, fields)), Flow(SetVid(vid), h.outPort))
  }

  function VlanRule(h: Hop, vid: Vid): Rule {
    Rule(FlowKey(h.dpid, Match(Some(h.inPort), Some(vid), map[])), Flow(Keep, h.outPort))
  }

  function PopRule(h: Hop, vid: Vid): Rule {
    Rule(FlowKey(h.dpid, Match(Some(h.inPort), Some(vid), map[])), Flow(Strip, h.outPort))
  }

  function VlanRules(hops: seq<Hop>, vid: Vid): (rules: seq<Rule>)
    ensures |rules| == |hops| && forall i :: 0 <= i < |hops| ==> rules[i] == VlanRule(hops[i], vid)
  {
    seq(|hops|, i requires 0 <= i < |hops| => VlanRule(hops[i], vid))
  }

  // What the full flow of a chain records: a name when the sender or a middlebox is reached, else a switch.
  datatype FlowEntry = Marker(name: Name) | Switch(dpid: Dpid)

  function SwitchesOf(hops: seq<Hop>): (entries: seq<FlowEntry>)
    ensures |entries| == |hops| && forall i :: 0 <= i < |hops| ==> entries[i] == Switch(hops[i].dpid)
  {
    seq(|hops|, i requires 0 <= i < |hops| => Switch(hops[i].dpid))
  }

  // What was installed and recorded, and whether compilation ran to the end (it stops at an exception).
  datatype Compiled = Compiled(rules: seq<Rule>, fullFlow: seq<FlowEntry>, hops: seq<Hop>, ok: bool)

  function Join(a: Compiled, b: Compiled): Compiled {
    Compiled(a.rules + b.rules, a.fullFlow + b.fullFlow, a.hops + b.hops, b.ok)
  }

  function PathBetween(g: Adjacency, a: Dpid, b: Dpid): Option<seq<Dpid>>
    requires Closed(g)
  {
    if a in g then FindPath(g, a, b) else None
  }

  ghost predicate Sane(net: Network) { Closed(net.graph) && Mutual(net.graph) }

  function SegmentBetween(net: Network, from: Attach, to: Name): Option<seq<Hop>>
    requires Sane(net) && to in net.mbs
  {
    match PathBetween(net.graph, from.dpid, net.mbs[to].dpid)
    case None => None
    case Some(path) =>
      FindPathCorrect(net.graph, from.dpid, net.mbs[to].dpid);
      Some(SegmentHops(net.graph, path, from.port, net.mbs[to].port, to))
  }

  function CompileFirst(net: Network, sender: Name, mb: Name, vid: Vid, fields: Fields): Compiled
    requires Sane(net)
  {
    if sender !in net.hosts || mb !in net.mbs then Compiled([], [], [], false)
    else
      match SegmentBetween(net, net.hosts[sender], mb)
      case None => Compiled([], [], [], false)
      case Some(hops) =>
        SegmentNonempty(net, net.hosts[sender], mb);
        Compiled([PushRule(hops[0], vid, fields)] + VlanRules(hops[1..], vid), SwitchesOf(hops), hops, true)
  }

  lemma SegmentNonempty(net: Network, from: Attach, to: Name)
    requires Sane(net) && to in net.mbs && SegmentBetween(net, from, to).Some?
    ensures SegmentBetween(net, from, to).value != []
  {
    FindPathCorrect(net.graph, from.dpid, net.mbs[to].dpid);
  }

  // An unknown source is passed over in silence; an unknown destination or a missing path raises.
  function CompileBetween(net: Network, src: Name, dst: Name, vid: Vid, pop: bool): Compiled
    requires Sane(net)
  {
    if src !in net.mbs then Compiled([], [], [], true)
    else if dst !in net.mbs then Compiled([], [], [], false)
    else
      match SegmentBetween(net, net.mbs[src], dst)
      case None => Compiled([], [Marker(src)], [], false)
      case Some(hops) =>
        SegmentNonempty(net, net.mbs[src], dst);
        var n := |hops| - 1;
        Compiled(VlanRules(hops[..n], vid) + [if pop then PopRule(hops[n], vid) else VlanRule(hops[n], vid)],
                 [Marker(src)] + SwitchesOf(hops), hops, true)
  }

  // The segments from middlebox i of the chain on.
  function CompileRest(net: Network, chain: seq<Name>, i: nat, vid: Vid): Compiled
    requires Sane(net)
    decreases |chain| - i
  {
    if i + 1 >= |chain| then Compiled([], [], [], true)
    else
      var c := CompileBetween(net, chain[i], chain[i + 1], vid, i + 2 == |chain|);
      if c.ok then Join(c, CompileRest(net, chain, i + 1, vid)) else c
  }

  function Compile(net: Network, sender: Name, chain: seq<Name>, vid: Vid, fields: Fields): Compiled
    requires Sane(net) && chain != []
  {
    var c := CompileFirst(net, sender, chain[0], vid, fields);
    Join(Compiled([], [Marker(sender)], [], true), if c.ok then Join(c, CompileRest(net, chain, 0, vid)) else c)
  }

  // ---------------------------------------------------------------- what a compiled chain is

  // The output of hop h is where hop h' expects its packet: a middlebox that sends it back, or a link.
  predicate Leads(net: Network, h: Hop, h': Hop) {
    match h.visit
    case Some(mb) => mb in net.mbs && net.mbs[mb] == Attach(h.dpid, h.outPort) == Attach(h'.dpid, h'.inPort)
    case None =>
      && h.dpid != h'.dpid && Adjacent(net.graph, h.dpid, h'.dpid) && Adjacent(net.graph, h'.dpid, h.dpid)
      && h.outPort == FirstPort(net.graph[h.dpid], h'.dpid).value
      && h'.inPort == FirstPort(net.graph[h'.dpid], h.dpid).value
  }

  // The hops form an unbroken route from an entry port to a middlebox.
  predicate Route(net: Network, hops: seq<Hop>, entry: Attach, exit: Name) {
    && hops != [] && Attach(hops[0].dpid, hops[0].inPort) == entry
    && (forall i :: 0 <= i < |hops| - 1 ==> Leads(net, hops[i], hops[i + 1]))
    && exit in net.mbs
    && var last := hops[|hops| - 1]; last.visit == Some(exit) && net.mbs[exit] == Attach(last.dpid, last.outPort)
  }

  lemma SegmentIsRoute(net: Network, from: Attach, to: Name)
    requires Sane(net) && to in net.mbs && SegmentBetween(net, from, to).Some?
    ensures var hops := SegmentBetween(net, from, to).value;
            Route(net, hops, from, to) && Segmented(hops) && AllVisits(hops, 0) == [to]
  {
    var g := net.graph;
    FindPathCorrect(g, from.dpid, net.mbs[to].dpid);
    var path := PathBetween(g, from.dpid, net.mbs[to].dpid).value;
    PathIsRoute(net, path, from, to);
    hide Route;
    hide Segmented;
    hide AllVisits;
    hide FindPath;
  }

  lemma PathIsRoute(net: Network, path: seq<Dpid>, from: Attach, to: Name)
    requires to in net.mbs && Mutual(net.graph) && IsPath(net.graph, path) && Simple(path)
    requires path[0] == from.dpid && path[|path| - 1] == net.mbs[to].dpid
    ensures var hops := SegmentHops(net.graph, path, from.port, net.mbs[to].port, to);
            Route(net, hops, from, to) && Segmented(hops) && AllVisits(hops, 0) == [to]
  {
    hide SegmentHops;
    hide AllVisits;
    hide Mutual;
    var g, port := net.graph, net.mbs[to].port;
    var hops := SegmentHops(g, path, from.port, port, to);
    SegmentSwitchesDistinct(g, path, from.port, port, to);
    AllVisitsOfSegment(g, path, from.port, port, to, 0);
    SegmentHopsAre(g, path, from.port, port, to, 0);
    SegmentHopsAre(g, path, from.port, port, to, |path| - 1);
    forall i | 0 <= i < |hops| - 1 ensures Leads(net, hops[i], hops[i + 1]) {
      SegmentHopsAre(g, path, from.port, port, to, i);
      SegmentHopsAre(g, path, from.port, port, to, i + 1);
    }
  }

  lemma JoinRoutes(net: Network, a: seq<Hop>, b: seq<Hop>, entry: Attach, mid: Name, exit: Name)
    requires Route(net, a, entry, mid) && Route(net, b, net.mbs[mid], exit)
    ensures Route(net, a + b, entry, exit)
  {
    var hops := a + b;
    forall i | 0 <= i < |hops| - 1 ensures Leads(net, hops[i], hops[i + 1]) {
      if i >= |a| {
        assert Leads(net, b[i - |a|], b[i - |a| + 1]);
      } else if i == |a| - 1 {
        assert hops[i] == a[|a| - 1] && hops[i + 1] == b[0];
      }
    }
  }

  lemma JoinSegmented(a: seq<Hop>, b: seq<Hop>)
    requires Segmented(a) && Segmented(b)
    ensures Segmented(a + b)
  {
    var hops := a + b;
    forall i, j | 0 <= i < j < |hops| && hops[i].dpid == hops[j].dpid
      ensures exists e :: i <= e < j && hops[e].visit.Some?
    {
      if j < |a| {
        var e :| i <= e < j && a[e].visit.Some?;
        assert hops[e] == a[e];
      } else if i < |a| {
        assert hops[|a| - 1].visit.Some?;
      } else {
        var e :| i - |a| <= e < j - |a| && b[e].visit.Some?;
        assert hops[e + |a|] == b[e];
      }
    }
  }

  // Plain rules, the last of which strips the tag if it ends the chain.
  predicate VlanTail(rules: seq<Rule>, hops: seq<Hop>, vid: Vid, pop: bool) {
    && |rules| == |hops| > 0
    && (forall k :: 0 <= k < |hops| - 1 ==> rules[k] == VlanRule(hops[k], vid))
    && rules[|hops| - 1] == if pop then PopRule(hops[|hops| - 1], vid) else VlanRule(hops[|hops| - 1], vid)
  }

  // A compiled stretch of a chain from the middlebox at `entry` through the named ones.
  predicate Stretch(net: Network, c: Compiled, entry: Attach, names: seq<Name>, vid: Vid, pop: bool) {
    && names != []
    && Route(net, c.hops, entry, names[|names| - 1])
    && Segmented(c.hops) && AllVisits(c.hops, 0) == names
    && VlanTail(c.rules, c.hops, vid, pop)
  }

  lemma BetweenIsStretch(net: Network, src: Name, dst: Name, vid: Vid, pop: bool)
    requires Sane(net) && src in net.mbs && CompileBetween(net, src, dst, vid, pop).ok
    ensures dst in net.mbs
    ensures Stretch(net, CompileBetween(net, src, dst, vid, pop), net.mbs[src], [dst], vid, pop)
  {
    SegmentIsRoute(net, net.mbs[src], dst);
  }

  lemma JoinStretches(net: Network, c: Compiled, d: Compiled, entry: Attach, mid: Name, names: seq<Name>, vid: Vid,
                      pop: bool)
    requires Stretch(net, c, entry, [mid], vid, false) && Stretch(net, d, net.mbs[mid], names, vid, pop)
    ensures Stretch(net, Join(c, d), entry, [mid] + names, vid, pop)
  {
    JoinRoutes(net, c.hops, d.hops, entry, mid, names[|names| - 1]);
    JoinSegmented(c.hops, d.hops);
    AllVisitsAppend(c.hops, d.hops, 0);
    JoinTails(c.rules, c.hops, d.rules, d.hops, vid, pop);
  }

  lemma JoinTails(rs: seq<Rule>, hs: seq<Hop>, rs': seq<Rule>, hs': seq<Hop>, vid: Vid, pop: bool)
    requires VlanTail(rs, hs, vid, false) && VlanTail(rs', hs', vid, pop)
    ensures VlanTail(rs + rs', hs + hs', vid, pop)
  {
  }

  lemma {:induction false} RestIsStretch(net: Network, chain: seq<Name>, i: nat, vid: Vid)
    requires Sane(net) && i + 1 < |chain| && chain[i] in net.mbs && CompileRest(net, chain, i, vid).ok
    ensures Stretch(net, CompileRest(net, chain, i, vid), net.mbs[chain[i]], chain[i + 1..], vid, true)
    decreases |chain| - i
  {
    hide CompileBetween;
    hide Stretch;
    var c := CompileBetween(net, chain[i], chain[i + 1], vid, i + 2 == |chain|);
    var d := CompileRest(net, chain, i + 1, vid);
    BetweenIsStretch(net, chain[i], chain[i + 1], vid, i + 2 == |chain|);
    assert chain[i + 1..] == [chain[i + 1]] + chain[i + 2..];
    if i + 2 < |chain| {
      RestIsStretch(net, chain, i + 1, vid);
      JoinStretches(net, c, d, net.mbs[chain[i]], chain[i + 1], chain[i + 2..], vid, true);
    } else {
      assert d == Compiled([], [], [], true);
      assert Join(c, d) == c;
      assert chain[i + 1..] == [chain[i + 1]];
    }
  }

  // The rule of hop i among all hops of a chain: tag on the first, strip on the last of two or more middleboxes.
  function RuleOf(hops: seq<Hop>, i: nat, vid: Vid, fields: Fields, pop: bool): Rule
    requires i < |hops|
  {
    if i == 0 then PushRule(hops[0], vid, fields)
    else if i == |hops| - 1 && pop then PopRule(hops[i], vid)
    else VlanRule(hops[i], vid)
  }

  // The rules and the route of a whole chain.
  predicate ChainCompiled(net: Network, c: Compiled, sender: Name, chain: seq<Name>, vid: Vid, fields: Fields) {
    && sender in net.hosts && chain != []
    && Route(net, c.hops, net.hosts[sender], chain[|chain| - 1])
    && Segmented(c.hops) && AllVisits(c.hops, 0) == chain
    && |c.rules| == |c.hops| && (|chain| > 1 ==> |c.hops| > 1)
    && forall i :: 0 <= i < |c.hops| ==> c.rules[i] == RuleOf(c.hops, i, vid, fields, |chain| > 1)
  }

  lemma FirstIsCompiled(net: Network, sender: Name, mb: Name, vid: Vid, fields: Fields)
    requires Sane(net) && CompileFirst(net, sender, mb, vid, fields).ok
    ensures ChainCompiled(net, CompileFirst(net, sender, mb, vid, fields), sender, [mb], vid, fields)
  {
    SegmentIsRoute(net, net.hosts[sender], mb);
  }

  lemma JoinFirst(net: Network, c: Compiled, d: Compiled, sender: Name, mb: Name, names: seq<Name>, vid: Vid,
                  fields: Fields)
    requires ChainCompiled(net, c, sender, [mb], vid, fields) && Stretch(net, d, net.mbs[mb], names, vid, true)
    ensures ChainCompiled(net, Join(c, d), sender, [mb] + names, vid, fields)
  {
    JoinRoutes(net, c.hops, d.hops, net.hosts[sender], mb, names[|names| - 1]);
    JoinSegmented(c.hops, d.hops);
    AllVisitsAppend(c.hops, d.hops, 0);
    JoinRules(c.rules, c.hops, d.rules, d.hops, vid, fields);
  }

  lemma JoinRules(rs: seq<Rule>, hs: seq<Hop>, rs': seq<Rule>, hs': seq<Hop>, vid: Vid, fields: Fields)
    requires |rs| == |hs| > 0 && forall i :: 0 <= i < |hs| ==> rs[i] == RuleOf(hs, i, vid, fields, false)
    requires VlanTail(rs', hs', vid, true)
    ensures forall i :: 0 <= i < |hs + hs'| ==> (rs + rs')[i] == RuleOf(hs + hs', i, vid, fields, true)
  {
  }

  /** A chain that compiles gives one rule per hop, tagging first and stripping last, along an unbroken route from the
      sender to the last middlebox that passes the middleboxes in chain order. */
  lemma CompiledChain(net: Network, sender: Name, chain: seq<Name>, vid: Vid, fields: Fields)
    requires Sane(net) && chain != [] && Compile(net, sender, chain, vid, fields).ok
    ensures ChainCompiled(net, Compile(net, sender, chain, vid, fields), sender, chain, vid, fields)
  {
    hide CompileFirst;
    hide ChainCompiled;
    var c, d := CompileFirst(net, sender, chain[0], vid, fields), CompileRest(net, chain, 0, vid);
    FirstIsCompiled(net, sender, chain[0], vid, fields);
    assert chain == [chain[0]] + chain[1..];
    if |chain| > 1 {
      assert chain[0] in net.mbs by {
        FirstReaches(net, sender, chain[0], vid, fields);
      }
      RestIsStretch(net, chain, 0, vid);
      JoinFirst(net, c, d, sender, chain[0], chain[1..], vid, fields);
    } else {
      assert d == Compiled([], [], [], true) && chain == [chain[0]];
    }
    SameCompiled(net, Join(c, d), Compile(net, sender, chain, vid, fields), sender, chain, vid, fields);
    if |chain| == 1 {
      SameCompiled(net, c, Compile(net, sender, chain, vid, fields), sender, chain, vid, fields);
    }
  }

  lemma FirstReaches(net: Network, sender: Name, mb: Name, vid: Vid, fields: Fields)
    requires Sane(net) && CompileFirst(net, sender, mb, vid, fields).ok
    ensures mb in net.mbs
  {
  }

  // The full flow plays no part in where packets go.
  lemma SameCompiled(net: Network, a: Compiled, b: Compiled, sender: Name, chain: seq<Name>, vid: Vid, fields: Fields)
    ensures a.rules == b.rules && a.hops == b.hops ==>
              (ChainCompiled(net, a, sender, chain, vid, fields) <==> ChainCompiled(net, b, sender, chain, vid, fields))
  {
  }

  // ---------------------------------------------------------------- when and where a compilation breaks off

  // There is a way over the switches from a port to a middlebox.
  ghost predicate HasWay(net: Network, from: Attach, to: Name) {
    to in net.mbs && exists p :: PathFromTo(net.graph, p, from.dpid, net.mbs[to].dpid)
  }

  // The way to the k-th middlebox of a chain: from the sender, or from the middlebox before it.
  ghost predicate WayTo(net: Network, sender: Name, chain: seq<Name>, k: nat)
    requires k < |chain|
  {
    if k == 0 then sender in net.hosts && HasWay(net, net.hosts[sender], chain[0])
    else chain[k - 1] in net.mbs && HasWay(net, net.mbs[chain[k - 1]], chain[k])
  }

  lemma SegmentIff(net: Network, from: Attach, to: Name)
    requires Sane(net) && to in net.mbs
    ensures SegmentBetween(net, from, to).Some? <==> HasWay(net, from, to)
  {
    var a, b := from.dpid, net.mbs[to].dpid;
    if a in net.graph {
      FindPathCorrect(net.graph, a, b);
    }
    hide FindPath;
    hide SegmentHops;
  }

  lemma FirstOkIff(net: Network, sender: Name, mb: Name, vid: Vid, fields: Fields)
    requires Sane(net)
    ensures CompileFirst(net, sender, mb, vid, fields).ok <==> sender in net.hosts && HasWay(net, net.hosts[sender], mb)
    ensures !CompileFirst(net, sender, mb, vid, fields).ok ==>
              && CompileFirst(net, sender, mb, vid, fields).rules == []
              && CompileFirst(net, sender, mb, vid, fields).hops == []
  {
    if sender in net.hosts && mb in net.mbs {
      SegmentIff(net, net.hosts[sender], mb);
    }
    hide SegmentBetween;
  }

  lemma BetweenOkIff(net: Network, src: Name, dst: Name, vid: Vid, pop: bool)
    requires Sane(net) && src in net.mbs
    ensures CompileBetween(net, src, dst, vid, pop).ok <==> HasWay(net, net.mbs[src], dst)
    ensures !CompileBetween(net, src, dst, vid, pop).ok ==>
              CompileBetween(net, src, dst, vid, pop).rules == [] && CompileBetween(net, src, dst, vid, pop).hops == []
  {
    if dst in net.mbs {
      SegmentIff(net, net.mbs[src], dst);
    }
    hide SegmentBetween;
  }

  // Where the segments from middlebox i on break off: the ways to all middleboxes before the k-th are there, the way to
  // the k-th is not, and the segments before it are installed with the tag left on.
  ghost predicate RestStopsAt(net: Network, chain: seq<Name>, i: nat, vid: Vid, k: nat)
    requires Sane(net) && i < |chain| && chain[i] in net.mbs
  {
    var c := CompileRest(net, chain, i, vid);
    && i < k < |chain| && !WayTo(net, "", chain, k)
    && (forall j :: i < j < k ==> WayTo(net, "", chain, j))
    && if k == i + 1 then c.rules == [] && c.hops == []
       else Stretch(net, c, net.mbs[chain[i]], chain[i + 1..k], vid, false)
  }

  lemma {:induction false} RestOkOrStops(net: Network, chain: seq<Name>, i: nat, vid: Vid) returns (k: nat)
    requires Sane(net) && i < |chain| && chain[i] in net.mbs
    ensures CompileRest(net, chain, i, vid).ok ==> forall j :: i < j < |chain| ==> WayTo(net, "", chain, j)
    ensures !CompileRest(net, chain, i, vid).ok ==> RestStopsAt(net, chain, i, vid, k)
    decreases |chain| - i
  {
    k := i + 1;
    if i + 1 < |chain| {
      var pop := i + 2 == |chain|;
      var c, d := CompileBetween(net, chain[i], chain[i + 1], vid, pop), CompileRest(net, chain, i + 1, vid);
      BetweenOkIff(net, chain[i], chain[i + 1], vid, pop);
      hide CompileBetween;
      hide HasWay;
      hide Stretch;
      assert WayTo(net, "", chain, i + 1) <==> c.ok;
      if c.ok {
        BetweenIsStretch(net, chain[i], chain[i + 1], vid, pop);
        var l := RestOkOrStops(net, chain, i + 1, vid);
        if !d.ok {
          k := l;
          OneMoreStretch(net, c, d, chain, i, k, vid);
        }
      }
    }
  }

  lemma OneMoreStretch(net: Network, c: Compiled, d: Compiled, chain: seq<Name>, i: nat, k: nat, vid: Vid)
    requires i + 1 < k < |chain| && chain[i] in net.mbs && chain[i + 1] in net.mbs
    requires Stretch(net, c, net.mbs[chain[i]], [chain[i + 1]], vid, false)
    requires if k == i + 2 then d.rules == [] && d.hops == []
             else Stretch(net, d, net.mbs[chain[i + 1]], chain[i + 2..k], vid, false)
    ensures Stretch(net, Join(c, d), net.mbs[chain[i]], chain[i + 1..k], vid, false)
  {
    assert chain[i + 1..k] == [chain[i + 1]] + chain[i + 2..k];
    if k == i + 2 {
      assert Join(c, d).rules == c.rules && Join(c, d).hops == c.hops;
      assert chain[i + 1..k] == [chain[i + 1]];
    } else {
      JoinStretches(net, c, d, net.mbs[chain[i]], chain[i + 1], chain[i + 2..k], vid, false);
      hide Stretch;
    }
  }

  // The rules of a chain that is cut off: tagged on the first hop and never stripped.
  predicate ChainCutOff(net: Network, c: Compiled, sender: Name, chain: seq<Name>, vid: Vid, fields: Fields) {
    && sender in net.hosts && chain != []
    && Route(net, c.hops, net.hosts[sender], chain[|chain| - 1])
    && Segmented(c.hops) && AllVisits(c.hops, 0) == chain && |c.rules| == |c.hops|
    && forall i :: 0 <= i < |c.hops| ==> c.rules[i] == RuleOf(c.hops, i, vid, fields, false)
  }

  lemma CutOffJoin(net: Network, c: Compiled, d: Compiled, sender: Name, mb: Name, names: seq<Name>, vid: Vid,
                   fields: Fields)
    requires ChainCompiled(net, c, sender, [mb], vid, fields) && Stretch(net, d, net.mbs[mb], names, vid, false)
    ensures ChainCutOff(net, Join(c, d), sender, [mb] + names, vid, fields)
  {
    JoinRoutes(net, c.hops, d.hops, net.hosts[sender], mb, names[|names| - 1]);
    JoinSegmented(c.hops, d.hops);
    AllVisitsAppend(c.hops, d.hops, 0);
    JoinPlainRules(c.rules, c.hops, d.rules, d.hops, vid, fields);
  }

  lemma JoinPlainRules(rs: seq<Rule>, hs: seq<Hop>, rs': seq<Rule>, hs': seq<Hop>, vid: Vid, fields: Fields)
    requires |rs| == |hs| > 0 && forall i :: 0 <= i < |hs| ==> rs[i] == RuleOf(hs, i, vid, fields, false)
    requires VlanTail(rs', hs', vid, false)
    ensures forall i :: 0 <= i < |hs + hs'| ==> (rs + rs')[i] == RuleOf(hs + hs', i, vid, fields, false)
  {
  }

  /** A chain compiles to its end exactly when its sender and all its middleboxes are known and there is a way over the
      switches to each of them. Otherwise what is installed leads up to the first middlebox without one. */
  lemma CompileOkIff(net: Network, sender: Name, chain: seq<Name>, vid: Vid, fields: Fields)
    requires Sane(net) && chain != []
    ensures var c := Compile(net, sender, chain, vid, fields);
            && (c.ok <==> forall k :: 0 <= k < |chain| ==> WayTo(net, sender, chain, k))
            && (!c.ok ==> exists k: nat :: BreaksOffAt(net, c, sender, chain, vid, fields, k))
  {
    hide *;
    var c, d := CompileFirst(net, sender, chain[0], vid, fields), CompileRest(net, chain, 0, vid);
    var all := Compile(net, sender, chain, vid, fields);
    CompileParts(net, sender, chain, vid, fields);
    FirstOkIff(net, sender, chain[0], vid, fields);
    FirstWay(net, sender, chain);
    if c.ok {
      FirstIsCompiled(net, sender, chain[0], vid, fields);
      FirstReaches(net, sender, chain[0], vid, fields);
      var k := RestOkOrStops(net, chain, 0, vid);
      ForgetSender(net, sender, chain);
      if !d.ok {
        RestStopsIs(net, chain, 0, vid, k);
        CutOffAt(net, c, d, all, sender, chain, vid, fields, k);
        BreaksOffBy(net, all, sender, chain, vid, fields, k);
      }
    } else {
      BreaksOffBy(net, all, sender, chain, vid, fields, 0);
    }
  }

  lemma CompileParts(net: Network, sender: Name, chain: seq<Name>, vid: Vid, fields: Fields)
    requires Sane(net) && chain != []
    ensures var c, d := CompileFirst(net, sender, chain[0], vid, fields), CompileRest(net, chain, 0, vid);
            var all := Compile(net, sender, chain, vid, fields);
            && (all.ok <==> c.ok && d.ok)
            && all.rules == (if c.ok then c.rules + d.rules else c.rules)
            && all.hops == (if c.ok then c.hops + d.hops else c.hops)
  {
    hide CompileFirst;
    hide CompileRest;
  }

  lemma FirstWay(net: Network, sender: Name, chain: seq<Name>)
    requires chain != []
    ensures WayTo(net, sender, chain, 0) <==> sender in net.hosts && HasWay(net, net.hosts[sender], chain[0])
  {
  }

  lemma RestStopsIs(net: Network, chain: seq<Name>, i: nat, vid: Vid, k: nat)
    requires Sane(net) && i < |chain| && chain[i] in net.mbs && RestStopsAt(net, chain, i, vid, k)
    ensures var c := CompileRest(net, chain, i, vid);
            && i < k < |chain| && !WayTo(net, "", chain, k) && (forall j :: i < j < k ==> WayTo(net, "", chain, j))
            && if k == i + 1 then c.rules == [] && c.hops == []
               else Stretch(net, c, net.mbs[chain[i]], chain[i + 1..k], vid, false)
  {
  }

  lemma BreaksOffBy(net: Network, c: Compiled, sender: Name, chain: seq<Name>, vid: Vid, fields: Fields, k: nat)
    requires k < |chain| && !WayTo(net, sender, chain, k) && (forall j :: 0 <= j < k ==> WayTo(net, sender, chain, j))
    requires if k == 0 then c.rules == [] && c.hops == [] else ChainCutOff(net, c, sender, chain[..k], vid, fields)
    ensures BreaksOffAt(net, c, sender, chain, vid, fields, k)
  {
  }

  // The way to every middlebox before the k-th is there, the way to the k-th is not.
  ghost predicate BreaksOffAt(net: Network, c: Compiled, sender: Name, chain: seq<Name>, vid: Vid, fields: Fields,
                              k: nat) {
    && k < |chain| && !WayTo(net, sender, chain, k) && (forall j :: 0 <= j < k ==> WayTo(net, sender, chain, j))
    && if k == 0 then c.rules == [] && c.hops == [] else ChainCutOff(net, c, sender, chain[..k], vid, fields)
  }

  lemma ForgetSender(net: Network, sender: Name, chain: seq<Name>)
    ensures forall k :: 0 < k < |chain| ==> WayTo(net, sender, chain, k) == WayTo(net, "", chain, k)
  {
  }

  lemma CutOffAt(net: Network, c: Compiled, d: Compiled, all: Compiled, sender: Name, chain: seq<Name>, vid: Vid,
                 fields: Fields, k: nat)
    requires 0 < k < |chain| && chain[0] in net.mbs && ChainCompiled(net, c, sender, [chain[0]], vid, fields)
    requires if k == 1 then d.rules == [] && d.hops == []
             else Stretch(net, d, net.mbs[chain[0]], chain[1..k], vid, false)
    requires all.rules == c.rules + d.rules && all.hops == c.hops + d.hops
    ensures ChainCutOff(net, all, sender, chain[..k], vid, fields)
  {
    assert chain[..k] == [chain[0]] + chain[1..k];
    if k == 1 {
      assert all.rules == c.rules && all.hops == c.hops && chain[..k] == [chain[0]];
    } else {
      CutOffJoin(net, c, d, sender, chain[0], chain[1..k], vid, fields);
      hide Stretch;
      hide ChainCompiled;
    }
  }
}
