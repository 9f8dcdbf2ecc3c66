/** Small networks on which the traffic steering application fails a property that it meets elsewhere. */
module ChainFailures {
  import opened SwitchGraph
  import opened ChainRoute
  import opened ChainCompiler
  import opened PacketJourney
  import opened ChainRules
  import opened ChainService
  import opened ChainText

  // ---------------------------------------------------------------- paths

  lemma PathToSelf(g: Adjacency, a: Dpid)
    requires Closed(g) && a in g
    ensures PathBetween(g, a, a) == Some([a])
  {
  }

  lemma SegmentAtSwitch(net: Network, from: Attach, to: Name)
    requires Sane(net) && to in net.mbs && from.dpid == net.mbs[to].dpid && from.dpid in net.graph
    ensures SegmentBetween(net, from, to) == Some([Hop(from.dpid, from.port, net.mbs[to].port, Some(to))])
  {
    PathToSelf(net.graph, from.dpid);
    hide FindPath;
  }

  // ---------------------------------------------------------------- one switch

  // Two hosts and two middleboxes on one switch.
  const ONE_SWITCH := Network(map[1 := []],
                              map["h1" := Attach(1, 10), "h2" := Attach(1, 20)],
                              map["m1" := Attach(1, 11), "m2" := Attach(1, 12)])

  lemma OneSwitchIsSane()
    ensures Sane(ONE_SWITCH) && ONE_SWITCH.graph == Built({1}, [])
  {
    BuiltIsWellBuilt({1}, []);
  }

  // A chain of one middlebox from either host.
  lemma SingleCompiles(sender: Name, vid: Vid, fields: Fields)
    requires sender in ONE_SWITCH.hosts
    ensures Sane(ONE_SWITCH)
    ensures var h := Hop(1, ONE_SWITCH.hosts[sender].port, 11, Some("m1"));
            Compile(ONE_SWITCH, sender, ["m1"], vid, fields)
            == Compiled([PushRule(h, vid, fields)], [Marker(sender), Switch(1)], [h], true)
  {
    OneSwitchIsSane();
    FirstCompiles(sender, vid, fields);
    hide CompileFirst;
  }

  lemma FirstCompiles(sender: Name, vid: Vid, fields: Fields)
    requires Sane(ONE_SWITCH) && sender in ONE_SWITCH.hosts
    ensures var h := Hop(1, ONE_SWITCH.hosts[sender].port, 11, Some("m1"));
            CompileFirst(ONE_SWITCH, sender, "m1", vid, fields)
            == Compiled([PushRule(h, vid, fields)], [Switch(1)], [h], true)
  {
    var h := Hop(1, ONE_SWITCH.hosts[sender].port, 11, Some("m1"));
    SegmentAtSwitch(ONE_SWITCH, ONE_SWITCH.hosts[sender], "m1");
    hide SegmentBetween;
    assert [h][1..] == [];
    assert SwitchesOf([h]) == [Switch(1)];
  }

  // The chain m1,m2 from h1 gets a tagging rule and one rule that strips the tag.
  lemma PairCompiles(vid: Vid, fields: Fields)
    ensures Sane(ONE_SWITCH)
    ensures var c := Compile(ONE_SWITCH, "h1", ["m1", "m2"], vid, fields);
            && c.ok
            && c.rules == [PushRule(Hop(1, 10, 11, Some("m1")), vid, fields), PopRule(Hop(1, 11, 12, Some("m2")), vid)]
  {
    OneSwitchIsSane();
    FirstCompiles("h1", vid, fields);
    SecondCompiles(vid);
    hide CompileFirst;
    hide CompileBetween;
    var chain: seq<Name> := ["m1", "m2"];
    assert CompileRest(ONE_SWITCH, chain, 1, vid) == Compiled([], [], [], true);
  }

  lemma SecondCompiles(vid: Vid)
    requires Sane(ONE_SWITCH)
    ensures CompileBetween(ONE_SWITCH, "m1", "m2", vid, true)
         == Compiled([PopRule(Hop(1, 11, 12, Some("m2")), vid)], [Marker("m1"), Switch(1)],
                     [Hop(1, 11, 12, Some("m2"))], true)
  {
    var h := Hop(1, 11, 12, Some("m2"));
    SegmentAtSwitch(ONE_SWITCH, ONE_SWITCH.mbs["m1"], "m2");
    hide SegmentBetween;
    assert [h][..0] == [] && VlanRules([], vid) == [];
    assert SwitchesOf([h]) == [Switch(1)];
  }

  // ---- orphaned rules

  lemma PairText()
    ensures Split("m1,m2") == ["m1", "m2"]
  {
    assert "m1,m2" == "m1" + ",m2" && ",m2"[1..] == "m2" && "m2" == "m2" + "" && "m1" == "m1" + "";
    SplitPrefix("m1", ",m2");
    SplitPrefix("m2", "");
    assert Split("m2") == ["m2"];
    assert Split(",m2") == [""] + Split(",m2"[1..]);
  }

  /** Adding the chain m1,m2 a second time under the same key leaves the rule of its first vlan id without an owner. */
  lemma AddingTwiceOrphans(fields: seq<(string, string)>)
    requires fields != []
    ensures Sane(ONE_SWITCH)
    ensures var key := ChainKey("h1", "m1,m2", fields);
            var c := Compile(ONE_SWITCH, "h1", Split(key.chain), 1, FullMatch(fields));
            var d := Compile(ONE_SWITCH, "h1", Split(key.chain), 2, FullMatch(fields));
            var once, tables := map[key := ChainData(key.chain, 1, c.fullFlow)], InstallAll(map[], c.rules);
            && c.ok && d.ok && Owned(once, tables)
            && !Owned(once[key := ChainData(key.chain, 2, d.fullFlow)], InstallAll(tables, d.rules))
  {
    var key := ChainKey("h1", "m1,m2", fields);
    PairText();
    PairCompiles(1, FullMatch(fields));
    PairCompiles(2, FullMatch(fields));
    var c := Compile(ONE_SWITCH, "h1", Split(key.chain), 1, FullMatch(fields));
    var d := Compile(ONE_SWITCH, "h1", Split(key.chain), 2, FullMatch(fields));
    var once, tables := map[key := ChainData(key.chain, 1, c.fullFlow)], InstallAll(map[], c.rules);
    hide Compile;
    hide FullMatch;
    OwnedOnce(once, key, c.rules, FullMatch(fields));
    OrphanAfter(once, key, tables, c.rules[1].key, d.rules, ChainData(key.chain, 2, d.fullFlow));
  }

  lemma OwnedOnce(once: Registry, key: ChainKey, rules: seq<Rule>, fields: Fields)
    requires key in once && once[key].vid == 1
    requires rules == [PushRule(Hop(1, 10, 11, Some("m1")), 1, fields), PopRule(Hop(1, 11, 12, Some("m2")), 1)]
    ensures Owned(once, InstallAll(map[], rules)) && rules[1].key in InstallAll(map[], rules)
    ensures rules[1].key.match_.vlan == Some(1)
  {
    forall k | k in InstallAll(map[], rules) && k.match_.vlan.Some? ensures OwnedBy(once, k.match_.vlan.value) {
      InstalledKeys(map[], rules, k);
      OwnerOf(once, key);
    }
    LastInstalledWins(map[], rules, 1);
  }

  lemma OrphanAfter(once: Registry, key: ChainKey, tables: Flows, k: FlowKey, rules: seq<Rule>, data: ChainData)
    requires once.Keys == {key} && k in tables && k.match_.vlan == Some(1) && data.vid == 2
    ensures !Owned(once[key := data], InstallAll(tables, rules))
  {
    InstalledKeys(tables, rules, k);
  }

  // ---- a tagging rule taken by another chain's removal

  /** Two hosts on one switch, and the fields of one chain are among those of the other: removing the first chain takes
      the second one's tagging rule away. */
  lemma RemovalTakesOthersTag()
    ensures Sane(ONE_SWITCH)
    ensures var a, b := ChainKey("h1", "m1", [("f", "v")]), ChainKey("h2", "m1", [("f", "v"), ("g", "w")]);
            var c := Compile(ONE_SWITCH, "h1", ["m1"], 1, FullMatch(a.fields));
            var d := Compile(ONE_SWITCH, "h2", ["m1"], 2, FullMatch(b.fields));
            var registry := map[a := ChainData("m1", 1, c.fullFlow), b := ChainData("m1", 2, d.fullFlow)];
            var tables := InstallAll(InstallAll(map[], c.rules), d.rules);
            && TagsFor(ONE_SWITCH, tables, b, 2)
            && !TagsFor(ONE_SWITCH, Uninstalled(registry, tables, a, 1, FullMatch(a.fields)), b, 2)
  {
    var a, b := ChainKey("h1", "m1", [("f", "v")]), ChainKey("h2", "m1", [("f", "v"), ("g", "w")]);
    SingleCompiles("h1", 1, FullMatch(a.fields));
    SingleCompiles("h2", 2, FullMatch(b.fields));
    var c := Compile(ONE_SWITCH, "h1", ["m1"], 1, FullMatch(a.fields));
    var d := Compile(ONE_SWITCH, "h2", ["m1"], 2, FullMatch(b.fields));
    var registry := map[a := ChainData("m1", 1, c.fullFlow), b := ChainData("m1", 2, d.fullFlow)];
    var tables := InstallAll(InstallAll(map[], c.rules), d.rules);
    hide Compile;
    FieldsInclude();
    hide FullMatch;
    LastInstalledWins(InstallAll(map[], c.rules), d.rules, 0);
    UninstallUntagged(registry, tables, a, 1, FullMatch(a.fields));
    hide InstallAll;
    hide Uninstalled;
    TagsInPart(ONE_SWITCH, Uninstalled(registry, tables, a, 1, FullMatch(a.fields)), b, 2);
  }

  lemma FieldsInclude()
    ensures FullMatch([("f", "v")]) == map["f" := "v"]
    ensures FullMatch([("f", "v"), ("g", "w")]) == map["f" := "v", "g" := "w"]
  {
    var two := [("f", "v"), ("g", "w")];
    assert two[..1] == [("f", "v")] && two[..1][..0] == [];
    assert [("f", "v")][..0] == [];
    assert FullMatch([("f", "v")]) == map["f" := "v"];
  }

  // ---------------------------------------------------------------- two switches

  const LINKS := [Link(1, 1, 2, 1)]

  // Middleboxes m1 and m3 on switch 1, m2 and m4 on switch 2.
  const TWO_SWITCHES := Network(map[1 := [Neighbor(1, 2)], 2 := [Neighbor(1, 1)]],
                                map["h" := Attach(1, 10)],
                                map["m1" := Attach(1, 11), "m3" := Attach(1, 13),
                                    "m2" := Attach(2, 12), "m4" := Attach(2, 14)])

  lemma TwoSwitchesAreSane()
    ensures Sane(TWO_SWITCHES) && TWO_SWITCHES.graph == Built({1, 2}, LINKS)
  {
    BuiltIsWellBuilt({1, 2}, LINKS);
    assert LINKS[..0] == [];
    var empty: Adjacency := map[1 := [], 2 := []];
    assert Built({1, 2}, []) == empty;
    assert Built({1, 2}, LINKS) == AddLink(empty, LINKS[0]);
    var half: Adjacency := map[1 := [Neighbor(1, 2)], 2 := []];
    assert empty[1] + [Neighbor(1, 2)] == [Neighbor(1, 2)] && half[2] + [Neighbor(1, 1)] == [Neighbor(1, 1)];
    assert Neighbor(1, 2) !in empty[1] && empty[1 := [Neighbor(1, 2)]] == half;
    assert Neighbor(1, 1) !in half[2] && half[2 := [Neighbor(1, 1)]] == TWO_SWITCHES.graph;
  }

  lemma PathAcross(a: Dpid, b: Dpid)
    requires (a, b) == (1, 2) || (a, b) == (2, 1)
    requires Sane(TWO_SWITCHES)
    ensures PathBetween(TWO_SWITCHES.graph, a, b) == Some([a, b])
  {
    var g := TWO_SWITCHES.graph;
    FindPathCorrect(g, a, b);
    assert PathFromTo(g, [a, b], a, b);
    var p := FindPath(g, a, b).value;
    hide FindPath;
    assert forall i :: 0 <= i < |p| ==> p[i] == 1 || p[i] == 2;
    assert p[0] == a && p[|p| - 1] == b && |p| >= 2;
    assert p[1] == b;
    assert |p| == 2;
    assert p == [a, b];
  }

  lemma SegmentAcross(from: Attach, to: Name)
    requires Sane(TWO_SWITCHES) && to in TWO_SWITCHES.mbs
    requires (from.dpid, TWO_SWITCHES.mbs[to].dpid) == (1, 2) || (from.dpid, TWO_SWITCHES.mbs[to].dpid) == (2, 1)
    ensures SegmentBetween(TWO_SWITCHES, from, to)
         == Some([Hop(from.dpid, from.port, 1, None),
                  Hop(TWO_SWITCHES.mbs[to].dpid, 1, TWO_SWITCHES.mbs[to].port, Some(to))])
  {
    var b := TWO_SWITCHES.mbs[to].dpid;
    PathAcross(from.dpid, b);
    FindPathCorrect(TWO_SWITCHES.graph, from.dpid, b);
    HopsAcross(from.dpid, b, from.port, TWO_SWITCHES.mbs[to].port, to);
    hide FindPath;
    hide SegmentHops;
  }

  lemma HopsAcross(a: Dpid, b: Dpid, inPort: Port, outPort: Port, to: Name)
    requires (a, b) == (1, 2) || (a, b) == (2, 1)
    requires Sane(TWO_SWITCHES) && IsPath(TWO_SWITCHES.graph, [a, b])
    ensures SegmentHops(TWO_SWITCHES.graph, [a, b], inPort, outPort, to)
         == [Hop(a, inPort, 1, None), Hop(b, 1, outPort, Some(to))]
  {
    var g, path := TWO_SWITCHES.graph, [a, b];
    assert path[1..] == [b];
    assert FirstPort([Neighbor(1, 2)], 2) == Some(1) && FirstPort([Neighbor(1, 1)], 1) == Some(1);
    PathTail(g, path);
    assert SegmentHops(g, [b], 1, outPort, to) == [Hop(b, 1, outPort, Some(to))];
    assert FirstPort(g[a], b) == Some(1) && FirstPort(g[b], a) == Some(1);
  }

  /** Four different middleboxes, m1 and m3 on one switch and m2 and m4 on the other: the chain through them compiles to
      its end, and the hops into the second switch share one key. */
  lemma DistinctMiddleboxesClash(vid: Vid, fields: Fields)
    ensures Sane(TWO_SWITCHES)
    ensures var c := Compile(TWO_SWITCHES, "h", ["m1", "m2", "m3", "m4"], vid, fields);
            c.ok && !DistinctKeys(c.hops)
  {
    TwoSwitchesAreSane();
    var net, chain := TWO_SWITCHES, ["m1", "m2", "m3", "m4"];
    FirstAcross(vid, fields);
    RestAcross(chain, vid);
    var c := Compile(net, "h", chain, vid, fields);
    CompiledHops(chain, vid, fields);
    hide Compile;
    assert c.hops[2] == Hop(2, 1, 12, Some("m2"));
    assert c.hops[6] == Hop(2, 1, 14, Some("m4"));
    assert SameKey(c.hops[2], c.hops[6]);
  }

  lemma FirstAcross(vid: Vid, fields: Fields)
    requires Sane(TWO_SWITCHES)
    ensures var c := CompileFirst(TWO_SWITCHES, "h", "m1", vid, fields); c.ok && c.hops == [Hop(1, 10, 11, Some("m1"))]
  {
    SegmentAtSwitch(TWO_SWITCHES, TWO_SWITCHES.hosts["h"], "m1");
    hide SegmentBetween;
  }

  lemma BetweenAcross(src: Name, dst: Name, vid: Vid, pop: bool)
    requires Sane(TWO_SWITCHES) && (src, dst) in {("m1", "m2"), ("m2", "m3"), ("m3", "m4")}
    ensures src in TWO_SWITCHES.mbs && dst in TWO_SWITCHES.mbs
    ensures var c := CompileBetween(TWO_SWITCHES, src, dst, vid, pop);
            var from, to := TWO_SWITCHES.mbs[src], TWO_SWITCHES.mbs[dst];
            c.ok && c.hops == [Hop(from.dpid, from.port, 1, None), Hop(to.dpid, 1, to.port, Some(dst))]
  {
    SegmentAcross(TWO_SWITCHES.mbs[src], dst);
    hide SegmentBetween;
  }

  lemma RestAcross(chain: seq<Name>, vid: Vid)
    requires Sane(TWO_SWITCHES) && chain == ["m1", "m2", "m3", "m4"]
    ensures var c := CompileRest(TWO_SWITCHES, chain, 0, vid);
            && c.ok
            && c.hops == [Hop(1, 11, 1, None), Hop(2, 1, 12, Some("m2"))]
                         + [Hop(2, 12, 1, None), Hop(1, 1, 13, Some("m3"))]
                         + [Hop(1, 13, 1, None), Hop(2, 1, 14, Some("m4"))]
  {
    BetweenAcross("m1", "m2", vid, false);
    BetweenAcross("m2", "m3", vid, false);
    BetweenAcross("m3", "m4", vid, true);
    RestEnds(chain, vid);
    RestStep(chain, 2, vid);
    RestStep(chain, 1, vid);
    RestStep(chain, 0, vid);
    hide CompileBetween;
    hide CompileRest;
  }

  lemma RestEnds(chain: seq<Name>, vid: Vid)
    requires Sane(TWO_SWITCHES) && |chain| == 4
    ensures CompileRest(TWO_SWITCHES, chain, 3, vid) == Compiled([], [], [], true)
  {
  }

  lemma RestStep(chain: seq<Name>, i: nat, vid: Vid)
    requires Sane(TWO_SWITCHES) && i + 1 < |chain|
    ensures var c := CompileBetween(TWO_SWITCHES, chain[i], chain[i + 1], vid, i + 2 == |chain|);
            c.ok ==> CompileRest(TWO_SWITCHES, chain, i, vid) == Join(c, CompileRest(TWO_SWITCHES, chain, i + 1, vid))
  {
    hide CompileBetween;
  }

  lemma CompiledHops(chain: seq<Name>, vid: Vid, fields: Fields)
    requires Sane(TWO_SWITCHES) && chain != []
    ensures var c := CompileFirst(TWO_SWITCHES, "h", chain[0], vid, fields);
            var rest, all := CompileRest(TWO_SWITCHES, chain, 0, vid), Compile(TWO_SWITCHES, "h", chain, vid, fields);
            c.ok ==> all.ok == rest.ok && all.hops == c.hops + rest.hops
  {
    hide CompileFirst;
    hide CompileRest;
  }
}
