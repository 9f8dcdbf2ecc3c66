/** A packet's journey through a network whose flow tables hold the rules of a compiled chain. */
module PacketJourney {
  import opened SwitchGraph
  import opened ChainRoute
  import opened ChainCompiler

  // A frame's vlan tags, outermost first, and the header fields below them.
  datatype Packet = Packet(tags: seq<Vid>, fields: Fields)

  // A packet arriving at a switch port.
  datatype Arrival = Arrival(at: Attach, packet: Packet)

  // What is plugged into the switch ports: the other end of a cable, or a middlebox. A middlebox sends every packet
  // back where it came from; `works` is what it does to the tags (stamping an id, counting up a version).
  datatype Plant = Plant(wires: map<Attach, Attach>, mbAt: map<Attach, Name>, works: (Name, seq<Vid>) -> seq<Vid>)

  datatype Moved = Moved(arrival: Arrival, visited: Option<Name>)

  predicate Fits(match_: Fields, packet: Fields) {
    forall f :: f in match_ ==> f in packet && packet[f] == match_[f]
  }

  // A rule with a vlan id looks at the outermost tag; one without does not look at tags.
  predicate Matches(key: FlowKey, a: Arrival) {
    && key.dpid == a.at.dpid
    && (key.match_.inPort.Some? ==> key.match_.inPort.value == a.at.port)
    && (key.match_.vlan.Some? ==> Outermost(a.packet.tags) == key.match_.vlan)
    && Fits(key.match_.fields, a.packet.fields)
  }

  function Outermost(tags: seq<Vid>): Option<Vid> { if tags == [] then None else Some(tags[0]) }

  // Setting a vlan id replaces the outermost tag's or adds a tag (section 3.3, OpenFlow Switch Specification 1.0.0).
  function Retagged(tags: seq<Vid>, action: VlanAction): seq<Vid> {
    match action
    case Keep => tags
    case SetVid(vid) => [vid] + if tags == [] then [] else tags[1..]
    case Strip => if tags == [] then [] else tags[1..]
  }

  // The tags of a packet that a flow sends to a middlebox or over a cable, when it arrives again.
  function AfterHop(plant: Plant, flow: Flow, visit: Option<Name>, tags: seq<Vid>): seq<Vid> {
    if visit.Some? then plant.works(visit.value, Retagged(tags, flow.vlan)) else Retagged(tags, flow.vlan)
  }

  // A switch drops what would leave by the port it came in.
  function Emit(plant: Plant, a: Arrival, flow: Flow): Option<Moved> {
    var out, visit := Attach(a.at.dpid, flow.outPort), VisitAt(plant, Attach(a.at.dpid, flow.outPort));
    var packet := Packet(AfterHop(plant, flow, visit, a.packet.tags), a.packet.fields);
    if flow.outPort == a.at.port then None
    else if visit.Some? then Some(Moved(Arrival(out, packet), visit))
    else if out in plant.wires then Some(Moved(Arrival(plant.wires[out], packet), None))
    else None
  }

  function VisitAt(plant: Plant, at: Attach): Option<Name> { if at in plant.mbAt then Some(plant.mbAt[at]) else None }

  // Some matching rule acts; the standard leaves open which, when several match at one priority.
  ghost function Next(plant: Plant, flows: Flows, a: Arrival): Option<Moved> {
    if key :| key in flows && Matches(key, a) then Emit(plant, a, flows[key]) else None
  }

  datatype Journey = Journey(visited: seq<Name>, last: Arrival)

  ghost function Travel(plant: Plant, flows: Flows, a: Arrival, steps: nat): Journey
    decreases steps
  {
    if steps == 0 || Next(plant, flows, a).None? then Journey([], a)
    else
      var moved := Next(plant, flows, a).value;
      var rest := Travel(plant, flows, moved.arrival, steps - 1);
      Journey((if moved.visited.Some? then [moved.visited.value] else []) + rest.visited, rest.last)
  }

  // ---------------------------------------------------------------- hypotheses

  // Every reported link is a cable, and every port has one thing plugged in.
  ghost predicate Cabled(net: Network, plant: Plant, nodes: set<Dpid>, links: seq<Link>) {
    && Known(nodes, links) && net.graph == Built(nodes, links)
    && (forall i :: 0 <= i < |links| ==>
        Cable(plant, Attach(links[i].src, links[i].srcPort), Attach(links[i].dst, links[i].dstPort)))
    && (forall mb :: mb in net.mbs ==> net.mbs[mb] in plant.mbAt && plant.mbAt[net.mbs[mb]] == mb)
    && (forall at :: at in plant.wires ==> at !in plant.mbAt)
    && (forall host :: host in net.hosts ==> net.hosts[host] !in plant.wires && net.hosts[host] !in plant.mbAt)
  }

  // No middlebox touches the outermost tag of a packet that carries the chain's vlan id.
  ghost predicate Transparent(plant: Plant, vid: Vid) { forall mb, tags :: KeepsTag(plant, mb, vid, tags) }

  predicate KeepsTag(plant: Plant, mb: Name, vid: Vid, tags: seq<Vid>) {
    Outermost(tags) == Some(vid) ==> Outermost(plant.works(mb, tags)) == Some(vid)
  }

  // No middlebox puts tags below the chain's, or on a frame without any.
  ghost predicate AddsNoTags(plant: Plant, vid: Vid) {
    forall mb :: plant.works(mb, [vid]) == [vid] && plant.works(mb, []) == []
  }

  predicate Cable(plant: Plant, a: Attach, b: Attach) {
    a in plant.wires && b in plant.wires && plant.wires[a] == b && plant.wires[b] == a
  }

  // What was in the tables before cannot catch the chain's tagged packets: other chains' tagged rules carry other vlan
  // ids, and untagged rules sit at a host's port.
  ghost predicate Stray(net: Network, flows: Flows, vid: Vid) {
    forall key :: key in flows ==>
      match key.match_.vlan
      case Some(v) => v != vid
      case None => AtHost(net, key)
  }

  // Nor the untagged packet: untagged rules at the sender's port are for other packets or for this very match.
  ghost predicate Foreign(net: Network, flows: Flows, sender: Name, vid: Vid, fields: Fields, packet: Fields)
    requires sender in net.hosts
  {
    && Stray(net, flows, vid)
    && forall key :: key in flows && key.match_.vlan.None? && key.match_.inPort.Some?
                     && Attach(key.dpid, key.match_.inPort.value) == net.hosts[sender]
         ==> || !Fits(key.match_.fields, packet)
             || key == FlowKey(net.hosts[sender].dpid, Match(Some(net.hosts[sender].port), None, fields))
  }

  // The part of it that matters before hop i.
  ghost predicate LeftAlone(net: Network, flows: Flows, sender: Name, vid: Vid, fields: Fields, packet: Fields,
                            i: nat) {
    && sender in net.hosts && Stray(net, flows, vid)
    && (i == 0 ==> Fits(fields, packet) && Foreign(net, flows, sender, vid, fields, packet))
  }

  ghost predicate AtHost(net: Network, key: FlowKey) {
    key.match_.inPort.Some? && exists h :: h in net.hosts && net.hosts[h] == Attach(key.dpid, key.match_.inPort.value)
  }

  // ---------------------------------------------------------------- lookups in the tables

  lemma {:induction false} InstalledKeys(flows: Flows, rules: seq<Rule>, key: FlowKey)
    ensures key in InstallAll(flows, rules) <==> key in flows || exists i :: 0 <= i < |rules| && rules[i].key == key
  {
    if rules != [] {
      var front := rules[..|rules| - 1];
      InstalledKeys(flows, front, key);
      if i :| 0 <= i < |front| && front[i].key == key {
        assert rules[i].key == key;
      }
      if i :| 0 <= i < |rules| && rules[i].key == key {
        assert i < |front| ==> front[i].key == key;
      }
    }
  }

  /** The last rule installed for a match is the one in force. */
  lemma {:induction false} LastInstalledWins(flows: Flows, rules: seq<Rule>, j: nat)
    requires j < |rules| && forall k :: j < k < |rules| ==> rules[k].key != rules[j].key
    ensures rules[j].key in InstallAll(flows, rules) && InstallAll(flows, rules)[rules[j].key] == rules[j].flow
  {
    if j < |rules| - 1 {
      var front := rules[..|rules| - 1];
      assert forall k :: j < k < |front| ==> front[k] == rules[k];
      LastInstalledWins(flows, front, j);
    }
  }

  // ---------------------------------------------------------------- the itinerary

  // The chain's hops with everything needed to place its packet along them.
  ghost predicate Itinerary(net: Network, plant: Plant, c: Compiled, sender: Name, chain: seq<Name>, vid: Vid,
                            fields: Fields) {
    && ChainCompiled(net, c, sender, chain, vid, fields)
    && Plugged(net, plant)
  }

  // Adjacent switches are cabled at their first ports; nothing else is plugged into a middlebox's or a host's port.
  ghost predicate Plugged(net: Network, plant: Plant) {
    && (forall a, b :: a != b && Adjacent(net.graph, a, b) && Adjacent(net.graph, b, a) ==>
          Cable(plant, Attach(a, FirstPort(net.graph[a], b).value), Attach(b, FirstPort(net.graph[b], a).value)))
    && (forall mb :: mb in net.mbs ==> net.mbs[mb] in plant.mbAt && plant.mbAt[net.mbs[mb]] == mb)
    && (forall at :: at in plant.wires ==> at !in plant.mbAt)
    && (forall host :: host in net.hosts ==> net.hosts[host] !in plant.wires && net.hosts[host] !in plant.mbAt)
  }

  lemma CabledIsPlugged(net: Network, plant: Plant, nodes: set<Dpid>, links: seq<Link>)
    requires Cabled(net, plant, nodes, links)
    ensures Sane(net) && Plugged(net, plant)
  {
    BuiltIsWellBuilt(nodes, links);
    var g := net.graph;
    forall a, b | a != b && Adjacent(g, a, b) && Adjacent(g, b, a)
      ensures Cable(plant, Attach(a, FirstPort(g[a], b).value), Attach(b, FirstPort(g[b], a).value))
    {
      assert SameLink(g, links, a, b);
      var i :| 0 <= i < |links| && Joins(links[i], a, FirstPort(g[a], b).value, b, FirstPort(g[b], a).value);
    }
  }

  function HopAt(h: Hop): Attach { Attach(h.dpid, h.inPort) }

  // The packet before hop i, or behind the last hop.
  function Expected(net: Network, hops: seq<Hop>, chain: seq<Name>, packet: Fields, i: nat, tags: seq<Vid>): Arrival
    requires i <= |hops| && chain != [] && chain[|chain| - 1] in net.mbs
  {
    Arrival(if i < |hops| then HopAt(hops[i]) else net.mbs[chain[|chain| - 1]], Packet(tags, packet))
  }

  // Untagged before the first hop, then with the chain's vlan id outermost until the last hop strips it.
  predicate TagsFit(c: Compiled, chain: seq<Name>, vid: Vid, i: nat, tags: seq<Vid>) {
    && (i == 0 ==> tags == [])
    && (0 < i && (i < |c.hops| || |chain| == 1) ==> Outermost(tags) == Some(vid))
  }

  // The tags at the end of the walk from hop i.
  function EndTags(plant: Plant, c: Compiled, i: nat, tags: seq<Vid>): seq<Vid>
    requires i <= |c.hops| == |c.rules|
    decreases |c.hops| - i
  {
    if i == |c.hops| || Hairpin(c.hops[LastFor(c.hops, i)]) then tags
    else
      var j := LastFor(c.hops, i);
      EndTags(plant, c, j + 1, AfterHop(plant, c.rules[j].flow, c.hops[j].visit, tags))
  }

  // Past the first hop the packet arrives from a cable or from a middlebox, never at a host's port.
  lemma LaterHopsNotAtHosts(net: Network, plant: Plant, c: Compiled, sender: Name, chain: seq<Name>, vid: Vid,
                            fields: Fields, i: nat, host: Name)
    requires Itinerary(net, plant, c, sender, chain, vid, fields) && 0 < i < |c.hops| && host in net.hosts
    ensures HopAt(c.hops[i]) != net.hosts[host]
  {
    assert Leads(net, c.hops[i - 1], c.hops[i]);
  }

  lemma RuleKeysAreHopKeys(net: Network, plant: Plant, c: Compiled, sender: Name, chain: seq<Name>, vid: Vid,
                           fields: Fields, i: nat, j: nat)
    requires Itinerary(net, plant, c, sender, chain, vid, fields) && i < |c.hops| && j < |c.hops|
    ensures c.rules[i].key == c.rules[j].key <==> SameKey(c.hops[i], c.hops[j])
  {
    assert c.rules[i] == RuleOf(c.hops, i, vid, fields, |chain| > 1);
    assert c.rules[j] == RuleOf(c.hops, j, vid, fields, |chain| > 1);
    if i == 0 && j > 0 {
      LaterHopsNotAtHosts(net, plant, c, sender, chain, vid, fields, j, sender);
    }
    if j == 0 && i > 0 {
      LaterHopsNotAtHosts(net, plant, c, sender, chain, vid, fields, i, sender);
    }
  }

  // The rule in force at hop i is that of the last hop with its key.
  lemma InForce(net: Network, plant: Plant, c: Compiled, sender: Name, chain: seq<Name>, vid: Vid, fields: Fields,
                flows: Flows, i: nat)
    requires Itinerary(net, plant, c, sender, chain, vid, fields) && i < |c.hops|
    ensures c.rules[i].key in InstallAll(flows, c.rules)
    ensures InstallAll(flows, c.rules)[c.rules[i].key] == c.rules[LastFor(c.hops, i)].flow
  {
    var j := LastFor(c.hops, i);
    RuleKeysAreHopKeys(net, plant, c, sender, chain, vid, fields, i, j);
    forall k | j < k < |c.rules| ensures c.rules[k].key != c.rules[j].key {
      RuleKeysAreHopKeys(net, plant, c, sender, chain, vid, fields, k, i);
    }
    LastInstalledWins(flows, c.rules, j);
  }

  lemma OwnRuleMatches(net: Network, plant: Plant, c: Compiled, sender: Name, chain: seq<Name>, vid: Vid,
                       fields: Fields, packet: Fields, i: nat, tags: seq<Vid>, j: nat)
    requires Itinerary(net, plant, c, sender, chain, vid, fields) && TagsFit(c, chain, vid, i, tags)
    requires (i == 0 ==> Fits(fields, packet)) && i < |c.hops| && j < |c.hops|
    ensures Matches(c.rules[j].key, Expected(net, c.hops, chain, packet, i, tags)) <==> c.rules[j].key == c.rules[i].key
  {
    hide Plugged;
    assert c.rules[i] == RuleOf(c.hops, i, vid, fields, |chain| > 1);
    assert c.rules[j] == RuleOf(c.hops, j, vid, fields, |chain| > 1);
    RuleKeysAreHopKeys(net, plant, c, sender, chain, vid, fields, i, j);
  }

  // The one rule that matches the packet before hop i is hop i's.
  lemma OnlyOwnRuleMatches(net: Network, plant: Plant, c: Compiled, sender: Name, chain: seq<Name>, vid: Vid,
                           fields: Fields, flows: Flows, packet: Fields, i: nat, tags: seq<Vid>, key: FlowKey)
    requires Itinerary(net, plant, c, sender, chain, vid, fields)
    requires LeftAlone(net, flows, sender, vid, fields, packet, i) && i < |c.hops| && TagsFit(c, chain, vid, i, tags)
    requires key in InstallAll(flows, c.rules)
    ensures Matches(key, Expected(net, c.hops, chain, packet, i, tags)) <==> key == c.rules[i].key
  {
    OwnRuleMatches(net, plant, c, sender, chain, vid, fields, packet, i, tags, i);
    InstalledKeys(flows, c.rules, key);
    if j :| 0 <= j < |c.rules| && c.rules[j].key == key {
      OwnRuleMatches(net, plant, c, sender, chain, vid, fields, packet, i, tags, j);
    } else {
      ForeignRuleMisses(net, plant, c, sender, chain, vid, fields, flows, packet, i, tags, key);
    }
  }

  lemma ForeignRuleMisses(net: Network, plant: Plant, c: Compiled, sender: Name, chain: seq<Name>, vid: Vid,
                          fields: Fields, flows: Flows, packet: Fields, i: nat, tags: seq<Vid>, key: FlowKey)
    requires Itinerary(net, plant, c, sender, chain, vid, fields)
    requires LeftAlone(net, flows, sender, vid, fields, packet, i)
    requires key in flows && i < |c.hops| && TagsFit(c, chain, vid, i, tags)
    ensures Matches(key, Expected(net, c.hops, chain, packet, i, tags)) ==> i == 0 && key == c.rules[0].key
  {
    if Matches(key, Expected(net, c.hops, chain, packet, i, tags)) {
      if key.match_.vlan.None? {
        var h :| h in net.hosts && net.hosts[h] == Attach(key.dpid, key.match_.inPort.value);
        if 0 < i {
          LaterHopsNotAtHosts(net, plant, c, sender, chain, vid, fields, i, h);
        }
        assert c.rules[0] == RuleOf(c.hops, 0, vid, fields, |chain| > 1);
      }
    }
  }

  // ---- behind the last middlebox

  // No rule at the last middlebox's port carries the vlan id that is outermost there.
  predicate EndMisses(net: Network, flows: Flows, last: Name, tags: seq<Vid>)
    requires last in net.mbs
  {
    forall key :: key in flows && key.match_.vlan.Some? && key.dpid == net.mbs[last].dpid
                  && (key.match_.inPort.Some? ==> key.match_.inPort.value == net.mbs[last].port)
                  && key.match_.fields == map[]
      ==> Outermost(tags) != key.match_.vlan
  }

  // Rules with a vlan id match nothing else.
  predicate TaggedArePlain(flows: Flows) {
    forall key :: key in flows && key.match_.vlan.Some? ==> key.match_.fields == map[]
  }

  /** Nothing matches the packet that the last middlebox sends back exactly when no rule there carries the vlan id that
      is outermost by then. */
  lemma EndMissesIff(net: Network, plant: Plant, c: Compiled, sender: Name, chain: seq<Name>, vid: Vid, fields: Fields,
                     flows: Flows, packet: Fields, tags: seq<Vid>)
    requires Itinerary(net, plant, c, sender, chain, vid, fields) && Stray(net, flows, vid) && TaggedArePlain(flows)
    ensures chain[|chain| - 1] in net.mbs
    ensures var table, end := InstallAll(flows, c.rules), Expected(net, c.hops, chain, packet, |c.hops|, tags);
            (forall key :: key in table ==> !Matches(key, end)) <==> EndMisses(net, table, chain[|chain| - 1], tags)
  {
    var table, end := InstallAll(flows, c.rules), Expected(net, c.hops, chain, packet, |c.hops|, tags);
    forall key | key in table
      ensures key.match_.vlan.None? ==> !Matches(key, end)
      ensures key.match_.vlan.Some? ==> key.match_.fields == map[]
    {
      InstalledKeys(flows, c.rules, key);
      if j :| 0 <= j < |c.rules| && c.rules[j].key == key {
        assert c.rules[j] == RuleOf(c.hops, j, vid, fields, |chain| > 1);
      }
    }
  }

  // A chain of one middlebox keeps its tag: no rule of its own waits behind it.
  lemma SingleMisses(net: Network, plant: Plant, c: Compiled, sender: Name, chain: seq<Name>, vid: Vid, fields: Fields,
                     flows: Flows, tags: seq<Vid>)
    requires Itinerary(net, plant, c, sender, chain, vid, fields) && Stray(net, flows, vid)
    requires |chain| == 1 && TagsFit(c, chain, vid, |c.hops|, tags)
    ensures chain[0] in net.mbs && EndMisses(net, InstallAll(flows, c.rules), chain[0], tags)
  {
    var table := InstallAll(flows, c.rules);
    forall key | key in table && key.dpid == net.mbs[chain[0]].dpid
                 && (key.match_.inPort.Some? ==> key.match_.inPort.value == net.mbs[chain[0]].port)
      ensures key.match_.vlan != Some(vid)
    {
      InstalledKeys(flows, c.rules, key);
      if j :| 0 <= j < |c.rules| && c.rules[j].key == key {
        assert c.rules[j] == RuleOf(c.hops, j, vid, fields, |chain| > 1);
        if j > 0 {
          NoHopBehindSingle(net, plant, c, sender, chain, vid, fields, j);
        }
      }
    }
  }

  lemma NoHopBehindSingle(net: Network, plant: Plant, c: Compiled, sender: Name, chain: seq<Name>, vid: Vid,
                          fields: Fields, j: nat)
    requires Itinerary(net, plant, c, sender, chain, vid, fields) && |chain| == 1 && 0 < j < |c.hops|
    ensures chain[0] in net.mbs && HopAt(c.hops[j]) != net.mbs[chain[0]]
  {
    SingleVisitOnlyAtEnd(c.hops, j - 1);
    assert Leads(net, c.hops[j - 1], c.hops[j]);
  }

  lemma RetagFacts(vid: Vid)
    ensures Retagged([], SetVid(vid)) == [vid] && Retagged([vid], Strip) == [] && Retagged([vid], Keep) == [vid]
  {
  }

  // What a plain hop makes of the chain's tag alone.
  lemma PlainHop(net: Network, plant: Plant, c: Compiled, sender: Name, chain: seq<Name>, vid: Vid, fields: Fields,
                 j: nat)
    requires Itinerary(net, plant, c, sender, chain, vid, fields) && AddsNoTags(plant, vid) && j < |c.hops|
    ensures AfterHop(plant, c.rules[j].flow, c.hops[j].visit, if j == 0 then [] else [vid])
         == if j == |c.hops| - 1 && |chain| > 1 then [] else [vid]
  {
    assert c.rules[j] == RuleOf(c.hops, j, vid, fields, |chain| > 1);
    RetagFacts(vid);
    hide Retagged;
    hide Plugged;
  }

  // A frame without tags of its own leaves the chain untagged.
  lemma {:induction false} PlainEnd(net: Network, plant: Plant, c: Compiled, sender: Name, chain: seq<Name>, vid: Vid,
                                    fields: Fields, i: nat, tags: seq<Vid>)
    requires Itinerary(net, plant, c, sender, chain, vid, fields) && AddsNoTags(plant, vid) && |chain| > 1
    requires i <= |c.hops|
    requires tags == if i == 0 || i == |c.hops| then [] else [vid]
    ensures RunsThrough(c.hops, i) ==> EndTags(plant, c, i, tags) == []
    decreases |c.hops| - i
  {
    WalkPart(net, plant, c, sender, chain, vid, fields, i, tags);
    if i < |c.hops| && !Hairpin(c.hops[LastFor(c.hops, i)]) {
      var j := LastFor(c.hops, i);
      if i == 0 && j > 0 {
        LaterHopsNotAtHosts(net, plant, c, sender, chain, vid, fields, j, sender);
        FirstHopAtHost(net, plant, c, sender, chain, vid, fields);
      }
      PlainHop(net, plant, c, sender, chain, vid, fields, j);
      PlainEnd(net, plant, c, sender, chain, vid, fields, j + 1,
               AfterHop(plant, c.rules[j].flow, c.hops[j].visit, tags));
    }
    hide Itinerary;
    hide AfterHop;
    hide EndTags;
    hide RunsThrough;
    hide AddsNoTags;
  }

  lemma FirstHopAtHost(net: Network, plant: Plant, c: Compiled, sender: Name, chain: seq<Name>, vid: Vid,
                       fields: Fields)
    requires Itinerary(net, plant, c, sender, chain, vid, fields)
    ensures c.hops != [] && sender in net.hosts && HopAt(c.hops[0]) == net.hosts[sender]
  {
    hide Plugged;
  }

  lemma {:induction false} SingleVisitOnlyAtEnd(hops: seq<Hop>, i: nat)
    requires Segmented(hops) && |AllVisits(hops, 0)| == 1 && i < |hops| - 1
    ensures hops[i].visit.None?
  {
    SkippedVisits(hops, 0, i);
    SkippedVisits(hops, i + 1, |hops|);
    assert hops[|hops| - 1].visit.Some?;
  }

  // ---------------------------------------------------------------- the journey follows the hops

  lemma MoveFrom(net: Network, plant: Plant, c: Compiled, sender: Name, chain: seq<Name>, vid: Vid, fields: Fields,
                 flows: Flows, packet: Fields, i: nat, tags: seq<Vid>)
    requires Itinerary(net, plant, c, sender, chain, vid, fields)
    requires LeftAlone(net, flows, sender, vid, fields, packet, i) && i < |c.hops| && TagsFit(c, chain, vid, i, tags)
    ensures Next(plant, InstallAll(flows, c.rules), Expected(net, c.hops, chain, packet, i, tags))
         == var j := LastFor(c.hops, i);
            if Hairpin(c.hops[j]) then None
            else
              var tags' := AfterHop(plant, c.rules[j].flow, c.hops[j].visit, tags);
              Some(Moved(Expected(net, c.hops, chain, packet, j + 1, tags'), c.hops[j].visit))
  {
    var table, a, j := InstallAll(flows, c.rules), Expected(net, c.hops, chain, packet, i, tags), LastFor(c.hops, i);
    InForce(net, plant, c, sender, chain, vid, fields, flows, i);
    forall key | key in table ensures Matches(key, a) <==> key == c.rules[i].key {
      OnlyOwnRuleMatches(net, plant, c, sender, chain, vid, fields, flows, packet, i, tags, key);
    }
    OnlyOneNext(plant, table, a, c.rules[i].key);
    EmitFrom(net, plant, c, sender, chain, vid, fields, packet, i, tags, j);
  }

  lemma OnlyOneNext(plant: Plant, table: Flows, a: Arrival, key: FlowKey)
    requires key in table && forall k :: k in table ==> (Matches(k, a) <==> k == key)
    ensures Next(plant, table, a) == Emit(plant, a, table[key])
  {
  }

  lemma EmitFrom(net: Network, plant: Plant, c: Compiled, sender: Name, chain: seq<Name>, vid: Vid, fields: Fields,
                 packet: Fields, i: nat, tags: seq<Vid>, j: nat)
    requires Itinerary(net, plant, c, sender, chain, vid, fields) && i <= j < |c.hops| && SameKey(c.hops[j], c.hops[i])
    ensures Emit(plant, Expected(net, c.hops, chain, packet, i, tags), c.rules[j].flow)
         == if Hairpin(c.hops[j]) then None
            else
              var tags' := AfterHop(plant, c.rules[j].flow, c.hops[j].visit, tags);
              Some(Moved(Expected(net, c.hops, chain, packet, j + 1, tags'), c.hops[j].visit))
  {
    OutputOf(net, plant, c, sender, chain, vid, fields, j);
    hide Itinerary;
    hide AfterHop;
    hide VisitAt;
  }

  // Hop j's output is where hop j + 1 expects its packet, or the last middlebox.
  lemma OutputOf(net: Network, plant: Plant, c: Compiled, sender: Name, chain: seq<Name>, vid: Vid, fields: Fields,
                 j: nat)
    requires Itinerary(net, plant, c, sender, chain, vid, fields) && j < |c.hops|
    ensures chain[|chain| - 1] in net.mbs && c.rules[j].flow.outPort == c.hops[j].outPort
    ensures var out := Attach(c.hops[j].dpid, c.hops[j].outPort);
            var next := if j + 1 < |c.hops| then HopAt(c.hops[j + 1]) else net.mbs[chain[|chain| - 1]];
            && VisitAt(plant, out) == c.hops[j].visit
            && if c.hops[j].visit.Some? then out == next else out in plant.wires && plant.wires[out] == next
  {
    assert c.rules[j] == RuleOf(c.hops, j, vid, fields, |chain| > 1);
    if j < |c.hops| - 1 {
      assert Leads(net, c.hops[j], c.hops[j + 1]);
    }
  }

  // The tags fit again behind the hop that was taken.
  lemma FitsOn(net: Network, plant: Plant, c: Compiled, sender: Name, chain: seq<Name>, vid: Vid, fields: Fields,
               i: nat, tags: seq<Vid>)
    requires Itinerary(net, plant, c, sender, chain, vid, fields) && Transparent(plant, vid)
    requires i < |c.hops| && TagsFit(c, chain, vid, i, tags)
    ensures var j := LastFor(c.hops, i);
            TagsFit(c, chain, vid, j + 1, AfterHop(plant, c.rules[j].flow, c.hops[j].visit, tags))
  {
    var j := LastFor(c.hops, i);
    assert c.rules[j] == RuleOf(c.hops, j, vid, fields, |chain| > 1);
    if i == 0 && j > 0 {
      LaterHopsNotAtHosts(net, plant, c, sender, chain, vid, fields, j, sender);
    }
    if c.hops[j].visit.Some? {
      assert KeepsTag(plant, c.hops[j].visit.value, vid, Retagged(tags, c.rules[j].flow.vlan));
    }
  }

  lemma WalkPart(net: Network, plant: Plant, c: Compiled, sender: Name, chain: seq<Name>, vid: Vid, fields: Fields,
                 i: nat, tags: seq<Vid>)
    requires Itinerary(net, plant, c, sender, chain, vid, fields) && i <= |c.hops|
    ensures chain != [] && chain[|chain| - 1] in net.mbs && sender in net.hosts && |c.rules| == |c.hops|
    ensures i == |c.hops| ==>
              && Visits(c.hops, i) == [] && RunsThrough(c.hops, i) && WalkLength(c.hops, i) == 0
              && EndTags(plant, c, i, tags) == tags
    ensures i < |c.hops| ==>
              var j := LastFor(c.hops, i);
              && Visits(c.hops, i) == (if Hairpin(c.hops[j]) then [] else VisitOf(c.hops[j]) + Visits(c.hops, j + 1))
              && RunsThrough(c.hops, i) == (!Hairpin(c.hops[j]) && RunsThrough(c.hops, j + 1))
              && WalkLength(c.hops, i) == 1 + WalkLength(c.hops, j + 1)
              && (!Hairpin(c.hops[j]) ==>
                    var tags' := AfterHop(plant, c.rules[j].flow, c.hops[j].visit, tags);
                    EndTags(plant, c, i, tags) == EndTags(plant, c, j + 1, tags'))
  {
  }

  // What a packet meets that stands where hop i expects it, once it has come to the end of the walk.
  ghost function Beyond(net: Network, plant: Plant, table: Flows, c: Compiled, chain: seq<Name>, packet: Fields, i: nat,
                        tags: seq<Vid>, steps: nat): seq<Name>
    requires i <= |c.hops| == |c.rules| && chain != [] && chain[|chain| - 1] in net.mbs
    requires steps >= |c.hops| - i
  {
    if RunsThrough(c.hops, i) then
      Travel(plant, table, Expected(net, c.hops, chain, packet, |c.hops|, EndTags(plant, c, i, tags)),
             steps - WalkLength(c.hops, i)).visited
    else []
  }

  lemma BeyondOn(net: Network, plant: Plant, table: Flows, c: Compiled, sender: Name, chain: seq<Name>, vid: Vid,
                 fields: Fields, packet: Fields, i: nat, tags: seq<Vid>, steps: nat)
    requires Itinerary(net, plant, c, sender, chain, vid, fields) && i < |c.hops| && steps >= |c.hops| - i
    ensures chain != [] && chain[|chain| - 1] in net.mbs && |c.rules| == |c.hops|
    ensures var j := LastFor(c.hops, i);
            Beyond(net, plant, table, c, chain, packet, i, tags, steps)
            == if Hairpin(c.hops[j]) then []
               else
                 var tags' := AfterHop(plant, c.rules[j].flow, c.hops[j].visit, tags);
                 Beyond(net, plant, table, c, chain, packet, j + 1, tags', steps - 1)
  {
    hide *;
    WalkPart(net, plant, c, sender, chain, vid, fields, i, tags);
    BeyondIs(net, plant, table, c, chain, packet, i, tags, steps);
    var j := LastFor(c.hops, i);
    if !Hairpin(c.hops[j]) {
      var tags' := AfterHop(plant, c.rules[j].flow, c.hops[j].visit, tags);
      BeyondIs(net, plant, table, c, chain, packet, j + 1, tags', steps - 1);
    }
  }

  lemma BeyondIs(net: Network, plant: Plant, table: Flows, c: Compiled, chain: seq<Name>, packet: Fields, i: nat,
                 tags: seq<Vid>, steps: nat)
    requires i <= |c.hops| == |c.rules| && chain != [] && chain[|chain| - 1] in net.mbs && steps >= |c.hops| - i
    ensures var end := Expected(net, c.hops, chain, packet, |c.hops|, EndTags(plant, c, i, tags));
            Beyond(net, plant, table, c, chain, packet, i, tags, steps)
            == if RunsThrough(c.hops, i) then Travel(plant, table, end, steps - WalkLength(c.hops, i)).visited else []
  {
    hide Travel;
    hide RunsThrough;
    hide WalkLength;
    hide EndTags;
  }

  lemma LeftAloneOn(net: Network, flows: Flows, sender: Name, vid: Vid, fields: Fields, packet: Fields, i: nat, j: nat)
    requires LeftAlone(net, flows, sender, vid, fields, packet, i) && (j == 0 ==> i == 0)
    ensures LeftAlone(net, flows, sender, vid, fields, packet, j)
  {
  }

  /** A packet that stands where hop i expects it makes the walk's visits, and then those of a packet with the tags it
      has by then at the last middlebox's port. */
  lemma {:induction false} TravelGoesOn(net: Network, plant: Plant, c: Compiled, sender: Name, chain: seq<Name>,
                                        vid: Vid, fields: Fields, flows: Flows, packet: Fields, i: nat,
                                        tags: seq<Vid>, steps: nat)
    requires Itinerary(net, plant, c, sender, chain, vid, fields) && Transparent(plant, vid)
    requires LeftAlone(net, flows, sender, vid, fields, packet, i)
    requires i <= |c.hops| && TagsFit(c, chain, vid, i, tags) && steps >= |c.hops| - i
    ensures chain != [] && chain[|chain| - 1] in net.mbs && |c.rules| == |c.hops|
    ensures var table := InstallAll(flows, c.rules);
            Travel(plant, table, Expected(net, c.hops, chain, packet, i, tags), steps).visited
            == Visits(c.hops, i) + Beyond(net, plant, table, c, chain, packet, i, tags, steps)
    decreases steps
  {
    hide *;
    WalkPart(net, plant, c, sender, chain, vid, fields, i, tags);
    var table, a := InstallAll(flows, c.rules), Expected(net, c.hops, chain, packet, i, tags);
    if i == |c.hops| {
      BeyondIs(net, plant, table, c, chain, packet, i, tags, steps);
    } else {
      var j := LastFor(c.hops, i);
      BeyondOn(net, plant, table, c, sender, chain, vid, fields, packet, i, tags, steps);
      MoveFrom(net, plant, c, sender, chain, vid, fields, flows, packet, i, tags);
      if Hairpin(c.hops[j]) {
        TravelStops(plant, table, a, steps);
      } else {
        var tags' := AfterHop(plant, c.rules[j].flow, c.hops[j].visit, tags);
        FitsOn(net, plant, c, sender, chain, vid, fields, i, tags);
        LeftAloneOn(net, flows, sender, vid, fields, packet, i, j + 1);
        TravelGoesOn(net, plant, c, sender, chain, vid, fields, flows, packet, j + 1, tags', steps - 1);
        TravelMoves(plant, table, a, steps, Expected(net, c.hops, chain, packet, j + 1, tags'), c.hops[j]);
      }
    }
  }

  lemma TravelStops(plant: Plant, flows: Flows, a: Arrival, steps: nat)
    requires Next(plant, flows, a).None?
    ensures Travel(plant, flows, a, steps).visited == []
  {
  }

  lemma TravelMoves(plant: Plant, flows: Flows, a: Arrival, steps: nat, b: Arrival, hop: Hop)
    requires steps > 0 && Next(plant, flows, a) == Some(Moved(b, hop.visit))
    ensures Travel(plant, flows, a, steps).visited == VisitOf(hop) + Travel(plant, flows, b, steps - 1).visited
  {
  }

  // ---------------------------------------------------------------- the chain is implemented

  // Rules that clash send the packet past middleboxes, and what it meets behind the last one makes up for them. This
  // takes a chain that names its last middlebox before.
  predicate MadeGood(hops: seq<Hop>, chain: seq<Name>, beyond: seq<Name>) {
    exists k :: && 0 < k < |chain| && chain[k - 1] == chain[|chain| - 1]
                && Visits(hops, 0) == chain[..k] && beyond == chain[k..]
  }

  predicate EndsOnce(chain: seq<Name>) { forall i :: 0 <= i < |chain| - 1 ==> chain[i] != chain[|chain| - 1] }

  predicate Clean(hops: seq<Hop>) { DistinctKeys(hops) && NoHairpin(hops) }

  lemma GoodVisitsIff(hops: seq<Hop>, chain: seq<Name>, beyond: seq<Name>)
    requires Segmented(hops) && AllVisits(hops, 0) == chain && (beyond != [] ==> RunsThrough(hops, 0))
    ensures Visits(hops, 0) + beyond == chain <==> (Clean(hops) && beyond == []) || MadeGood(hops, chain, beyond)
    ensures EndsOnce(chain) ==> !MadeGood(hops, chain, beyond)
  {
    hide *;
    LastVisits(hops);
    WalkVisitsAllIff(hops);
    CleanIs(hops);
    AllVisitsEnd(hops, 0);
    var visits := Visits(hops, 0);
    if beyond != [] {
      RunEndsWithLast(hops, 0);
      MadeGoodIff(hops, chain, beyond);
    } else {
      NothingMadeGood(hops, chain);
    }
    assert beyond == [] ==> visits + beyond == visits;
  }

  lemma LastVisits(hops: seq<Hop>)
    requires Segmented(hops)
    ensures hops != [] && hops[|hops| - 1].visit.Some?
  {
  }

  lemma CleanIs(hops: seq<Hop>)
    ensures Clean(hops) <==> DistinctKeys(hops) && NoHairpin(hops)
  {
  }

  lemma MadeGoodIff(hops: seq<Hop>, chain: seq<Name>, beyond: seq<Name>)
    requires beyond != [] && Visits(hops, 0) != [] && chain != []
    requires Visits(hops, 0)[|Visits(hops, 0)| - 1] == chain[|chain| - 1]
    ensures MadeGood(hops, chain, beyond) <==> Visits(hops, 0) + beyond == chain
    ensures EndsOnce(chain) ==> !MadeGood(hops, chain, beyond)
  {
    hide Visits;
    var visits := Visits(hops, 0);
    if visits + beyond == chain {
      var k := |visits|;
      assert visits == chain[..k] && beyond == chain[k..] && chain[k - 1] == visits[k - 1];
    }
    if k :| 0 < k < |chain| && chain[k - 1] == chain[|chain| - 1] && visits == chain[..k] && beyond == chain[k..] {
      assert chain == chain[..k] + chain[k..];
    }
  }

  lemma NothingMadeGood(hops: seq<Hop>, chain: seq<Name>)
    ensures !MadeGood(hops, chain, [])
  {
  }

  /** A matching packet from the sender meets the middleboxes in chain order, each once, exactly when no two rules of
      the chain share switch and ingress port, none returns a packet to its ingress port, and nothing is met behind the
      last middlebox; or when what is met there makes up for what a clash left out, for which the chain has to name its
      last middlebox twice. The switch graph is any graph built from the controller's links, and middleboxes may put
      tags below the chain's. */
  lemma ChainImplementedIff(net: Network, plant: Plant, nodes: set<Dpid>, links: seq<Link>, sender: Name,
                            chain: seq<Name>, vid: Vid, fields: Fields, flows: Flows, packet: Fields, steps: nat)
    requires Cabled(net, plant, nodes, links) && Sane(net) && chain != [] && sender in net.hosts
    requires Compile(net, sender, chain, vid, fields).ok && Transparent(plant, vid)
    requires Foreign(net, flows, sender, vid, fields, packet) && Fits(fields, packet)
    requires steps >= |Compile(net, sender, chain, vid, fields).hops|
    ensures var c := Compile(net, sender, chain, vid, fields);
            && |c.hops| == |c.rules| && chain[|chain| - 1] in net.mbs
            && var table := InstallAll(flows, c.rules);
               var beyond := Beyond(net, plant, table, c, chain, packet, 0, [], steps);
               && (Travel(plant, table, Arrival(net.hosts[sender], Packet([], packet)), steps).visited == chain
                   <==> (Clean(c.hops) && beyond == []) || MadeGood(c.hops, chain, beyond))
               && (EndsOnce(chain) ==> !MadeGood(c.hops, chain, beyond))
  {
    var c := Compile(net, sender, chain, vid, fields);
    CabledIsPlugged(net, plant, nodes, links);
    CompiledChain(net, sender, chain, vid, fields);
    hide Compile;
    hide Cabled;
    WalkPart(net, plant, c, sender, chain, vid, fields, 0, []);
    TravelGoesOn(net, plant, c, sender, chain, vid, fields, flows, packet, 0, [], steps);
    var beyond := Beyond(net, plant, InstallAll(flows, c.rules), c, chain, packet, 0, [], steps);
    assert beyond != [] ==> RunsThrough(c.hops, 0);
    GoodVisitsIff(c.hops, chain, beyond);
    FirstHopAtHost(net, plant, c, sender, chain, vid, fields);
    hide Travel;
    hide Foreign;
    hide Beyond;
    hide Itinerary;
    hide MadeGood;
  }

  // ---- when nothing is met behind the last middlebox

  lemma {:induction false} EndTagsFit(net: Network, plant: Plant, c: Compiled, sender: Name, chain: seq<Name>, vid: Vid,
                                      fields: Fields, i: nat, tags: seq<Vid>)
    requires Itinerary(net, plant, c, sender, chain, vid, fields) && Transparent(plant, vid)
    requires i <= |c.hops| && TagsFit(c, chain, vid, i, tags) && RunsThrough(c.hops, i)
    ensures |c.hops| == |c.rules| && TagsFit(c, chain, vid, |c.hops|, EndTags(plant, c, i, tags))
    decreases |c.hops| - i
  {
    WalkPart(net, plant, c, sender, chain, vid, fields, i, tags);
    if i < |c.hops| {
      var j := LastFor(c.hops, i);
      FitsOn(net, plant, c, sender, chain, vid, fields, i, tags);
      EndTagsFit(net, plant, c, sender, chain, vid, fields, j + 1,
                 AfterHop(plant, c.rules[j].flow, c.hops[j].visit, tags));
    }
    hide *;
  }

  /** A packet whose outermost tag no rule at the last middlebox's port carries goes no further. */
  lemma NothingBeyond(net: Network, plant: Plant, c: Compiled, sender: Name, chain: seq<Name>, vid: Vid,
                      fields: Fields, flows: Flows, packet: Fields, i: nat, tags: seq<Vid>, steps: nat)
    requires Itinerary(net, plant, c, sender, chain, vid, fields) && Stray(net, flows, vid) && TaggedArePlain(flows)
    requires i <= |c.hops| == |c.rules| && chain[|chain| - 1] in net.mbs && steps >= |c.hops| - i
    requires EndMisses(net, InstallAll(flows, c.rules), chain[|chain| - 1], EndTags(plant, c, i, tags))
    ensures Beyond(net, plant, InstallAll(flows, c.rules), c, chain, packet, i, tags, steps) == []
  {
    var table, endTags := InstallAll(flows, c.rules), EndTags(plant, c, i, tags);
    var end := Expected(net, c.hops, chain, packet, |c.hops|, endTags);
    EndMissesIff(net, plant, c, sender, chain, vid, fields, flows, packet, endTags);
    assert Next(plant, table, end).None?;
    TravelStops(plant, table, end, steps - WalkLength(c.hops, i));
    hide Next;
    hide Travel;
    hide Itinerary;
  }

  /** Where no middlebox puts tags of its own on frames nothing waits behind the last one: the packet is untagged there,
      or, for a chain of one middlebox, still has the chain's tag. */
  lemma PlainEndMisses(net: Network, plant: Plant, c: Compiled, sender: Name, chain: seq<Name>, vid: Vid,
                       fields: Fields, flows: Flows)
    requires Itinerary(net, plant, c, sender, chain, vid, fields) && AddsNoTags(plant, vid) && Transparent(plant, vid)
    requires Stray(net, flows, vid) && RunsThrough(c.hops, 0)
    ensures |c.hops| == |c.rules| && chain[|chain| - 1] in net.mbs
    ensures EndMisses(net, InstallAll(flows, c.rules), chain[|chain| - 1], EndTags(plant, c, 0, []))
  {
    WalkPart(net, plant, c, sender, chain, vid, fields, 0, []);
    if |chain| > 1 {
      PlainEnd(net, plant, c, sender, chain, vid, fields, 0, []);
    } else {
      SingleEndMisses(net, plant, c, sender, chain, vid, fields, flows);
    }
    hide Itinerary;
    hide EndTags;
  }

  lemma SingleEndMisses(net: Network, plant: Plant, c: Compiled, sender: Name, chain: seq<Name>, vid: Vid,
                        fields: Fields, flows: Flows)
    requires Itinerary(net, plant, c, sender, chain, vid, fields) && Transparent(plant, vid) && |chain| == 1
    requires Stray(net, flows, vid) && RunsThrough(c.hops, 0)
    ensures |c.hops| == |c.rules| && chain[0] in net.mbs
    ensures EndMisses(net, InstallAll(flows, c.rules), chain[0], EndTags(plant, c, 0, []))
  {
    WalkPart(net, plant, c, sender, chain, vid, fields, 0, []);
    EndTagsFit(net, plant, c, sender, chain, vid, fields, 0, []);
    SingleMisses(net, plant, c, sender, chain, vid, fields, flows, EndTags(plant, c, 0, []));
  }

  // The tags after the first k hops, when each hop's own rule acts.
  function TagsAfter(plant: Plant, c: Compiled, k: nat): seq<Vid>
    requires k <= |c.hops| == |c.rules|
  {
    if k == 0 then [] else AfterHop(plant, c.rules[k - 1].flow, c.hops[k - 1].visit, TagsAfter(plant, c, k - 1))
  }

  /** On a clean chain the packet, after k hops, stands where hop k expects it, with the chain's vlan id outermost on
      every hop past the first; behind the last middlebox of two or more a frame without tags of its own is untagged. */
  lemma {:induction false} CleanJourney(net: Network, plant: Plant, c: Compiled, sender: Name, chain: seq<Name>,
                                        vid: Vid, fields: Fields, flows: Flows, packet: Fields, k: nat)
    requires Itinerary(net, plant, c, sender, chain, vid, fields)
    requires LeftAlone(net, flows, sender, vid, fields, packet, 0)
    requires Transparent(plant, vid) && DistinctKeys(c.hops) && NoHairpin(c.hops) && k <= |c.hops|
    ensures chain[|chain| - 1] in net.mbs
    ensures Travel(plant, InstallAll(flows, c.rules), Expected(net, c.hops, chain, packet, 0, []), k).last
         == Expected(net, c.hops, chain, packet, k, TagsAfter(plant, c, k))
    ensures TagsFit(c, chain, vid, k, TagsAfter(plant, c, k))
    ensures AddsNoTags(plant, vid) ==>
              TagsAfter(plant, c, k) == if k == 0 || (k == |c.hops| && |chain| > 1) then [] else [vid]
  {
    hide *;
    FirstHopAtHost(net, plant, c, sender, chain, vid, fields);
    WalkPart(net, plant, c, sender, chain, vid, fields, 0, []);
    if k == 0 {
      NoHopsYet(net, plant, c, chain, vid, InstallAll(flows, c.rules), packet);
    } else {
      CleanJourney(net, plant, c, sender, chain, vid, fields, flows, packet, k - 1);
      CleanTags(net, plant, c, sender, chain, vid, fields, k);
      LeftAloneOn(net, flows, sender, vid, fields, packet, 0, k - 1);
      CleanStep(net, plant, c, sender, chain, vid, fields, flows, packet, k - 1);
      TravelOneMore(plant, InstallAll(flows, c.rules), Expected(net, c.hops, chain, packet, 0, []), k - 1);
    }
  }

  lemma NoHopsYet(net: Network, plant: Plant, c: Compiled, chain: seq<Name>, vid: Vid, table: Flows, packet: Fields)
    requires |c.hops| == |c.rules| > 0 && chain != [] && chain[|chain| - 1] in net.mbs
    ensures Travel(plant, table, Expected(net, c.hops, chain, packet, 0, []), 0).last
         == Expected(net, c.hops, chain, packet, 0, [])
    ensures TagsAfter(plant, c, 0) == [] && TagsFit(c, chain, vid, 0, [])
  {
  }

  lemma CleanStep(net: Network, plant: Plant, c: Compiled, sender: Name, chain: seq<Name>, vid: Vid, fields: Fields,
                  flows: Flows, packet: Fields, i: nat)
    requires Itinerary(net, plant, c, sender, chain, vid, fields)
    requires LeftAlone(net, flows, sender, vid, fields, packet, i)
    requires Transparent(plant, vid) && DistinctKeys(c.hops) && NoHairpin(c.hops) && i < |c.hops|
    requires TagsFit(c, chain, vid, i, TagsAfter(plant, c, i))
    ensures Next(plant, InstallAll(flows, c.rules), Expected(net, c.hops, chain, packet, i, TagsAfter(plant, c, i)))
         == Some(Moved(Expected(net, c.hops, chain, packet, i + 1, TagsAfter(plant, c, i + 1)), c.hops[i].visit))
    ensures TagsFit(c, chain, vid, i + 1, TagsAfter(plant, c, i + 1))
  {
    LastIsSelf(c.hops, i);
    MoveFrom(net, plant, c, sender, chain, vid, fields, flows, packet, i, TagsAfter(plant, c, i));
    FitsOn(net, plant, c, sender, chain, vid, fields, i, TagsAfter(plant, c, i));
    hide Next;
    hide Foreign;
    hide LastFor;
    hide InstallAll;
  }

  lemma CleanTags(net: Network, plant: Plant, c: Compiled, sender: Name, chain: seq<Name>, vid: Vid, fields: Fields,
                  k: nat)
    requires Itinerary(net, plant, c, sender, chain, vid, fields) && 0 < k <= |c.hops|
    ensures AddsNoTags(plant, vid) && TagsAfter(plant, c, k - 1) == (if k == 1 then [] else [vid]) ==>
              TagsAfter(plant, c, k) == if k == |c.hops| && |chain| > 1 then [] else [vid]
  {
    if AddsNoTags(plant, vid) {
      PlainHop(net, plant, c, sender, chain, vid, fields, k - 1);
    }
    hide AfterHop;
    hide Itinerary;
    hide AddsNoTags;
  }

  // One more step at the end of a journey.
  lemma {:induction false} TravelOneMore(plant: Plant, flows: Flows, a: Arrival, k: nat)
    ensures var last := Travel(plant, flows, a, k).last;
            Travel(plant, flows, a, k + 1).last
            == if Next(plant, flows, last).None? then last else Next(plant, flows, last).value.arrival
    decreases k
  {
    hide Next;
    if Next(plant, flows, a).Some? {
      if k > 0 {
        TravelOneMore(plant, flows, Next(plant, flows, a).value.arrival, k - 1);
      }
    }
  }

  /** A chain that comes back to a middlebox and goes on from there twice always has two rules that share switch and
      ingress port, so it is never implemented. */
  lemma RepeatedMiddleboxClashes(net: Network, c: Compiled, sender: Name, chain: seq<Name>, vid: Vid, fields: Fields,
                                 i: nat, j: nat)
    requires ChainCompiled(net, c, sender, chain, vid, fields)
    requires i < j < |chain| - 1 && chain[i] == chain[j]
    ensures !DistinctKeys(c.hops)
  {
    var e := VisitPosition(c.hops, 0, i);
    var f := VisitPosition(c.hops, 0, j);
    AllVisitsCases(c.hops, |c.hops|);
    assert AllVisits(c.hops, e + 1) == chain[i + 1..] && AllVisits(c.hops, f + 1) == chain[j + 1..];
    hide AllVisits;
    hide Segmented;
    hide Route;
    RouteLeads(net, c, sender, chain, vid, fields, e);
    RouteLeads(net, c, sender, chain, vid, fields, f);
    assert SameKey(c.hops[e + 1], c.hops[f + 1]);
    assert e != f;
  }

  // Behind a visit the packet comes in by the middlebox's port.
  lemma RouteLeads(net: Network, c: Compiled, sender: Name, chain: seq<Name>, vid: Vid, fields: Fields, e: nat)
    requires ChainCompiled(net, c, sender, chain, vid, fields) && e + 1 < |c.hops| && c.hops[e].visit.Some?
    ensures c.hops[e].visit.value in net.mbs && net.mbs[c.hops[e].visit.value] == HopAt(c.hops[e + 1])
  {
    assert Leads(net, c.hops[e], c.hops[e + 1]);
  }

  // ---- where a chain leaves a middlebox

  // A middlebox from which the chain's packets go on.
  predicate Leaves(chain: seq<Name>, mb: Name) { exists k :: 0 <= k < |chain| - 1 && chain[k] == mb }

  // The hop behind the n-th middlebox starts at its port, and the rest of the chain is visited from there.
  lemma HopBehind(net: Network, c: Compiled, sender: Name, chain: seq<Name>, vid: Vid, fields: Fields, n: nat)
    returns (i: nat)
    requires ChainCompiled(net, c, sender, chain, vid, fields) && n < |chain| - 1
    ensures 0 < i < |c.hops| && chain[n] in net.mbs && HopAt(c.hops[i]) == net.mbs[chain[n]]
    ensures AllVisits(c.hops, i) == chain[n + 1..]
  {
    hide AllVisits;
    var e := VisitPosition(c.hops, 0, n);
    AllVisitsCases(c.hops, |c.hops|);
    RouteLeads(net, c, sender, chain, vid, fields, e);
    i := e + 1;
  }

  lemma MiddleboxBefore(net: Network, plant: Plant, c: Compiled, sender: Name, chain: seq<Name>, vid: Vid,
                        fields: Fields, i: nat, mb: Name)
    requires Itinerary(net, plant, c, sender, chain, vid, fields) && 0 < i < |c.hops| && mb in net.mbs
    requires HopAt(c.hops[i]) == net.mbs[mb]
    ensures c.hops[i - 1].visit == Some(mb)
  {
    assert Leads(net, c.hops[i - 1], c.hops[i]);
  }

  /** Some hop of the chain past the first starts at a middlebox's port exactly when the chain leaves that middlebox. */
  lemma LeavesIff(net: Network, plant: Plant, c: Compiled, sender: Name, chain: seq<Name>, vid: Vid, fields: Fields,
                  mb: Name)
    requires Itinerary(net, plant, c, sender, chain, vid, fields) && mb in net.mbs
    ensures (exists i :: 0 < i < |c.hops| && HopAt(c.hops[i]) == net.mbs[mb]) <==> Leaves(chain, mb)
  {
    if k :| 0 <= k < |chain| - 1 && chain[k] == mb {
      var i := HopBehind(net, c, sender, chain, vid, fields, k);
    }
    if i :| 0 < i < |c.hops| && HopAt(c.hops[i]) == net.mbs[mb] {
      MiddleboxBefore(net, plant, c, sender, chain, vid, fields, i, mb);
      VisitedIsLeft(c.hops, chain, i, mb);
    }
  }

  lemma VisitedIsLeft(hops: seq<Hop>, chain: seq<Name>, i: nat, mb: Name)
    requires Segmented(hops) && AllVisits(hops, 0) == chain && 0 < i < |hops| && hops[i - 1].visit == Some(mb)
    ensures Leaves(chain, mb)
  {
    hide AllVisits;
    var n := VisitsAreSuffix(hops, i - 1);
    AllVisitsCases(hops, i - 1);
    AllVisitsEnd(hops, i);
    hide Segmented;
    assert chain[n..][0] == chain[n] && |chain[n..]| >= 2;
  }

  // ---- when a hop would send a packet back

  lemma RepeatMakesHairpin(net: Network, c: Compiled, sender: Name, chain: seq<Name>, vid: Vid, fields: Fields, i: nat)
    requires ChainCompiled(net, c, sender, chain, vid, fields) && i + 1 < |chain| && chain[i] == chain[i + 1]
    ensures !NoHairpin(c.hops)
  {
    hide AllVisits;
    hide Segmented;
    var e := VisitPosition(c.hops, 0, i);
    assert chain[i + 1..][0] == chain[i + 1];
    var f := VisitPosition(c.hops, e + 1, 0);
    RouteLeads(net, c, sender, chain, vid, fields, e);
    LastOrLeads(net, c, sender, chain, vid, fields, f);
    NextVisitOnSwitch(c.hops, e + 1, f);
    assert Hairpin(c.hops[f]);
  }

  // The first visit from a hop on, if it is made on the same switch, is made by that hop.
  lemma NextVisitOnSwitch(hops: seq<Hop>, i: nat, f: nat)
    requires Segmented(hops) && i <= f < |hops| && hops[i].dpid == hops[f].dpid
    requires AllVisits(hops, f) == AllVisits(hops, i)[0..]
    ensures f == i
  {
    hide AllVisits;
    SkippedVisits(hops, i, f);
    assert AllVisits(hops, i)[0..] == AllVisits(hops, i);
  }

  // A hop that visits a middlebox has it at its output.
  lemma LastOrLeads(net: Network, c: Compiled, sender: Name, chain: seq<Name>, vid: Vid, fields: Fields, f: nat)
    requires ChainCompiled(net, c, sender, chain, vid, fields) && f < |c.hops| && c.hops[f].visit.Some?
    ensures c.hops[f].visit.value in net.mbs
    ensures net.mbs[c.hops[f].visit.value] == Attach(c.hops[f].dpid, c.hops[f].outPort)
  {
    if f < |c.hops| - 1 {
      assert Leads(net, c.hops[f], c.hops[f + 1]);
    }
  }

  // Inside a segment the next switch is not the previous one.
  lemma NoTurnInside(net: Network, plant: Plant, c: Compiled, sender: Name, chain: seq<Name>, vid: Vid, fields: Fields,
                     k: nat)
    requires Itinerary(net, plant, c, sender, chain, vid, fields) && 0 < k && k + 1 < |c.hops|
    requires c.hops[k - 1].visit.None? && c.hops[k].visit.None?
    ensures !Hairpin(c.hops[k])
  {
    assert Leads(net, c.hops[k - 1], c.hops[k]) && Leads(net, c.hops[k], c.hops[k + 1]);
    assert forall e :: k - 1 <= e < k + 1 ==> c.hops[e].visit.None?;
    assert c.hops[k - 1].dpid != c.hops[k + 1].dpid;
  }

  lemma HairpinIsVisit(net: Network, plant: Plant, c: Compiled, sender: Name, chain: seq<Name>, vid: Vid,
                       fields: Fields, k: nat)
    requires Itinerary(net, plant, c, sender, chain, vid, fields) && k < |c.hops| && Hairpin(c.hops[k])
    ensures k > 0 && c.hops[k].visit.Some? && c.hops[k - 1].visit == c.hops[k].visit
  {
    OutputOf(net, plant, c, sender, chain, vid, fields, k);
    FirstHopAtHost(net, plant, c, sender, chain, vid, fields);
    if k > 0 {
      OutputOf(net, plant, c, sender, chain, vid, fields, k - 1);
      if k + 1 < |c.hops| && c.hops[k - 1].visit.None? && c.hops[k].visit.None? {
        NoTurnInside(net, plant, c, sender, chain, vid, fields, k);
      }
    }
  }

  predicate NoRepeat(chain: seq<Name>) { forall i :: 0 <= i < |chain| - 1 ==> chain[i] != chain[i + 1] }

  /** A compiled chain has a rule that would send its packet back where it came from exactly when the chain names one
      middlebox twice in a row. */
  lemma NoHairpinIff(net: Network, plant: Plant, c: Compiled, sender: Name, chain: seq<Name>, vid: Vid, fields: Fields)
    requires Itinerary(net, plant, c, sender, chain, vid, fields)
    ensures NoHairpin(c.hops) <==> NoRepeat(chain)
  {
    if i :| 0 <= i < |chain| - 1 && chain[i] == chain[i + 1] {
      RepeatMakesHairpin(net, c, sender, chain, vid, fields, i);
    }
    if k :| 0 <= k < |c.hops| && Hairpin(c.hops[k]) {
      HairpinMakesRepeat(net, plant, c, sender, chain, vid, fields, k);
    }
  }

  lemma HairpinMakesRepeat(net: Network, plant: Plant, c: Compiled, sender: Name, chain: seq<Name>, vid: Vid,
                           fields: Fields, k: nat)
    requires Itinerary(net, plant, c, sender, chain, vid, fields) && k < |c.hops| && Hairpin(c.hops[k])
    ensures exists n :: 0 <= n < |chain| - 1 && chain[n] == chain[n + 1]
  {
    hide AllVisits;
    HairpinIsVisit(net, plant, c, sender, chain, vid, fields, k);
    hide Segmented;
    hide Plugged;
    var n := VisitsAreSuffix(c.hops, k - 1);
    AllVisitsCases(c.hops, k - 1);
    AllVisitsCases(c.hops, k);
    assert chain[n..][0] == chain[n] && chain[n..][1] == chain[n + 1];
  }
}
