/** What the commands of the traffic steering application do to the rules without a vlan id, which tag a chain's packets
    at its sender's port, and when they leave a chain served. */
module ChainService {
  import opened SwitchGraph
  import opened ChainRoute
  import opened ChainCompiler
  import opened PacketJourney
  import opened ChainRules
  import opened ChainText

  // ---------------------------------------------------------------- tagging rules

  // The rules without a vlan id.
  function UntaggedPart(flows: Flows): Flows { map k | k in flows && k.match_.vlan.None? :: flows[k] }

  function TaggingKey(net: Network, key: ChainKey): FlowKey
    requires key.sender in net.hosts
  {
    FlowKey(net.hosts[key.sender].dpid, Match(Some(net.hosts[key.sender].port), None, FullMatch(key.fields)))
  }

  // The chain's own rule at its sender's port is in force.
  predicate TagsFor(net: Network, flows: Flows, key: ChainKey, vid: Vid) {
    key.sender in net.hosts && TaggingKey(net, key) in flows && flows[TaggingKey(net, key)].vlan == SetVid(vid)
  }

  // The second entry of the full flow stands for a tagging rule.
  predicate TaggingRecorded(fullFlow: seq<FlowEntry>) { |fullFlow| > 1 && fullFlow[1].Switch? }

  // An uninstall hits a rule without vlan id.
  predicate HitsUntagged(fullFlow: seq<FlowEntry>, sender: Dpid, fields: Fields, k: FlowKey) {
    TaggingRecorded(fullFlow) && k.dpid == sender && Fits(fields, k.match_.fields)
  }

  /** An uninstall takes away exactly the rules without a vlan id on the sender's switch whose match includes the
      chain's fields, if the chain ever had a tagging rule. */
  lemma UninstallUntagged(registry: Registry, flows: Flows, key: ChainKey, sender: Dpid, fields: Fields)
    requires key in registry
    ensures UntaggedPart(Uninstalled(registry, flows, key, sender, fields))
         == if TaggingRecorded(registry[key].fullFlow) then DeleteFields(UntaggedPart(flows), sender, fields)
            else UntaggedPart(flows)
  {
    var fullFlow, vid := registry[key].fullFlow, registry[key].vid;
    forall k: FlowKey | k.match_.vlan.None?
      ensures k in Uninstalled(registry, flows, key, sender, fields) <==>
              k in flows && !HitsUntagged(fullFlow, sender, fields, k)
      ensures k in Uninstalled(registry, flows, key, sender, fields) ==>
                Uninstalled(registry, flows, key, sender, fields)[k] == flows[k]
    {
      RemovedAre(flows, fullFlow, |fullFlow|, vid, sender, fields, k);
      UntaggedHit(fullFlow, vid, sender, fields, k);
    }
    hide Uninstalled;
  }

  lemma UntaggedHit(fullFlow: seq<FlowEntry>, vid: Vid, sender: Dpid, fields: Fields, k: FlowKey)
    requires k.match_.vlan.None?
    ensures (exists i :: 0 <= i < |fullFlow| && Hit(k, fullFlow, i, vid, sender, fields)) <==>
              HitsUntagged(fullFlow, sender, fields, k)
  {
    if HitsUntagged(fullFlow, sender, fields, k) {
      assert Hit(k, fullFlow, 1, vid, sender, fields);
    }
  }

  // The first rule of a compilation tags; all others carry the vlan id.
  predicate TagsFirst(rules: seq<Rule>, tagging: FlowKey, vid: Vid) {
    && rules != [] && rules[0].key == tagging && rules[0].flow.vlan == SetVid(vid)
    && forall i :: 0 < i < |rules| ==> rules[i].key.match_.vlan.Some?
  }

  lemma {:induction false} RestTagged(net: Network, chain: seq<Name>, i: nat, vid: Vid)
    requires Sane(net)
    ensures forall j :: 0 <= j < |CompileRest(net, chain, i, vid).rules| ==>
              CompileRest(net, chain, i, vid).rules[j].key.match_.vlan.Some?
    decreases |chain| - i
  {
    if i + 1 < |chain| {
      var c := CompileBetween(net, chain[i], chain[i + 1], vid, i + 2 == |chain|);
      BetweenTagged(net, chain[i], chain[i + 1], vid, i + 2 == |chain|);
      if c.ok {
        RestTagged(net, chain, i + 1, vid);
      }
      hide CompileBetween;
    }
  }

  lemma BetweenTagged(net: Network, src: Name, dst: Name, vid: Vid, pop: bool)
    requires Sane(net)
    ensures forall j :: 0 <= j < |CompileBetween(net, src, dst, vid, pop).rules| ==>
              CompileBetween(net, src, dst, vid, pop).rules[j].key.match_.vlan.Some?
  {
  }

  lemma CompileTagsFirst(net: Network, key: ChainKey, chain: seq<Name>, vid: Vid)
    requires Sane(net) && chain != []
    ensures var c := Compile(net, key.sender, chain, vid, FullMatch(key.fields));
            && (c.rules != [] ==> key.sender in net.hosts && TagsFirst(c.rules, TaggingKey(net, key), vid))
            && (c.ok ==> c.rules != [])
  {
    var fields := FullMatch(key.fields);
    var c := CompileFirst(net, key.sender, chain[0], vid, fields);
    RestTagged(net, chain, 0, vid);
    if c.ok {
      FirstShape(net, key.sender, chain[0], vid, fields);
      SegmentIsRoute(net, net.hosts[key.sender], chain[0]);
      FirstTagsFirst(net, key, c.hops, vid);
    }
    hide CompileFirst;
    hide CompileRest;
  }

  lemma FirstTagsFirst(net: Network, key: ChainKey, hops: seq<Hop>, vid: Vid)
    requires hops != [] && key.sender in net.hosts && Attach(hops[0].dpid, hops[0].inPort) == net.hosts[key.sender]
    ensures TagsFirst(FirstOf(hops, vid, FullMatch(key.fields)).rules, TaggingKey(net, key), vid)
  {
  }

  lemma {:induction false} InstallKeeps(flows: Flows, rules: seq<Rule>, k: FlowKey)
    requires forall i :: 0 <= i < |rules| ==> rules[i].key != k
    ensures k in InstallAll(flows, rules) <==> k in flows
    ensures k in flows ==> InstallAll(flows, rules)[k] == flows[k]
  {
    if rules != [] {
      InstallKeeps(flows, rules[..|rules| - 1], k);
    }
  }

  /** An installation puts in one rule without a vlan id, the chain's tagging rule. */
  lemma InstallUntagged(flows: Flows, rules: seq<Rule>, tagging: FlowKey, vid: Vid)
    requires TagsFirst(rules, tagging, vid) && tagging.match_.vlan.None?
    ensures UntaggedPart(InstallAll(flows, rules)) == UntaggedPart(flows)[tagging := rules[0].flow]
  {
    LastInstalledWins(flows, rules, 0);
    forall k: FlowKey | k.match_.vlan.None? && k != tagging
      ensures k in InstallAll(flows, rules) <==> k in flows
      ensures k in flows ==> InstallAll(flows, rules)[k] == flows[k]
    {
      InstallKeeps(flows, rules, k);
    }
    hide InstallAll;
  }

  // ---------------------------------------------------------------- one chain exchanged

  // What re-installing chain r with the compilation c makes of the rules without vlan id.
  function ExchangedUntagged(net: Network, u: Flows, r: ChainKey, fullFlow: seq<FlowEntry>, sender: Dpid,
                             c: Compiled): Flows {
    var left := if TaggingRecorded(fullFlow) then DeleteFields(u, sender, FullMatch(r.fields)) else u;
    if c.rules != [] && r.sender in net.hosts then left[TaggingKey(net, r) := c.rules[0].flow] else left
  }

  // Re-installing chain r takes a rule without vlan id away, or puts its own in its place.
  predicate Takes(net: Network, r: ChainKey, fullFlow: seq<FlowEntry>, sender: Dpid, c: Compiled, k: FlowKey) {
    || HitsUntagged(fullFlow, sender, FullMatch(r.fields), k)
    || (c.rules != [] && r.sender in net.hosts && TaggingKey(net, r) == k)
  }

  lemma ExchangeUntagged(net: Network, registry: Registry, flows: Flows, r: ChainKey, sender: Dpid, chain: seq<Name>)
    requires Sane(net) && r in registry && chain != []
    ensures var c := Compile(net, r.sender, chain, registry[r].vid, FullMatch(r.fields));
            UntaggedPart(InstallAll(Uninstalled(registry, flows, r, sender, FullMatch(r.fields)), c.rules))
            == ExchangedUntagged(net, UntaggedPart(flows), r, registry[r].fullFlow, sender, c)
  {
    var c := Compile(net, r.sender, chain, registry[r].vid, FullMatch(r.fields));
    UninstallUntagged(registry, flows, r, sender, FullMatch(r.fields));
    CompileTagsFirst(net, r, chain, registry[r].vid);
    if c.rules != [] {
      InstallUntagged(Uninstalled(registry, flows, r, sender, FullMatch(r.fields)), c.rules, TaggingKey(net, r),
                      registry[r].vid);
    }
    hide Compile;
    hide Uninstalled;
    hide TagsFirst;
  }

  /** The tagging rule of a chain with another vlan id survives exactly when the re-installed chain does not take it. */
  lemma ExchangeKeepsTagIff(net: Network, u: Flows, r: ChainKey, vid: Vid, fullFlow: seq<FlowEntry>, sender: Dpid,
                            c: Compiled, x: ChainKey, other: Vid)
    requires c.rules != [] ==> c.rules[0].flow.vlan == SetVid(vid) && other != vid
    requires x.sender in net.hosts
    ensures TagsFor(net, ExchangedUntagged(net, u, r, fullFlow, sender, c), x, other)
            <==> TagsFor(net, u, x, other) && !Takes(net, r, fullFlow, sender, c, TaggingKey(net, x))
  {
  }

  // A re-installed chain's own tagging rule.
  lemma ExchangeSetsTag(net: Network, u: Flows, r: ChainKey, vid: Vid, fullFlow: seq<FlowEntry>, sender: Dpid,
                        c: Compiled)
    requires c.rules != [] && r.sender in net.hosts && c.rules[0].flow.vlan == SetVid(vid)
    ensures TagsFor(net, ExchangedUntagged(net, u, r, fullFlow, sender, c), r, vid)
  {
  }

  lemma TagsInPart(net: Network, flows: Flows, key: ChainKey, vid: Vid)
    ensures TagsFor(net, flows, key, vid) <==> TagsFor(net, UntaggedPart(flows), key, vid)
  {
  }

  // ---------------------------------------------------------------- served chains

  // Some packet fits both.
  predicate Overlap(a: Fields, b: Fields) { forall f :: f in a && f in b ==> a[f] == b[f] }

  lemma OverlapIsCommonPacket(a: Fields, b: Fields)
    ensures Overlap(a, b) <==> exists packet :: Fits(a, packet) && Fits(b, packet)
  {
    if Overlap(a, b) {
      assert Fits(a, a + b) && Fits(b, a + b);
    }
  }

  predicate AtPort(k: FlowKey, at: Attach) {
    k.match_.vlan.None? && k.dpid == at.dpid && k.match_.inPort == Some(at.port)
  }

  // No other rule at the sender's port can catch the chain's packets.
  ghost predicate AloneAtPort(net: Network, u: Flows, key: ChainKey)
    requires key.sender in net.hosts
  {
    forall k {:trigger k in u} :: k in u && AtPort(k, net.hosts[key.sender]) && k != TaggingKey(net, key) ==>
      !Overlap(k.match_.fields, FullMatch(key.fields))
  }

  // The tables hold the rules of the chain's compilation, and nothing at the sender's port gets in their way.
  ghost predicate Served(net: Network, flows: Flows, key: ChainKey, vid: Vid, c: Compiled) {
    && c.ok && c.rules != [] && key.sender in net.hosts
    && VidPart(flows, vid) == VidPart(InstallAll(map[], c.rules), vid)
    && SendsOn(net, UntaggedPart(flows), key, c)
  }

  // The part of it that is about rules without vlan id.
  ghost predicate SendsOn(net: Network, u: Flows, key: ChainKey, c: Compiled)
    requires key.sender in net.hosts && c.rules != []
  {
    TaggingKey(net, key) in u && u[TaggingKey(net, key)] == c.rules[0].flow && AloneAtPort(net, u, key)
  }

  // ---- a served chain works, whatever else is in the tables

  // The tables without the chain's own rules.
  function Others(net: Network, flows: Flows, key: ChainKey, vid: Vid): Flows
    requires key.sender in net.hosts
  {
    map k | k in flows && k.match_.vlan != Some(vid) && k != TaggingKey(net, key) :: flows[k]
  }

  lemma {:induction false} InstallAllSame(a: Flows, b: Flows, rules: seq<Rule>, k: FlowKey)
    requires exists i :: 0 <= i < |rules| && rules[i].key == k
    ensures k in InstallAll(a, rules) && k in InstallAll(b, rules) && InstallAll(a, rules)[k] == InstallAll(b, rules)[k]
  {
    var front, r := rules[..|rules| - 1], rules[|rules| - 1];
    if r.key != k {
      var i :| 0 <= i < |rules| && rules[i].key == k;
      assert front[i].key == k;
      InstallAllSame(a, b, front, k);
    }
  }

  lemma ServedTables(net: Network, flows: Flows, key: ChainKey, vid: Vid, c: Compiled)
    requires Served(net, flows, key, vid, c) && TagsFirst(c.rules, TaggingKey(net, key), vid)
    requires forall i :: 0 <= i < |c.rules| ==>
              c.rules[i].key.match_.vlan.None? || c.rules[i].key.match_.vlan == Some(vid)
    ensures InstallAll(Others(net, flows, key, vid), c.rules) == flows
  {
    var others, tk := Others(net, flows, key, vid), TaggingKey(net, key);
    forall k
      ensures k in InstallAll(others, c.rules) <==> k in flows
      ensures k in flows ==> InstallAll(others, c.rules)[k] == flows[k]
    {
      ServedAt(net, flows, key, vid, c, k);
    }
    hide InstallAll;
    hide Served;
  }

  lemma ServedAt(net: Network, flows: Flows, key: ChainKey, vid: Vid, c: Compiled, k: FlowKey)
    requires Served(net, flows, key, vid, c) && TagsFirst(c.rules, TaggingKey(net, key), vid)
    requires forall i :: 0 <= i < |c.rules| ==>
              c.rules[i].key.match_.vlan.None? || c.rules[i].key.match_.vlan == Some(vid)
    ensures k in InstallAll(Others(net, flows, key, vid), c.rules) <==> k in flows
    ensures k in flows ==> InstallAll(Others(net, flows, key, vid), c.rules)[k] == flows[k]
  {
    var others, tk, fresh_ := Others(net, flows, key, vid), TaggingKey(net, key), InstallAll(map[], c.rules);
    InstalledKeys(others, c.rules, k);
    InstalledKeys(map[], c.rules, k);
    LastInstalledWins(others, c.rules, 0);
    if exists i :: 0 <= i < |c.rules| && c.rules[i].key == k {
      InstallAllSame(others, map[], c.rules, k);
      hide InstallAll;
      if k.match_.vlan == Some(vid) {
        assert k in VidPart(fresh_, vid) && k in VidPart(flows, vid);
      } else {
        assert k == tk && k in UntaggedPart(flows);
      }
    } else {
      InstallKeeps(others, c.rules, k);
      hide InstallAll;
      if k.match_.vlan == Some(vid) {
        assert k !in VidPart(fresh_, vid) && k !in VidPart(flows, vid);
      }
    }
  }

  /** At any time, whatever other chains are installed: the packets of a served chain that fit its fields meet its
      middleboxes in order exactly when its rules do not clash, it names no middlebox twice in a row, and nothing is met
      behind the last one; or when what is met there makes up for a clash. */
  lemma ServedIsImplementedIff(net: Network, plant: Plant, nodes: set<Dpid>, links: seq<Link>, registry: Registry,
                               flows: Flows, nextVlanId: Vid, key: ChainKey, chain: seq<Name>, vid: Vid, packet: Fields,
                               steps: nat)
    requires Cabled(net, plant, nodes, links) && Sane(net) && Inv(net, registry, flows, nextVlanId) && chain != []
    requires Served(net, flows, key, vid, Compile(net, key.sender, chain, vid, FullMatch(key.fields)))
    requires Transparent(plant, vid) && Fits(FullMatch(key.fields), packet)
    requires steps >= |Compile(net, key.sender, chain, vid, FullMatch(key.fields)).hops|
    ensures var c := Compile(net, key.sender, chain, vid, FullMatch(key.fields));
            && |c.hops| == |c.rules| && chain[|chain| - 1] in net.mbs
            && var beyond := Beyond(net, plant, flows, c, chain, packet, 0, [], steps);
               && (Travel(plant, flows, Arrival(net.hosts[key.sender], Packet([], packet)), steps).visited == chain
                   <==> || (DistinctKeys(c.hops) && NoRepeat(chain) && beyond == [])
                        || MadeGood(c.hops, chain, beyond))
               && (EndsOnce(chain) ==> !MadeGood(c.hops, chain, beyond))
  {
    var fields := FullMatch(key.fields);
    var c, others := Compile(net, key.sender, chain, vid, fields), Others(net, flows, key, vid);
    CabledIsPlugged(net, plant, nodes, links);
    ServedOver(net, plant, registry, flows, nextVlanId, key, chain, vid, packet);
    hide *;
    ServedFacts(net, flows, key, vid, c);
    ChainImplementedIff(net, plant, nodes, links, key.sender, chain, vid, fields, others, packet, steps);
    NoHairpinIff(net, plant, c, key.sender, chain, vid, fields);
    CleanIs(c.hops);
  }

  // A served chain's tables are other tables with the chain installed last.
  lemma ServedOver(net: Network, plant: Plant, registry: Registry, flows: Flows, nextVlanId: Vid, key: ChainKey,
                   chain: seq<Name>, vid: Vid, packet: Fields)
    requires Sane(net) && Plugged(net, plant) && Inv(net, registry, flows, nextVlanId) && chain != []
    requires Served(net, flows, key, vid, Compile(net, key.sender, chain, vid, FullMatch(key.fields)))
    ensures var fields, others := FullMatch(key.fields), Others(net, flows, key, vid);
            var c := Compile(net, key.sender, chain, vid, fields);
            && Itinerary(net, plant, c, key.sender, chain, vid, fields)
            && InstallAll(others, c.rules) == flows && Stray(net, others, vid) && TaggedArePlain(others)
            && (Fits(fields, packet) ==> Foreign(net, others, key.sender, vid, fields, packet))
  {
    var fields := FullMatch(key.fields);
    var c := Compile(net, key.sender, chain, vid, fields);
    CompileTagsFirst(net, key, chain, vid);
    CompileRecords(net, key.sender, chain, vid, fields);
    RecordedRulesHaveVid(net, c, 2, key.sender, vid, fields);
    ServedTables(net, flows, key, vid, c);
    OthersAreStray(net, registry, flows, nextVlanId, key, vid, c, packet);
    ServedFacts(net, flows, key, vid, c);
    CompiledChain(net, key.sender, chain, vid, fields);
    hide *;
    ItineraryIs(net, plant, c, key.sender, chain, vid, fields);
  }

  lemma ServedFacts(net: Network, flows: Flows, key: ChainKey, vid: Vid, c: Compiled)
    requires Served(net, flows, key, vid, c)
    ensures c.ok && key.sender in net.hosts
  {
  }

  lemma ItineraryIs(net: Network, plant: Plant, c: Compiled, sender: Name, chain: seq<Name>, vid: Vid, fields: Fields)
    ensures Itinerary(net, plant, c, sender, chain, vid, fields) <==>
              ChainCompiled(net, c, sender, chain, vid, fields) && Plugged(net, plant)
  {
  }

  lemma CommonPacket(a: Fields, b: Fields, packet: Fields)
    ensures Fits(a, packet) && Fits(b, packet) ==> Overlap(a, b)
  {
  }

  lemma OthersAreStray(net: Network, registry: Registry, flows: Flows, nextVlanId: Vid, key: ChainKey, vid: Vid,
                       c: Compiled, packet: Fields)
    requires Inv(net, registry, flows, nextVlanId) && Served(net, flows, key, vid, c)
    ensures Stray(net, Others(net, flows, key, vid), vid) && TaggedArePlain(Others(net, flows, key, vid))
    ensures Fits(FullMatch(key.fields), packet) ==>
              Foreign(net, Others(net, flows, key, vid), key.sender, vid, FullMatch(key.fields), packet)
  {
    var fields := FullMatch(key.fields);
    forall k | k in flows && AtPort(k, net.hosts[key.sender]) && k != TaggingKey(net, key) && Fits(fields, packet)
      ensures !Fits(k.match_.fields, packet)
    {
      assert k in UntaggedPart(flows);
      CommonPacket(k.match_.fields, fields, packet);
    }
  }

  // ---- which commands leave a chain served

  // Two chains of different ports, or without a common packet.
  predicate Apart(net: Network, a: ChainKey, b: ChainKey) {
    a.sender in net.hosts && b.sender in net.hosts && net.hosts[a.sender] == net.hosts[b.sender] ==>
      !Overlap(FullMatch(a.fields), FullMatch(b.fields))
  }

  lemma OverlapSelf(a: Fields)
    ensures Overlap(a, a)
  {
  }

  lemma PutKeepsSendingIff(net: Network, u: Flows, x: ChainKey, c: Compiled, n: ChainKey, flow: Flow)
    requires x.sender in net.hosts && n.sender in net.hosts && c.rules != []
    requires SendsOn(net, u, x, c) && flow != c.rules[0].flow
    ensures SendsOn(net, u[TaggingKey(net, n) := flow], x, c) <==> Apart(net, n, x)
  {
    var after := u[TaggingKey(net, n) := flow];
    if TaggingKey(net, n) == TaggingKey(net, x) {
      OverlapSelf(FullMatch(x.fields));
    } else if !Apart(net, n, x) {
      assert TaggingKey(net, n) in after && AtPort(TaggingKey(net, n), net.hosts[x.sender]);
    }
    hide Overlap;
  }

  lemma DropKeepsSendingIff(net: Network, u: Flows, x: ChainKey, c: Compiled, sender: Dpid, fields: Fields)
    requires x.sender in net.hosts && c.rules != [] && SendsOn(net, u, x, c)
    ensures SendsOn(net, DeleteFields(u, sender, fields), x, c)
            <==> !(net.hosts[x.sender].dpid == sender && Fits(fields, FullMatch(x.fields)))
  {
    hide Overlap;
    hide Fits;
  }

  lemma ServedSplits(net: Network, a: Flows, b: Flows, x: ChainKey, vid: Vid, c: Compiled)
    requires Served(net, a, x, vid, c) && VidPart(b, vid) == VidPart(a, vid)
    ensures Served(net, b, x, vid, c) <==> SendsOn(net, UntaggedPart(b), x, c)
  {
    hide SendsOn;
    hide VidPart;
  }

  // The rules that a compilation under a vlan id puts in.
  predicate Puts(net: Network, n: ChainKey, other: Vid, rules: seq<Rule>) {
    && (rules != [] ==> n.sender in net.hosts && TagsFirst(rules, TaggingKey(net, n), other))
    && forall i :: 0 <= i < |rules| ==> rules[i].key.match_.vlan.None? || rules[i].key.match_.vlan == Some(other)
  }

  lemma CompilePuts(net: Network, n: ChainKey, chain: seq<Name>, vid: Vid)
    requires Sane(net) && chain != []
    ensures Puts(net, n, vid, Compile(net, n.sender, chain, vid, FullMatch(n.fields)).rules)
    ensures var c := Compile(net, n.sender, chain, vid, FullMatch(n.fields)); c.ok ==> c.rules != []
  {
    CompileTagsFirst(net, n, chain, vid);
    CompileRecords(net, n.sender, chain, vid, FullMatch(n.fields));
    RecordedRulesHaveVid(net, Compile(net, n.sender, chain, vid, FullMatch(n.fields)), 2, n.sender, vid,
                         FullMatch(n.fields));
    hide Compile;
    hide TagsFirst;
  }

  /** Installing another chain under another vlan id leaves a chain served exactly when it installs nothing, or the two
      chains enter by different ports or have no packet in common. */
  lemma InstallServesIff(net: Network, flows: Flows, x: ChainKey, vid: Vid, c: Compiled, n: ChainKey, other: Vid,
                         rules: seq<Rule>)
    requires Served(net, flows, x, vid, c) && Puts(net, x, vid, c.rules) && Puts(net, n, other, rules) && vid != other
    ensures Served(net, InstallAll(flows, rules), x, vid, c) <==> rules == [] || Apart(net, n, x)
  {
    InstallVidParts(net, flows, rules, other, vid);
    ServedSplits(net, flows, InstallAll(flows, rules), x, vid, c);
    ServedSends(net, flows, x, vid, c);
    if rules != [] {
      InstallUntagged(flows, rules, TaggingKey(net, n), other);
      PutKeepsSendingIff(net, UntaggedPart(flows), x, c, n, rules[0].flow);
    }
    hide Served;
    hide SendsOn;
    hide InstallAll;
    hide Apart;
  }

  lemma ServedSends(net: Network, flows: Flows, x: ChainKey, vid: Vid, c: Compiled)
    requires Served(net, flows, x, vid, c)
    ensures x.sender in net.hosts && c.rules != [] && SendsOn(net, UntaggedPart(flows), x, c)
  {
  }

  /** Uninstalling another chain leaves a chain served exactly when the removal by match fields does not hit its tagging
      rule. */
  lemma UninstallServesIff(net: Network, registry: Registry, flows: Flows, nextVlanId: Vid, x: ChainKey, vid: Vid,
                           c: Compiled, r: ChainKey, sender: Dpid)
    requires Inv(net, registry, flows, nextVlanId) && r in registry && registry[r].vid != vid
    requires Served(net, flows, x, vid, c)
    ensures x.sender in net.hosts
    ensures Served(net, Uninstalled(registry, flows, r, sender, FullMatch(r.fields)), x, vid, c)
            <==> !HitsUntagged(registry[r].fullFlow, sender, FullMatch(r.fields), TaggingKey(net, x))
  {
    var gone := Uninstalled(registry, flows, r, sender, FullMatch(r.fields));
    ServedSends(net, flows, x, vid, c);
    UninstalledVidPart(net, registry, flows, nextVlanId, r, sender, vid);
    ServedSplits(net, flows, gone, x, vid, c);
    UninstallUntagged(registry, flows, r, sender, FullMatch(r.fields));
    DropKeepsSendingIff(net, UntaggedPart(flows), x, c, sender, FullMatch(r.fields));
    hide Served;
    hide SendsOn;
    hide Uninstalled;
    hide Fits;
  }

  lemma UninstalledVidPart(net: Network, registry: Registry, flows: Flows, nextVlanId: Vid, r: ChainKey, sender: Dpid,
                           other: Vid)
    requires Inv(net, registry, flows, nextVlanId) && r in registry && registry[r].vid != other
    ensures VidPart(Uninstalled(registry, flows, r, sender, FullMatch(r.fields)), other) == VidPart(flows, other)
  {
    FullMatchNonempty(r.fields);
    var gone := Uninstalled(registry, flows, r, sender, FullMatch(r.fields));
    UninstallClears(net, registry, flows, nextVlanId, r, sender, FullMatch(r.fields));
    VidPartOfVlanPart(gone, other);
    VidPartOfVlanPart(flows, other);
    assert VidPart(WithoutVid(VlanPart(flows), registry[r].vid), other) == VidPart(VlanPart(flows), other);
    hide Uninstalled;
  }

  /** Re-installing another chain leaves a chain served exactly when neither its removal nor its installation gets in
      the way. */
  lemma ExchangeServesIff(net: Network, registry: Registry, flows: Flows, nextVlanId: Vid, x: ChainKey, vid: Vid,
                          c: Compiled, r: ChainKey, sender: Dpid, rules: seq<Rule>)
    requires Inv(net, registry, flows, nextVlanId) && r in registry && registry[r].vid != vid
    requires Served(net, flows, x, vid, c)
    requires Puts(net, x, vid, c.rules) && Puts(net, r, registry[r].vid, rules)
    ensures x.sender in net.hosts
    ensures Served(net, InstallAll(Uninstalled(registry, flows, r, sender, FullMatch(r.fields)), rules), x, vid, c)
            <==> && !HitsUntagged(registry[r].fullFlow, sender, FullMatch(r.fields), TaggingKey(net, x))
                 && (rules == [] || Apart(net, r, x))
  {
    var gone := Uninstalled(registry, flows, r, sender, FullMatch(r.fields));
    UninstallServesIff(net, registry, flows, nextVlanId, x, vid, c, r, sender);
    if Served(net, gone, x, vid, c) {
      InstallServesIff(net, gone, x, vid, c, r, registry[r].vid, rules);
    } else {
      HitIsNotServed(net, registry, flows, x, vid, c, r, sender, rules);
    }
    hide *;
  }

  // A tagging rule that was taken away is not put back by another chain.
  lemma HitIsNotServed(net: Network, registry: Registry, flows: Flows, x: ChainKey, vid: Vid, c: Compiled, r: ChainKey,
                       sender: Dpid, rules: seq<Rule>)
    requires r in registry && registry[r].vid != vid && x.sender in net.hosts
    requires Puts(net, x, vid, c.rules) && c.rules != [] && Puts(net, r, registry[r].vid, rules)
    requires HitsUntagged(registry[r].fullFlow, sender, FullMatch(r.fields), TaggingKey(net, x))
    ensures !Served(net, InstallAll(Uninstalled(registry, flows, r, sender, FullMatch(r.fields)), rules), x, vid, c)
  {
    var gone := Uninstalled(registry, flows, r, sender, FullMatch(r.fields));
    UninstallUntagged(registry, flows, r, sender, FullMatch(r.fields));
    assert TaggingKey(net, x) !in UntaggedPart(gone);
    if rules != [] {
      InstallUntagged(gone, rules, TaggingKey(net, r), registry[r].vid);
    }
    hide Uninstalled;
    hide InstallAll;
    hide AloneAtPort;
  }

  /** A chain installed under a vlan id that no rule carries is served exactly when it compiled to its end and no other
      rule at its sender's port has a packet in common with it. */
  lemma NewServedIff(net: Network, flows: Flows, n: ChainKey, vid: Vid, c: Compiled)
    requires Puts(net, n, vid, c.rules) && NoVlan(flows, vid) && (c.ok ==> c.rules != [])
    ensures Served(net, InstallAll(flows, c.rules), n, vid, c)
            <==> c.ok && n.sender in net.hosts && AloneAtPort(net, UntaggedPart(flows), n)
  {
    InstallVidParts(net, flows, c.rules, vid, vid);
    if c.rules != [] {
      InstallUntagged(flows, c.rules, TaggingKey(net, n), vid);
      hide InstallAll;
      hide Overlap;
      assert forall k :: k in UntaggedPart(flows) && k != TaggingKey(net, n) ==>
          k in UntaggedPart(InstallAll(flows, c.rules));
    }
  }

  // ---- all chains

  function CompilationOf(net: Network, registry: Registry, key: ChainKey): Compiled
    requires Sane(net) && key in registry
  {
    Compile(net, key.sender, Split(registry[key].chain), registry[key].vid, FullMatch(key.fields))
  }

  ghost predicate AllServed(net: Network, registry: Registry, flows: Flows)
    requires Sane(net)
  {
    forall key :: key in registry ==> Served(net, flows, key, registry[key].vid, CompilationOf(net, registry, key))
  }

  // Removing chain r does not touch the tagging rule of x.
  predicate Spares(net: Network, registry: Registry, r: ChainKey, sender: Dpid, x: ChainKey)
    requires r in registry
  {
    x.sender in net.hosts ==> !HitsUntagged(registry[r].fullFlow, sender, FullMatch(r.fields), TaggingKey(net, x))
  }

  /** Adding a chain leaves all chains served, itself included, exactly when it compiles to its end, no other rule at
      its sender's port has a packet in common with it, and neither has any other chain from that port. */
  lemma AddKeepsAllServedIff(net: Network, registry: Registry, flows: Flows, nextVlanId: Vid, key: ChainKey,
                             data: ChainData)
    requires Sane(net) && Inv(net, registry, flows, nextVlanId) && NoVlan(flows, data.vid)
    requires AllServed(net, registry, flows)
    requires forall other :: other in registry ==> registry[other].vid != data.vid
    ensures var registry' := registry[key := data];
            var c := CompilationOf(net, registry', key);
            AllServed(net, registry', InstallAll(flows, c.rules))
            <==> && c.ok && key.sender in net.hosts && AloneAtPort(net, UntaggedPart(flows), key)
                 && forall x :: x in registry && x != key ==> Apart(net, key, x)
  {
    hide Served;
    hide CompilationOf;
    hide Spares;
    hide Apart;
    hide AloneAtPort;
    hide Inv;
    hide Puts;
    hide NoVlan;
    hide Uninstalled;
    hide UntaggedPart;
    hide InstallAll;
    var registry' := registry[key := data];
    var c := CompilationOf(net, registry', key);
    CompilationPuts(net, registry', key);
    NewServedIff(net, flows, key, data.vid, c);
    forall x | x in registry && x != key
      ensures CompilationOf(net, registry', x) == CompilationOf(net, registry, x)
      ensures Served(net, InstallAll(flows, c.rules), x, registry[x].vid, CompilationOf(net, registry, x))
              <==> c.rules == [] || Apart(net, key, x)
    {
      OtherCompilation(net, registry, key, data, x);
      CompilationPuts(net, registry, x);
      InstallServesIff(net, flows, x, registry[x].vid, CompilationOf(net, registry, x), key, data.vid, c.rules);
    }
  }

  lemma CompilationPuts(net: Network, registry: Registry, key: ChainKey)
    requires Sane(net) && key in registry
    ensures Puts(net, key, registry[key].vid, CompilationOf(net, registry, key).rules)
    ensures CompilationOf(net, registry, key).ok ==> CompilationOf(net, registry, key).rules != []
  {
    CompilePuts(net, key, Split(registry[key].chain), registry[key].vid);
    hide Puts;
    hide Compile;
  }

  lemma OtherCompilation(net: Network, registry: Registry, key: ChainKey, data: ChainData, x: ChainKey)
    requires Sane(net) && x in registry && x != key
    ensures CompilationOf(net, registry[key := data], x) == CompilationOf(net, registry, x)
    ensures CompilationOf(net, registry - {key}, x) == CompilationOf(net, registry, x)
  {
    hide Compile;
  }

  /** Removing a chain leaves all others served exactly when it hits none of their tagging rules. */
  lemma RemoveKeepsAllServedIff(net: Network, registry: Registry, flows: Flows, nextVlanId: Vid, r: ChainKey,
                                sender: Dpid)
    requires Sane(net) && Inv(net, registry, flows, nextVlanId) && r in registry && AllServed(net, registry, flows)
    ensures AllServed(net, registry - {r}, Uninstalled(registry, flows, r, sender, FullMatch(r.fields)))
            <==> forall x :: x in registry && x != r ==> Spares(net, registry, r, sender, x)
  {
    hide Served;
    hide CompilationOf;
    hide Spares;
    hide Apart;
    hide AloneAtPort;
    hide Inv;
    hide Puts;
    hide NoVlan;
    hide Uninstalled;
    hide UntaggedPart;
    hide InstallAll;
    var gone := Uninstalled(registry, flows, r, sender, FullMatch(r.fields));
    forall x | x in registry && x != r
      ensures CompilationOf(net, registry - {r}, x) == CompilationOf(net, registry, x)
      ensures Served(net, gone, x, registry[x].vid, CompilationOf(net, registry, x)) <==>
                Spares(net, registry, r, sender, x)
    {
      OtherCompilation(net, registry, r, registry[r], x);
      DistinctVids(net, registry, flows, nextVlanId, r, x);
      UninstallServesIff(net, registry, flows, nextVlanId, x, registry[x].vid, CompilationOf(net, registry, x), r,
                         sender);
      SparesIs(net, registry, r, sender, x);
    }
  }

  lemma SparesIs(net: Network, registry: Registry, r: ChainKey, sender: Dpid, x: ChainKey)
    requires r in registry && x.sender in net.hosts
    ensures Spares(net, registry, r, sender, x)
            <==> !HitsUntagged(registry[r].fullFlow, sender, FullMatch(r.fields), TaggingKey(net, x))
  {
    hide HitsUntagged;
  }

  lemma DistinctVids(net: Network, registry: Registry, flows: Flows, nextVlanId: Vid, a: ChainKey, b: ChainKey)
    requires Inv(net, registry, flows, nextVlanId) && a in registry && b in registry && a != b
    ensures registry[a].vid != registry[b].vid
  {
  }

  /** Re-installing a chain from another text leaves all chains served exactly when it compiles to its end, is alone at
      its port by then, spares the other chains' tagging rules, and has no packet in common with them at one port. */
  lemma ExchangeKeepsAllServedIff(net: Network, registry: Registry, flows: Flows, nextVlanId: Vid, r: ChainKey,
                                  sender: Dpid, data: ChainData)
    requires Sane(net) && Inv(net, registry, flows, nextVlanId) && r in registry && AllServed(net, registry, flows)
    requires data.vid == registry[r].vid
    ensures var registry' := registry[r := data];
            var c := CompilationOf(net, registry', r);
            var gone := Uninstalled(registry, flows, r, sender, FullMatch(r.fields));
            AllServed(net, registry', InstallAll(gone, c.rules))
            <==> && c.ok && r.sender in net.hosts && AloneAtPort(net, UntaggedPart(gone), r)
                 && forall x :: x in registry && x != r ==> Spares(net, registry, r, sender, x) && Apart(net, r, x)
  {
    hide Served;
    hide CompilationOf;
    hide Spares;
    hide Apart;
    hide AloneAtPort;
    hide Inv;
    hide Puts;
    hide NoVlan;
    hide Uninstalled;
    hide UntaggedPart;
    hide InstallAll;
    var registry' := registry[r := data];
    var c, gone := CompilationOf(net, registry', r), Uninstalled(registry, flows, r, sender, FullMatch(r.fields));
    GoneHasNoVid(net, registry, flows, nextVlanId, r, sender);
    CompilationPuts(net, registry', r);
    NewServedIff(net, gone, r, data.vid, c);
    forall x | x in registry && x != r
      ensures CompilationOf(net, registry', x) == CompilationOf(net, registry, x)
      ensures Served(net, InstallAll(gone, c.rules), x, registry[x].vid, CompilationOf(net, registry, x))
              <==> Spares(net, registry, r, sender, x) && (c.rules == [] || Apart(net, r, x))
    {
      OtherCompilation(net, registry, r, data, x);
      DistinctVids(net, registry, flows, nextVlanId, r, x);
      CompilationPuts(net, registry, x);
      ExchangeServesIff(net, registry, flows, nextVlanId, x, registry[x].vid, CompilationOf(net, registry, x), r,
                        sender, c.rules);
      SparesIs(net, registry, r, sender, x);
    }
  }

  lemma GoneHasNoVid(net: Network, registry: Registry, flows: Flows, nextVlanId: Vid, r: ChainKey, sender: Dpid)
    requires Inv(net, registry, flows, nextVlanId) && r in registry
    ensures NoVlan(Uninstalled(registry, flows, r, sender, FullMatch(r.fields)), registry[r].vid)
  {
    FullMatchNonempty(r.fields);
    UninstallClears(net, registry, flows, nextVlanId, r, sender, FullMatch(r.fields));
    hide Uninstalled;
  }
}
