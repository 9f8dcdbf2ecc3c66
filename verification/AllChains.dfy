/** All registered chains at once: when every one of them is implemented, and which commands keep it so. A served
    chain's packets go further than they should when the tag exposed behind the last middlebox is the vlan id of a chain
    that leaves this middlebox. */
module AllChains {
  import opened SwitchGraph
  import opened ChainRoute
  import opened ChainCompiler
  import opened PacketJourney
  import opened ChainRules
  import opened ChainService
  import opened ChainText

  function ChainOf(registry: Registry, key: ChainKey): (chain: seq<Name>)
    requires key in registry
    ensures chain != []
  {
    Split(registry[key].chain)
  }

  // Whatever a packet that fits the chain's fields meets, and for however long, is the chain.
  ghost predicate Implemented(net: Network, plant: Plant, flows: Flows, key: ChainKey, chain: seq<Name>, c: Compiled) {
    && key.sender in net.hosts
    && forall packet, steps: nat :: Fits(FullMatch(key.fields), packet) && steps >= |c.hops| ==>
         Travel(plant, flows, Arrival(net.hosts[key.sender], Packet([], packet)), steps).visited == chain
  }

  ghost predicate AllImplemented(net: Network, plant: Plant, registry: Registry, flows: Flows)
    requires Sane(net)
  {
    forall key :: key in registry ==>
      Implemented(net, plant, flows, key, ChainOf(registry, key), CompilationOf(net, registry, key))
  }

  // No middlebox touches a registered chain's tag.
  ghost predicate TransparentToAll(plant: Plant, registry: Registry) {
    forall key :: key in registry ==> Transparent(plant, registry[key].vid)
  }

  // ---------------------------------------------------------------- what waits behind a chain

  // The tag that is outermost behind the chain's last middlebox.
  function EndTag(net: Network, plant: Plant, registry: Registry, key: ChainKey): Option<Vid>
    requires Sane(net) && key in registry
  {
    var c := CompilationOf(net, registry, key);
    if |c.hops| == |c.rules| then Outermost(EndTags(plant, c, 0, [])) else None
  }

  // Chain y picks up the packets of chain x behind its last middlebox.
  predicate Catches(net: Network, plant: Plant, registry: Registry, y: ChainKey, x: ChainKey)
    requires Sane(net) && y in registry && x in registry
  {
    var chain := ChainOf(registry, x);
    EndTag(net, plant, registry, x) == Some(registry[y].vid) && Leaves(ChainOf(registry, y), chain[|chain| - 1])
  }

  function PortKey(at: Attach, vid: Vid): FlowKey { FlowKey(at.dpid, Match(Some(at.port), Some(vid), map[])) }

  lemma EndMissesIs(net: Network, flows: Flows, nextVlanId: Vid, last: Name, tags: seq<Vid>)
    requires RulesShaped(net, flows, nextVlanId) && last in net.mbs
    ensures EndMisses(net, flows, last, tags)
            <==> Outermost(tags).Some? ==> PortKey(net.mbs[last], Outermost(tags).value) !in flows
  {
    forall key | key in flows && key.match_.vlan.Some? && key.match_.fields == map[]
                 && key.dpid == net.mbs[last].dpid
                 && (key.match_.inPort.Some? ==> key.match_.inPort.value == net.mbs[last].port)
      ensures key == PortKey(net.mbs[last], key.match_.vlan.value)
    {
      assert TaggedRule(key);
    }
  }

  // A chain's rules at a port past its first hop.
  lemma RuleAtPort(net: Network, plant: Plant, c: Compiled, sender: Name, chain: seq<Name>, vid: Vid, fields: Fields,
                   others: Flows, at: Attach)
    requires Itinerary(net, plant, c, sender, chain, vid, fields) && Stray(net, others, vid)
    ensures PortKey(at, vid) in InstallAll(others, c.rules) <==>
              exists i :: 0 < i < |c.hops| && HopAt(c.hops[i]) == at
  {
    var key := PortKey(at, vid);
    InstalledKeys(others, c.rules, key);
    hide Plugged;
    hide InstallAll;
    hide Segmented;
    hide Route;
    hide AllVisits;
    if j :| 0 <= j < |c.rules| && c.rules[j].key == key {
      assert c.rules[j] == RuleOf(c.hops, j, vid, fields, |chain| > 1);
    }
    if i :| 0 < i < |c.hops| && HopAt(c.hops[i]) == at {
      assert c.rules[i] == RuleOf(c.hops, i, vid, fields, |chain| > 1);
    }
  }

  // What the served chains of a registry are.
  lemma ServedChain(net: Network, plant: Plant, registry: Registry, flows: Flows, nextVlanId: Vid, key: ChainKey,
                    packet: Fields)
    requires Sane(net) && Plugged(net, plant) && Inv(net, registry, flows, nextVlanId)
    requires AllServed(net, registry, flows) && key in registry
    ensures var vid, fields, c := registry[key].vid, FullMatch(key.fields), CompilationOf(net, registry, key);
            var others := Others(net, flows, key, vid);
            && Itinerary(net, plant, c, key.sender, ChainOf(registry, key), vid, fields)
            && InstallAll(others, c.rules) == flows && Stray(net, others, vid) && TaggedArePlain(others)
            && (Fits(fields, packet) ==> Foreign(net, others, key.sender, vid, fields, packet))
    ensures |CompilationOf(net, registry, key).hops| == |CompilationOf(net, registry, key).rules|
    ensures ChainOf(registry, key)[|ChainOf(registry, key)| - 1] in net.mbs && key.sender in net.hosts
  {
    var c, chain := CompilationOf(net, registry, key), ChainOf(registry, key);
    var vid, fields := registry[key].vid, FullMatch(key.fields);
    assert Served(net, flows, key, vid, c);
    ServedOver(net, plant, registry, flows, nextVlanId, key, chain, vid, packet);
    hide Compile;
    hide Served;
    hide FullMatch;
    hide InstallAll;
    WalkPart(net, plant, c, key.sender, chain, vid, fields, 0, []);
    hide *;
  }

  // The tables hold nothing for a chain's packets behind its last middlebox.
  ghost predicate Quiet(net: Network, plant: Plant, registry: Registry, flows: Flows, key: ChainKey)
    requires Sane(net) && key in registry
  {
    var c, chain := CompilationOf(net, registry, key), ChainOf(registry, key);
    && |c.hops| == |c.rules| && chain[|chain| - 1] in net.mbs
    && EndMisses(net, flows, chain[|chain| - 1], EndTags(plant, c, 0, []))
  }

  lemma CatcherHasRule(net: Network, plant: Plant, registry: Registry, flows: Flows, nextVlanId: Vid, y: ChainKey,
                       mb: Name)
    requires Sane(net) && Plugged(net, plant) && Inv(net, registry, flows, nextVlanId)
    requires AllServed(net, registry, flows) && y in registry && mb in net.mbs
    ensures PortKey(net.mbs[mb], registry[y].vid) in flows <==> Leaves(ChainOf(registry, y), mb)
  {
    hide *;
    var c, vid, fields := CompilationOf(net, registry, y), registry[y].vid, FullMatch(y.fields);
    ServedChain(net, plant, registry, flows, nextVlanId, y, fields);
    RuleAtPort(net, plant, c, y.sender, ChainOf(registry, y), vid, fields, Others(net, flows, y, vid), net.mbs[mb]);
    LeavesIff(net, plant, c, y.sender, ChainOf(registry, y), vid, fields, mb);
  }

  /** Nothing is held for a served chain's packets behind its last middlebox exactly when no registered chain has the
      exposed tag as its vlan id and leaves that middlebox. */
  lemma QuietIff(net: Network, plant: Plant, registry: Registry, flows: Flows, nextVlanId: Vid, x: ChainKey)
    requires Sane(net) && Plugged(net, plant) && Inv(net, registry, flows, nextVlanId) && Owned(registry, flows)
    requires AllServed(net, registry, flows) && x in registry
    ensures Quiet(net, plant, registry, flows, x)
            <==> forall y :: y in registry ==> !Catches(net, plant, registry, y, x)
  {
    hide *;
    var c, chain := CompilationOf(net, registry, x), ChainOf(registry, x);
    ServedChain(net, plant, registry, flows, nextVlanId, x, map[]);
    var last, tags := chain[|chain| - 1], EndTags(plant, c, 0, []);
    QuietIs(net, plant, registry, flows, nextVlanId, x);
    EndTagIs(net, plant, registry, x);
    forall y | y in registry
      ensures Catches(net, plant, registry, y, x) <==>
                Outermost(tags) == Some(registry[y].vid) && PortKey(net.mbs[last], registry[y].vid) in flows
    {
      CatcherHasRule(net, plant, registry, flows, nextVlanId, y, last);
      CatchesIs(net, plant, registry, y, x);
    }
    if Outermost(tags).Some? && PortKey(net.mbs[last], Outermost(tags).value) in flows {
      PortKeyOwned(registry, flows, net.mbs[last], Outermost(tags).value);
    }
  }

  lemma QuietIs(net: Network, plant: Plant, registry: Registry, flows: Flows, nextVlanId: Vid, x: ChainKey)
    requires Sane(net) && x in registry && Inv(net, registry, flows, nextVlanId)
    requires |CompilationOf(net, registry, x).hops| == |CompilationOf(net, registry, x).rules|
    requires ChainOf(registry, x)[|ChainOf(registry, x)| - 1] in net.mbs
    ensures var tags := EndTags(plant, CompilationOf(net, registry, x), 0, []);
            Quiet(net, plant, registry, flows, x)
            <==> Outermost(tags).Some? ==>
                   PortKey(net.mbs[ChainOf(registry, x)[|ChainOf(registry, x)| - 1]], Outermost(tags).value) !in flows
  {
    hide CompilationOf;
    hide EndTags;
    EndMissesIs(net, flows, nextVlanId, ChainOf(registry, x)[|ChainOf(registry, x)| - 1],
                EndTags(plant, CompilationOf(net, registry, x), 0, []));
    hide EndMisses;
  }

  /** Putting in rules keeps it so exactly when none of them carries the exposed tag at that middlebox's port. */
  lemma InstallKeepsQuietIff(net: Network, plant: Plant, registry: Registry, flows: Flows, nextVlanId: Vid,
                             rules: seq<Rule>, x: ChainKey)
    requires Sane(net) && x in registry && Inv(net, registry, flows, nextVlanId)
    requires Inv(net, registry, InstallAll(flows, rules), nextVlanId) && Quiet(net, plant, registry, flows, x)
    ensures var tag, chain := EndTag(net, plant, registry, x), ChainOf(registry, x);
            && chain[|chain| - 1] in net.mbs
            && (Quiet(net, plant, registry, InstallAll(flows, rules), x)
                <==> tag.Some? ==> forall i :: 0 <= i < |rules| ==>
                                    rules[i].key != PortKey(net.mbs[chain[|chain| - 1]], tag.value))
  {
    hide *;
    var tag, chain := EndTag(net, plant, registry, x), ChainOf(registry, x);
    QuietFacts(net, plant, registry, flows, x);
    EndTagIs(net, plant, registry, x);
    QuietIs(net, plant, registry, flows, nextVlanId, x);
    QuietIs(net, plant, registry, InstallAll(flows, rules), nextVlanId, x);
    if tag.Some? {
      InstalledKeys(flows, rules, PortKey(net.mbs[chain[|chain| - 1]], tag.value));
    }
  }

  lemma QuietFacts(net: Network, plant: Plant, registry: Registry, flows: Flows, x: ChainKey)
    requires Sane(net) && x in registry && Quiet(net, plant, registry, flows, x)
    ensures |CompilationOf(net, registry, x).hops| == |CompilationOf(net, registry, x).rules|
    ensures ChainOf(registry, x)[|ChainOf(registry, x)| - 1] in net.mbs
  {
    hide CompilationOf;
    hide EndMisses;
  }

  /** Uninstalling a chain never ends it. */
  lemma UninstallKeepsQuiet(net: Network, plant: Plant, registry: Registry, flows: Flows, r: ChainKey, sender: Dpid,
                            x: ChainKey)
    requires Sane(net) && x in registry && r in registry && Quiet(net, plant, registry, flows, x)
    ensures Quiet(net, plant, registry, Uninstalled(registry, flows, r, sender, FullMatch(r.fields)), x)
  {
    var gone := Uninstalled(registry, flows, r, sender, FullMatch(r.fields));
    forall k | k in gone ensures k in flows {
      RemovedAre(flows, registry[r].fullFlow, |registry[r].fullFlow|, registry[r].vid, sender, FullMatch(r.fields), k);
    }
    hide Uninstalled;
    hide CompilationOf;
    hide EndTags;
    hide FullMatch;
  }

  lemma CatchesIs(net: Network, plant: Plant, registry: Registry, y: ChainKey, x: ChainKey)
    requires Sane(net) && y in registry && x in registry
    ensures Catches(net, plant, registry, y, x)
            <==> && EndTag(net, plant, registry, x) == Some(registry[y].vid)
                 && Leaves(ChainOf(registry, y), ChainOf(registry, x)[|ChainOf(registry, x)| - 1])
  {
    hide EndTag;
    hide Leaves;
  }

  lemma EndTagIs(net: Network, plant: Plant, registry: Registry, x: ChainKey)
    requires Sane(net) && x in registry
    requires |CompilationOf(net, registry, x).hops| == |CompilationOf(net, registry, x).rules|
    ensures EndTag(net, plant, registry, x) == Outermost(EndTags(plant, CompilationOf(net, registry, x), 0, []))
  {
    hide CompilationOf;
    hide EndTags;
  }

  lemma PortKeyOwned(registry: Registry, flows: Flows, at: Attach, vid: Vid)
    requires Owned(registry, flows) && PortKey(at, vid) in flows
    ensures exists y :: y in registry && registry[y].vid == vid
  {
    assert OwnedBy(registry, vid);
  }

  // ---------------------------------------------------------------- a packet that is caught

  /** A packet of chain x that chain y catches goes on through all that y visits behind that middlebox, and from the
      end of y as far as it gets. */
  lemma CaughtGoesOn(net: Network, plant: Plant, registry: Registry, flows: Flows, nextVlanId: Vid, y: ChainKey,
                     x: ChainKey, packet: Fields, steps: nat)
    returns (n: nat, i: nat)
    requires Sane(net) && Plugged(net, plant) && Inv(net, registry, flows, nextVlanId)
    requires AllServed(net, registry, flows) && TransparentToAll(plant, registry) && y in registry && x in registry
    requires RunsThrough(CompilationOf(net, registry, x).hops, 0) && Clean(CompilationOf(net, registry, y).hops)
    requires Catches(net, plant, registry, y, x)
    requires steps >= |CompilationOf(net, registry, x).hops| + |CompilationOf(net, registry, y).hops|
    ensures var c, chain := CompilationOf(net, registry, x), ChainOf(registry, x);
            var d, names := CompilationOf(net, registry, y), ChainOf(registry, y);
            && |c.hops| == |c.rules| && chain[|chain| - 1] in net.mbs
            && |d.hops| == |d.rules| && names[|names| - 1] in net.mbs
            && n < |names| - 1 && names[n] == chain[|chain| - 1]
            && 0 < i < |d.hops| && HopAt(d.hops[i]) == net.mbs[chain[|chain| - 1]]
            && Beyond(net, plant, flows, c, chain, packet, 0, [], steps)
               == names[n + 1..] + Beyond(net, plant, flows, d, names, packet, i, EndTags(plant, c, 0, []),
                                          steps - WalkLength(c.hops, 0))
  {
    hide *;
    var c, chain := CompilationOf(net, registry, x), ChainOf(registry, x);
    var d, names := CompilationOf(net, registry, y), ChainOf(registry, y);
    ServedChain(net, plant, registry, flows, nextVlanId, x, map[]);
    ServedChain(net, plant, registry, flows, nextVlanId, y, map[]);
    CatchesIs(net, plant, registry, y, x);
    n := LeftAt(names, chain[|chain| - 1]);
    ItineraryIs(net, plant, d, y.sender, names, registry[y].vid, FullMatch(y.fields));
    i := HopBehind(net, d, y.sender, names, registry[y].vid, FullMatch(y.fields), n);
    BehindIs(net, chain, d.hops[i]);
    CaughtFrom(net, plant, registry, flows, nextVlanId, y, x, packet, i, steps);
    GoesOnIs(net, plant, flows, c, chain, d, names, packet, i, steps);
    CleanIs(d.hops);
    CleanWalk(d.hops, i);
  }

  // The hop starts at the port of the chain's last middlebox.
  predicate StartsBehind(net: Network, chain: seq<Name>, hop: Hop) {
    chain != [] && chain[|chain| - 1] in net.mbs && HopAt(hop) == net.mbs[chain[|chain| - 1]]
  }

  // The same for a given hop of y at the port of x's last middlebox.
  lemma CaughtFrom(net: Network, plant: Plant, registry: Registry, flows: Flows, nextVlanId: Vid, y: ChainKey,
                   x: ChainKey, packet: Fields, i: nat, steps: nat)
    requires Sane(net) && Plugged(net, plant) && Inv(net, registry, flows, nextVlanId)
    requires AllServed(net, registry, flows) && TransparentToAll(plant, registry) && y in registry && x in registry
    requires RunsThrough(CompilationOf(net, registry, x).hops, 0)
    requires EndTag(net, plant, registry, x) == Some(registry[y].vid)
    requires 0 < i < |CompilationOf(net, registry, y).hops| && steps >= |CompilationOf(net, registry, x).hops|
    requires steps - WalkLength(CompilationOf(net, registry, x).hops, 0) >= |CompilationOf(net, registry, y).hops| - i
    requires StartsBehind(net, ChainOf(registry, x), CompilationOf(net, registry, y).hops[i])
    ensures GoesOnBy(net, plant, flows, CompilationOf(net, registry, x), ChainOf(registry, x),
                     CompilationOf(net, registry, y), ChainOf(registry, y), packet, i, steps)
  {
    hide *;
    var c, chain := CompilationOf(net, registry, x), ChainOf(registry, x);
    var d, names := CompilationOf(net, registry, y), ChainOf(registry, y);
    ServedChain(net, plant, registry, flows, nextVlanId, x, map[]);
    ServedChain(net, plant, registry, flows, nextVlanId, y, map[]);
    var vid, fields, others := registry[y].vid, FullMatch(y.fields), Others(net, flows, y, registry[y].vid);
    EndTagIs(net, plant, registry, x);
    var tags, left := EndTags(plant, c, 0, []), steps - WalkLength(c.hops, 0);
    PastFirst(net, others, y.sender, d, names, vid, fields, packet, i, tags);
    TransparentTo(plant, registry, y);
    TravelGoesOn(net, plant, d, y.sender, names, vid, fields, others, packet, i, tags, left);
    EndIsHop(net, c.hops, d.hops, chain, names, packet, i, tags);
    BeyondIs(net, plant, flows, c, chain, packet, 0, [], steps);
    GoesOnIs(net, plant, flows, c, chain, d, names, packet, i, steps);
  }

  // What a packet meets behind its own chain is what the chain d visits from hop i on, and then what is behind that.
  ghost predicate GoesOnBy(net: Network, plant: Plant, flows: Flows, c: Compiled, chain: seq<Name>, d: Compiled,
                           names: seq<Name>, packet: Fields, i: nat, steps: nat) {
    && |c.hops| == |c.rules| && chain != [] && chain[|chain| - 1] in net.mbs && steps >= |c.hops|
    && |d.hops| == |d.rules| && names != [] && names[|names| - 1] in net.mbs
    && i <= |d.hops| && steps - WalkLength(c.hops, 0) >= |d.hops| - i
    && Beyond(net, plant, flows, c, chain, packet, 0, [], steps)
       == Visits(d.hops, i)
          + Beyond(net, plant, flows, d, names, packet, i, EndTags(plant, c, 0, []), steps - WalkLength(c.hops, 0))
  }

  lemma GoesOnIs(net: Network, plant: Plant, flows: Flows, c: Compiled, chain: seq<Name>, d: Compiled,
                 names: seq<Name>, packet: Fields, i: nat, steps: nat)
    requires |c.hops| == |c.rules| && chain != [] && chain[|chain| - 1] in net.mbs && steps >= |c.hops|
    requires |d.hops| == |d.rules| && names != [] && names[|names| - 1] in net.mbs
    requires i <= |d.hops| && steps - WalkLength(c.hops, 0) >= |d.hops| - i
    ensures GoesOnBy(net, plant, flows, c, chain, d, names, packet, i, steps)
            <==> Beyond(net, plant, flows, c, chain, packet, 0, [], steps)
                 == Visits(d.hops, i) + Beyond(net, plant, flows, d, names, packet, i, EndTags(plant, c, 0, []),
                                               steps - WalkLength(c.hops, 0))
  {
    hide Beyond;
    hide Visits;
    hide EndTags;
    hide WalkLength;
  }

  lemma BehindIs(net: Network, chain: seq<Name>, hop: Hop)
    requires chain != [] && chain[|chain| - 1] in net.mbs
    ensures StartsBehind(net, chain, hop) <==> HopAt(hop) == net.mbs[chain[|chain| - 1]]
  {
  }

  lemma LeftAt(chain: seq<Name>, mb: Name) returns (n: nat)
    requires Leaves(chain, mb)
    ensures n < |chain| - 1 && chain[n] == mb
  {
    n :| n < |chain| - 1 && chain[n] == mb;
  }

  lemma TransparentTo(plant: Plant, registry: Registry, y: ChainKey)
    requires TransparentToAll(plant, registry) && y in registry
    ensures Transparent(plant, registry[y].vid)
  {
  }

  lemma PastFirst(net: Network, others: Flows, sender: Name, d: Compiled, chain: seq<Name>, vid: Vid, fields: Fields,
                  packet: Fields, i: nat, tags: seq<Vid>)
    requires sender in net.hosts && Stray(net, others, vid) && 0 < i < |d.hops| && Outermost(tags) == Some(vid)
    ensures LeftAlone(net, others, sender, vid, fields, packet, i) && TagsFit(d, chain, vid, i, tags)
  {
  }

  // The end of one chain is where a hop of another starts.
  lemma EndIsHop(net: Network, hops: seq<Hop>, hops': seq<Hop>, chain: seq<Name>, names: seq<Name>, packet: Fields,
                 i: nat, tags: seq<Vid>)
    requires chain != [] && chain[|chain| - 1] in net.mbs && names != [] && names[|names| - 1] in net.mbs
    requires i < |hops'| && StartsBehind(net, chain, hops'[i])
    ensures Expected(net, hops, chain, packet, |hops|, tags) == Expected(net, hops', names, packet, i, tags)
  {
  }

  // ---------------------------------------------------------------- when all chains are implemented

  ghost predicate AllClean(net: Network, registry: Registry)
    requires Sane(net)
  {
    forall key :: key in registry ==> Clean(CompilationOf(net, registry, key).hops)
  }

  ghost predicate NoneCaught(net: Network, plant: Plant, registry: Registry)
    requires Sane(net)
  {
    forall y, x :: y in registry && x in registry ==> !Catches(net, plant, registry, y, x)
  }

  // Chains whose clashes nothing behind the last middlebox could make up for.
  ghost predicate CleanOrEndOnce(net: Network, registry: Registry)
    requires Sane(net)
  {
    forall key :: key in registry ==>
      Clean(CompilationOf(net, registry, key).hops) || EndsOnce(ChainOf(registry, key))
  }

  // One journey of a served chain's packet.
  lemma JourneyVisits(net: Network, plant: Plant, registry: Registry, flows: Flows, nextVlanId: Vid, x: ChainKey,
                      packet: Fields, steps: nat)
    requires Sane(net) && Plugged(net, plant) && Inv(net, registry, flows, nextVlanId)
    requires AllServed(net, registry, flows) && TransparentToAll(plant, registry) && x in registry
    requires Fits(FullMatch(x.fields), packet) && steps >= |CompilationOf(net, registry, x).hops|
    ensures var c, chain := CompilationOf(net, registry, x), ChainOf(registry, x);
            && x.sender in net.hosts && |c.hops| == |c.rules| && chain[|chain| - 1] in net.mbs
            && Travel(plant, flows, Arrival(net.hosts[x.sender], Packet([], packet)), steps).visited
               == Visits(c.hops, 0) + Beyond(net, plant, flows, c, chain, packet, 0, [], steps)
  {
    hide *;
    var c, chain, vid := CompilationOf(net, registry, x), ChainOf(registry, x), registry[x].vid;
    ServedChain(net, plant, registry, flows, nextVlanId, x, packet);
    var fields, others := FullMatch(x.fields), Others(net, flows, x, vid);
    TransparentTo(plant, registry, x);
    StartsAlone(net, others, x.sender, c, chain, vid, fields, packet);
    TravelGoesOn(net, plant, c, x.sender, chain, vid, fields, others, packet, 0, [], steps);
    FirstHopAtHost(net, plant, c, x.sender, chain, vid, fields);
    StartIs(net, c.hops, chain, packet);
  }

  lemma JourneyIff(net: Network, plant: Plant, registry: Registry, flows: Flows, nextVlanId: Vid, x: ChainKey,
                   packet: Fields, steps: nat)
    requires Sane(net) && Plugged(net, plant) && Inv(net, registry, flows, nextVlanId)
    requires AllServed(net, registry, flows) && TransparentToAll(plant, registry) && x in registry
    requires Fits(FullMatch(x.fields), packet) && steps >= |CompilationOf(net, registry, x).hops|
    requires Clean(CompilationOf(net, registry, x).hops) || EndsOnce(ChainOf(registry, x))
    ensures var c, chain := CompilationOf(net, registry, x), ChainOf(registry, x);
            && x.sender in net.hosts && |c.hops| == |c.rules| && chain[|chain| - 1] in net.mbs
            && (Travel(plant, flows, Arrival(net.hosts[x.sender], Packet([], packet)), steps).visited == chain
                <==> Clean(c.hops) && Beyond(net, plant, flows, c, chain, packet, 0, [], steps) == [])
  {
    hide *;
    var c, chain := CompilationOf(net, registry, x), ChainOf(registry, x);
    ServedChain(net, plant, registry, flows, nextVlanId, x, packet);
    JourneyVisits(net, plant, registry, flows, nextVlanId, x, packet, steps);
    BeyondIs(net, plant, flows, c, chain, packet, 0, [], steps);
    CleanVisits(net, plant, c, x.sender, chain, registry[x].vid, FullMatch(x.fields),
                Beyond(net, plant, flows, c, chain, packet, 0, [], steps));
  }

  lemma StartsAlone(net: Network, others: Flows, sender: Name, c: Compiled, chain: seq<Name>, vid: Vid, fields: Fields,
                    packet: Fields)
    requires sender in net.hosts && Stray(net, others, vid) && Fits(fields, packet)
    requires Foreign(net, others, sender, vid, fields, packet)
    ensures LeftAlone(net, others, sender, vid, fields, packet, 0) && TagsFit(c, chain, vid, 0, [])
  {
  }

  lemma StartIs(net: Network, hops: seq<Hop>, chain: seq<Name>, packet: Fields)
    requires chain != [] && chain[|chain| - 1] in net.mbs && hops != []
    ensures Expected(net, hops, chain, packet, 0, []) == Arrival(HopAt(hops[0]), Packet([], packet))
  {
  }

  lemma CleanVisits(net: Network, plant: Plant, c: Compiled, sender: Name, chain: seq<Name>, vid: Vid, fields: Fields,
                    beyond: seq<Name>)
    requires Itinerary(net, plant, c, sender, chain, vid, fields) && (beyond != [] ==> RunsThrough(c.hops, 0))
    requires Clean(c.hops) || EndsOnce(chain)
    ensures Visits(c.hops, 0) + beyond == chain <==> Clean(c.hops) && beyond == []
  {
    GoodVisitsIff(c.hops, chain, beyond);
    if Clean(c.hops) {
      CleanWalk(c.hops, 0);
      assert Visits(c.hops, 0) == chain;
    }
    hide *;
  }

  lemma ImplementedAt(net: Network, plant: Plant, registry: Registry, flows: Flows, x: ChainKey, packet: Fields,
                      steps: nat)
    requires Sane(net) && AllImplemented(net, plant, registry, flows) && x in registry
    requires Fits(FullMatch(x.fields), packet) && steps >= |CompilationOf(net, registry, x).hops|
    ensures x.sender in net.hosts
    ensures Travel(plant, flows, Arrival(net.hosts[x.sender], Packet([], packet)), steps).visited
         == ChainOf(registry, x)
  {
    hide Travel;
    hide Fits;
    hide CompilationOf;
    assert Implemented(net, plant, flows, x, ChainOf(registry, x), CompilationOf(net, registry, x));
  }

  lemma FitsItself(fields: Fields)
    ensures Fits(fields, fields)
  {
  }

  // What being implemented takes.
  lemma ImplementedIsClean(net: Network, plant: Plant, registry: Registry, flows: Flows, nextVlanId: Vid, x: ChainKey)
    requires Sane(net) && Plugged(net, plant) && Inv(net, registry, flows, nextVlanId)
    requires AllServed(net, registry, flows) && TransparentToAll(plant, registry) && x in registry
    requires CleanOrEndOnce(net, registry) && AllImplemented(net, plant, registry, flows)
    ensures Clean(CompilationOf(net, registry, x).hops)
  {
    hide *;
    var fields := FullMatch(x.fields);
    FitsItself(fields);
    OrEndsOnce(net, registry, x);
    JourneyIff(net, plant, registry, flows, nextVlanId, x, fields, |CompilationOf(net, registry, x).hops|);
    ImplementedAt(net, plant, registry, flows, x, fields, |CompilationOf(net, registry, x).hops|);
  }

  lemma OrEndsOnce(net: Network, registry: Registry, x: ChainKey)
    requires Sane(net) && CleanOrEndOnce(net, registry) && x in registry
    ensures Clean(CompilationOf(net, registry, x).hops) || EndsOnce(ChainOf(registry, x))
  {
    hide CompilationOf;
    hide Clean;
    hide EndsOnce;
  }

  lemma ImplementedIsNotCaught(net: Network, plant: Plant, registry: Registry, flows: Flows, nextVlanId: Vid,
                               y: ChainKey, x: ChainKey)
    requires Sane(net) && Plugged(net, plant) && Inv(net, registry, flows, nextVlanId)
    requires AllServed(net, registry, flows) && TransparentToAll(plant, registry) && y in registry && x in registry
    requires CleanOrEndOnce(net, registry) && AllImplemented(net, plant, registry, flows)
    ensures !Catches(net, plant, registry, y, x)
  {
    hide *;
    ImplementedIsClean(net, plant, registry, flows, nextVlanId, x);
    ImplementedIsClean(net, plant, registry, flows, nextVlanId, y);
    if Catches(net, plant, registry, y, x) {
      var fields := FullMatch(x.fields);
      var steps := |CompilationOf(net, registry, x).hops| + |CompilationOf(net, registry, y).hops|;
      FitsItself(fields);
      OrEndsOnce(net, registry, x);
      JourneyIff(net, plant, registry, flows, nextVlanId, x, fields, steps);
      ImplementedAt(net, plant, registry, flows, x, fields, steps);
      CleanIs(CompilationOf(net, registry, x).hops);
      CleanWalk(CompilationOf(net, registry, x).hops, 0);
      var n, i := CaughtGoesOn(net, plant, registry, flows, nextVlanId, y, x, fields, steps);
    }
  }

  lemma QuietHasNothingBeyond(net: Network, plant: Plant, registry: Registry, flows: Flows, nextVlanId: Vid,
                              x: ChainKey, packet: Fields, steps: nat)
    requires Sane(net) && Plugged(net, plant) && Inv(net, registry, flows, nextVlanId)
    requires AllServed(net, registry, flows) && x in registry && Quiet(net, plant, registry, flows, x)
    requires steps >= |CompilationOf(net, registry, x).hops|
    ensures Beyond(net, plant, flows, CompilationOf(net, registry, x), ChainOf(registry, x), packet, 0, [], steps) == []
  {
    ServedChain(net, plant, registry, flows, nextVlanId, x, packet);
    var c, chain, vid := CompilationOf(net, registry, x), ChainOf(registry, x), registry[x].vid;
    NothingBeyond(net, plant, c, x.sender, chain, vid, FullMatch(x.fields), Others(net, flows, x, vid), packet, 0, [],
                  steps);
    hide *;
  }

  lemma NotCaughtIsImplemented(net: Network, plant: Plant, registry: Registry, flows: Flows, nextVlanId: Vid,
                               x: ChainKey)
    requires Sane(net) && Plugged(net, plant) && Inv(net, registry, flows, nextVlanId) && Owned(registry, flows)
    requires AllServed(net, registry, flows) && TransparentToAll(plant, registry) && x in registry
    requires Clean(CompilationOf(net, registry, x).hops) && NoneCaught(net, plant, registry)
    ensures Implemented(net, plant, flows, x, ChainOf(registry, x), CompilationOf(net, registry, x))
  {
    QuietIff(net, plant, registry, flows, nextVlanId, x);
    var c, chain := CompilationOf(net, registry, x), ChainOf(registry, x);
    assert Quiet(net, plant, registry, flows, x);
    ServedChain(net, plant, registry, flows, nextVlanId, x, map[]);
    hide Travel;
    hide Fits;
    hide CompilationOf;
    hide FullMatch;
    hide ChainOf;
    forall packet, steps: nat | Fits(FullMatch(x.fields), packet) && steps >= |c.hops|
      ensures Travel(plant, flows, Arrival(net.hosts[x.sender], Packet([], packet)), steps).visited == chain
    {
      JourneyIff(net, plant, registry, flows, nextVlanId, x, packet, steps);
      QuietHasNothingBeyond(net, plant, registry, flows, nextVlanId, x, packet, steps);
    }
  }

  /** While all registered chains are served they are all implemented exactly when no two rules of a chain clash, none
      names a middlebox twice in a row, and none is caught by a chain behind its last middlebox. */
  lemma AllImplementedIff(net: Network, plant: Plant, nodes: set<Dpid>, links: seq<Link>, registry: Registry,
                          flows: Flows, nextVlanId: Vid)
    requires Sane(net) && Cabled(net, plant, nodes, links) && Inv(net, registry, flows, nextVlanId)
    requires Owned(registry, flows) && AllServed(net, registry, flows) && TransparentToAll(plant, registry)
    requires CleanOrEndOnce(net, registry)
    ensures AllImplemented(net, plant, registry, flows)
            <==> AllClean(net, registry) && NoneCaught(net, plant, registry)
  {
    CabledIsPlugged(net, plant, nodes, links);
    hide Implemented;
    hide Cabled;
    hide Plugged;
    hide Inv;
    hide Owned;
    hide AllServed;
    hide Catches;
    hide CompilationOf;
    hide Clean;
    hide ChainOf;
    hide CleanOrEndOnce;
    hide TransparentToAll;
    if AllImplemented(net, plant, registry, flows) {
      forall x | x in registry ensures Clean(CompilationOf(net, registry, x).hops) {
        ImplementedIsClean(net, plant, registry, flows, nextVlanId, x);
      }
      forall y, x | y in registry && x in registry ensures !Catches(net, plant, registry, y, x) {
        ImplementedIsNotCaught(net, plant, registry, flows, nextVlanId, y, x);
      }
    }
    if AllClean(net, registry) && NoneCaught(net, plant, registry) {
      forall x | x in registry
        ensures Implemented(net, plant, flows, x, ChainOf(registry, x), CompilationOf(net, registry, x))
      {
        NotCaughtIsImplemented(net, plant, registry, flows, nextVlanId, x);
      }
    }
  }

  // ---------------------------------------------------------------- commands

  // Chains to which the characterisation applies.
  ghost predicate Regular(net: Network, plant: Plant, registry: Registry)
    requires Sane(net)
  {
    TransparentToAll(plant, registry) && CleanOrEndOnce(net, registry)
  }

  ghost predicate AllWork(net: Network, plant: Plant, registry: Registry, flows: Flows)
    requires Sane(net)
  {
    AllServed(net, registry, flows) && AllImplemented(net, plant, registry, flows)
  }

  // The chain does not clash with itself, and it neither catches nor is caught.
  ghost predicate Untangled(net: Network, plant: Plant, registry: Registry, key: ChainKey)
    requires Sane(net) && key in registry
  {
    && Clean(CompilationOf(net, registry, key).hops)
    && forall x :: x in registry ==> !Catches(net, plant, registry, key, x) && !Catches(net, plant, registry, x, key)
  }

  lemma CatchesSame(net: Network, plant: Plant, registry: Registry, key: ChainKey, data: ChainData, y: ChainKey,
                    x: ChainKey)
    requires Sane(net) && y in registry && x in registry && y != key && x != key
    ensures Catches(net, plant, registry[key := data], y, x) <==> Catches(net, plant, registry, y, x)
    ensures Catches(net, plant, registry - {key}, y, x) <==> Catches(net, plant, registry, y, x)
  {
    OtherCompilation(net, registry, key, data, x);
    hide CompilationOf;
    hide EndTags;
    hide Leaves;
  }

  lemma CleanSame(net: Network, registry: Registry, key: ChainKey, data: ChainData, x: ChainKey)
    requires Sane(net) && x in registry && x != key
    ensures Clean(CompilationOf(net, registry[key := data], x).hops) <==> Clean(CompilationOf(net, registry, x).hops)
    ensures Clean(CompilationOf(net, registry - {key}, x).hops) <==> Clean(CompilationOf(net, registry, x).hops)
  {
    OtherCompilation(net, registry, key, data, x);
    hide *;
  }

  // Only the new chain has to be looked at.
  lemma OneMoreUntangled(net: Network, plant: Plant, registry: Registry, key: ChainKey, data: ChainData)
    requires Sane(net) && AllClean(net, registry) && NoneCaught(net, plant, registry)
    ensures var registry' := registry[key := data];
            AllClean(net, registry') && NoneCaught(net, plant, registry') <==> Untangled(net, plant, registry', key)
  {
    hide Catches;
    hide CompilationOf;
    hide Clean;
    var registry' := registry[key := data];
    forall x | x in registry && x != key
      ensures Clean(CompilationOf(net, registry', x).hops)
    {
      CleanSame(net, registry, key, data, x);
    }
    forall y, x | y in registry && x in registry && y != key && x != key
      ensures !Catches(net, plant, registry', y, x)
    {
      CatchesSame(net, plant, registry, key, data, y, x);
    }
  }

  lemma OneLessUntangled(net: Network, plant: Plant, registry: Registry, key: ChainKey)
    requires Sane(net) && AllClean(net, registry) && NoneCaught(net, plant, registry) && key in registry
    ensures AllClean(net, registry - {key}) && NoneCaught(net, plant, registry - {key})
  {
    hide Catches;
    hide CompilationOf;
    hide Clean;
    forall x | x in registry && x != key
      ensures Clean(CompilationOf(net, registry - {key}, x).hops)
    {
      CleanSame(net, registry, key, registry[key], x);
    }
    forall y, x | y in registry && x in registry && y != key && x != key
      ensures !Catches(net, plant, registry - {key}, y, x)
    {
      CatchesSame(net, plant, registry, key, registry[key], y, x);
    }
  }

  lemma RegularWithout(net: Network, plant: Plant, registry: Registry, key: ChainKey)
    requires Sane(net) && Regular(net, plant, registry) && key in registry
    ensures Regular(net, plant, registry - {key})
  {
    hide CompilationOf;
    hide Clean;
    hide EndsOnce;
    hide Transparent;
    forall x | x in registry && x != key
      ensures Clean(CompilationOf(net, registry - {key}, x).hops) || EndsOnce(ChainOf(registry, x))
    {
      CleanSame(net, registry, key, registry[key], x);
    }
  }

  // Both characterisations of a state in which everything works.
  lemma AllWorkIff(net: Network, plant: Plant, nodes: set<Dpid>, links: seq<Link>, registry: Registry, flows: Flows,
                   nextVlanId: Vid)
    requires Sane(net) && Cabled(net, plant, nodes, links) && Inv(net, registry, flows, nextVlanId)
    requires Owned(registry, flows) && Regular(net, plant, registry)
    ensures AllWork(net, plant, registry, flows)
            <==> AllServed(net, registry, flows) && AllClean(net, registry) && NoneCaught(net, plant, registry)
  {
    if AllServed(net, registry, flows) {
      AllImplementedIff(net, plant, nodes, links, registry, flows, nextVlanId);
    }
    hide AllServed;
    hide AllClean;
    hide NoneCaught;
    hide AllImplemented;
  }

  /** Adding a chain keeps all registered chains implemented, itself included, exactly when it keeps them served, its
      own rules do not clash, and it neither catches nor is caught: its vlan id is not the tag exposed behind a chain
      whose last middlebox it leaves, and the tag exposed behind it is not the vlan id of a chain that leaves its last
      middlebox. */
  lemma AddKeepsAllImplementedIff(net: Network, plant: Plant, nodes: set<Dpid>, links: seq<Link>, registry: Registry,
                                  flows: Flows, nextVlanId: Vid, key: ChainKey, data: ChainData)
    requires Sane(net) && Cabled(net, plant, nodes, links) && Inv(net, registry, flows, nextVlanId)
    requires Owned(registry, flows) && Regular(net, plant, registry) && Regular(net, plant, registry[key := data])
    requires AllWork(net, plant, registry, flows)
    requires key.fields != [] && data.vid < nextVlanId && NoVlan(flows, data.vid)
    requires data.fullFlow == CompilationOf(net, registry[key := data], key).fullFlow
    requires forall other :: other in registry ==> registry[other].vid != data.vid
    requires key in registry ==> NoVlan(flows, registry[key].vid)
    ensures var registry' := registry[key := data];
            var c := CompilationOf(net, registry', key);
            AllWork(net, plant, registry', InstallAll(flows, c.rules))
            <==> && c.ok && key.sender in net.hosts && AloneAtPort(net, UntaggedPart(flows), key)
                 && (forall x :: x in registry && x != key ==> Apart(net, key, x))
                 && Untangled(net, plant, registry', key)
  {
    var registry' := registry[key := data];
    AllWorkIff(net, plant, nodes, links, registry, flows, nextVlanId);
    AddKeepsAllServedIff(net, registry, flows, nextVlanId, key, data);
    OneMoreUntangled(net, plant, registry, key, data);
    InstalledInv(net, registry, flows, nextVlanId, key, data);
    hide *;
    AllWorkIff(net, plant, nodes, links, registry', InstallAll(flows, CompilationOf(net, registry', key).rules),
               nextVlanId);
  }

  lemma InstalledInv(net: Network, registry: Registry, flows: Flows, nextVlanId: Vid, key: ChainKey, data: ChainData)
    requires Sane(net) && Inv(net, registry, flows, nextVlanId)
    requires key.fields != [] && data.vid < nextVlanId && NoVlan(flows, data.vid)
    requires data.fullFlow == CompilationOf(net, registry[key := data], key).fullFlow
    requires forall other :: other in registry && other != key ==> registry[other].vid != data.vid
    ensures var registry' := registry[key := data];
            var c := CompilationOf(net, registry', key);
            && Inv(net, registry', InstallAll(flows, c.rules), nextVlanId)
            && (Owned(registry, flows) && (key in registry ==> NoVlan(flows, registry[key].vid)) ==>
                Owned(registry', InstallAll(flows, c.rules)))
  {
    var chain, fields := Split(data.chain), FullMatch(key.fields);
    var c := CompilationOf(net, registry[key := data], key);
    CompileRecords(net, key.sender, chain, data.vid, fields);
    UnknownSender(net, key.sender, chain, data.vid, fields);
    hide Compile;
    InstallKeepsInv(net, registry, flows, nextVlanId, key, data, c, fields);
    if Owned(registry, flows) {
      InstallOwnedIff(net, registry, flows, nextVlanId, key, data, c, fields);
    }
    hide Inv;
    hide Owned;
    hide InstallAll;
  }

  /** Removing a chain keeps all others implemented exactly when it hits none of their tagging rules; it never opens a
      way behind a chain. */
  lemma RemoveKeepsAllImplementedIff(net: Network, plant: Plant, nodes: set<Dpid>, links: seq<Link>, registry: Registry,
                                     flows: Flows, nextVlanId: Vid, r: ChainKey, sender: Dpid)
    requires Sane(net) && Cabled(net, plant, nodes, links) && Inv(net, registry, flows, nextVlanId)
    requires Owned(registry, flows) && Regular(net, plant, registry) && AllWork(net, plant, registry, flows)
    requires r in registry
    ensures AllWork(net, plant, registry - {r}, Uninstalled(registry, flows, r, sender, FullMatch(r.fields)))
            <==> forall x :: x in registry && x != r ==> Spares(net, registry, r, sender, x)
  {
    AllWorkIff(net, plant, nodes, links, registry, flows, nextVlanId);
    RemoveKeepsAllServedIff(net, registry, flows, nextVlanId, r, sender);
    OneLessUntangled(net, plant, registry, r);
    RegularWithout(net, plant, registry, r);
    RemovedInv(net, registry, flows, nextVlanId, r, sender);
    hide *;
    AllWorkIff(net, plant, nodes, links, registry - {r}, Uninstalled(registry, flows, r, sender, FullMatch(r.fields)),
               nextVlanId);
  }

  lemma RemovedInv(net: Network, registry: Registry, flows: Flows, nextVlanId: Vid, r: ChainKey, sender: Dpid)
    requires Inv(net, registry, flows, nextVlanId) && Owned(registry, flows) && r in registry
    ensures var gone := Uninstalled(registry, flows, r, sender, FullMatch(r.fields));
            && Inv(net, registry, gone, nextVlanId) && Owned(registry, gone) && NoVlan(gone, registry[r].vid)
            && Inv(net, registry - {r}, gone, nextVlanId) && Owned(registry - {r}, gone)
  {
    FullMatchNonempty(r.fields);
    UninstallClears(net, registry, flows, nextVlanId, r, sender, FullMatch(r.fields));
    UninstallOwned(net, registry, flows, nextVlanId, r, sender, FullMatch(r.fields));
    hide Uninstalled;
    hide Owned;
    hide AtHost;
  }

  /** Re-installing a chain from another text under its vlan id keeps all chains implemented exactly when it keeps them
      served, its rules do not clash, and it neither catches nor is caught. */
  lemma ExchangeKeepsAllImplementedIff(net: Network, plant: Plant, nodes: set<Dpid>, links: seq<Link>,
                                       registry: Registry, flows: Flows, nextVlanId: Vid, r: ChainKey, sender: Dpid,
                                       data: ChainData)
    requires Sane(net) && Cabled(net, plant, nodes, links) && Inv(net, registry, flows, nextVlanId)
    requires Owned(registry, flows) && Regular(net, plant, registry) && Regular(net, plant, registry[r := data])
    requires AllWork(net, plant, registry, flows) && r in registry && data.vid == registry[r].vid
    requires data.fullFlow == CompilationOf(net, registry[r := data], r).fullFlow
    ensures var registry' := registry[r := data];
            var c := CompilationOf(net, registry', r);
            var gone := Uninstalled(registry, flows, r, sender, FullMatch(r.fields));
            AllWork(net, plant, registry', InstallAll(gone, c.rules))
            <==> && c.ok && r.sender in net.hosts && AloneAtPort(net, UntaggedPart(gone), r)
                 && (forall x :: x in registry && x != r ==> Spares(net, registry, r, sender, x) && Apart(net, r, x))
                 && Untangled(net, plant, registry', r)
  {
    var registry', gone := registry[r := data], Uninstalled(registry, flows, r, sender, FullMatch(r.fields));
    AllWorkIff(net, plant, nodes, links, registry, flows, nextVlanId);
    ExchangeKeepsAllServedIff(net, registry, flows, nextVlanId, r, sender, data);
    OneMoreUntangled(net, plant, registry, r, data);
    RemovedInv(net, registry, flows, nextVlanId, r, sender);
    VidInUse(net, registry, flows, nextVlanId, r);
    InstalledInv(net, registry, gone, nextVlanId, r, data);
    hide *;
    AllWorkIff(net, plant, nodes, links, registry', InstallAll(gone, CompilationOf(net, registry', r).rules),
               nextVlanId);
  }

  lemma VidInUse(net: Network, registry: Registry, flows: Flows, nextVlanId: Vid, r: ChainKey)
    requires Inv(net, registry, flows, nextVlanId) && r in registry
    ensures registry[r].vid < nextVlanId && r.fields != []
    ensures forall other :: other in registry && other != r ==> registry[other].vid != registry[r].vid
  {
  }

  // ---------------------------------------------------------------- adding a chain and removing it again

  lemma TaggingIsRecorded(net: Network, key: ChainKey, chain: seq<Name>, vid: Vid)
    requires Sane(net) && chain != []
    ensures var c := Compile(net, key.sender, chain, vid, FullMatch(key.fields));
            TaggingRecorded(c.fullFlow) <==> c.rules != []
  {
    var fields := FullMatch(key.fields);
    var c := CompileFirst(net, key.sender, chain[0], vid, fields);
    FirstOkIff(net, key.sender, chain[0], vid, fields);
    FirstRecords(net, key.sender, chain[0], vid, fields);
    hide CompileFirst;
    hide CompileRest;
    hide FullMatch;
  }

  lemma FirstRecords(net: Network, sender: Name, mb: Name, vid: Vid, fields: Fields)
    requires Sane(net)
    ensures var c := CompileFirst(net, sender, mb, vid, fields);
            if c.ok then c.rules != [] && c.fullFlow != [] && c.fullFlow[0].Switch? else c.fullFlow == []
  {
    if sender in net.hosts && mb in net.mbs && SegmentBetween(net, net.hosts[sender], mb).Some? {
      SegmentNonempty(net, net.hosts[sender], mb);
    }
    hide SegmentBetween;
  }

  // An untagged rule on the switch whose match includes the fields.
  predicate Includes(k: FlowKey, dpid: Dpid, fields: Fields) {
    k.match_.vlan.None? && k.dpid == dpid && Fits(fields, k.match_.fields)
  }

  /** Adding a chain and removing it again leaves the tables as they were, except that the untagged rules on the
      sender's switch whose matches include its fields are gone, the chain's own among them, if it had rules at all. */
  lemma AddThenRemove(net: Network, registry: Registry, flows: Flows, nextVlanId: Vid, key: ChainKey, data: ChainData)
    requires Sane(net) && Inv(net, registry, flows, nextVlanId)
    requires key.fields != [] && data.vid < nextVlanId && NoVlan(flows, data.vid)
    requires data.fullFlow == CompilationOf(net, registry[key := data], key).fullFlow && key.sender in net.hosts
    requires forall other :: other in registry && other != key ==> registry[other].vid != data.vid
    ensures var registry' := registry[key := data];
            var rules, sender := CompilationOf(net, registry', key).rules, net.hosts[key.sender].dpid;
            var after := Uninstalled(registry', InstallAll(flows, rules), key, sender, FullMatch(key.fields));
            && (forall k :: k in after <==>
                  k in flows && (rules == [] || !Includes(k, sender, FullMatch(key.fields))))
            && (forall k :: k in after ==> k in flows && after[k] == flows[k])
  {
    var registry' := registry[key := data];
    var rules, sender := CompilationOf(net, registry', key).rules, net.hosts[key.sender].dpid;
    var fields, installed := FullMatch(key.fields), InstallAll(flows, rules);
    var after := Uninstalled(registry', installed, key, sender, fields);
    InstalledInv(net, registry, flows, nextVlanId, key, data);
    CompilationPuts(net, registry', key);
    TaggingIsRecorded(net, key, Split(data.chain), data.vid);
    FullMatchNonempty(key.fields);
    UninstallClears(net, registry', installed, nextVlanId, key, sender, fields);
    UninstallUntagged(registry', installed, key, sender, fields);
    hide *;
    forall k
      ensures k in after <==> k in flows && (rules == [] || !Includes(k, sender, fields))
      ensures k in after ==> k in flows && after[k] == flows[k]
    {
      AddThenRemoveAt(net, flows, key, data.vid, data.fullFlow, rules, installed, after, fields, k);
    }
  }

  lemma AddThenRemoveAt(net: Network, flows: Flows, key: ChainKey, vid: Vid, fullFlow: seq<FlowEntry>, rules: seq<Rule>,
                        installed: Flows, after: Flows, fields: Fields, k: FlowKey)
    requires key.sender in net.hosts && Puts(net, key, vid, rules) && NoVlan(flows, vid)
    requires fields == FullMatch(key.fields)
    requires installed == InstallAll(flows, rules) && (TaggingRecorded(fullFlow) <==> rules != [])
    requires VlanPart(after) == WithoutVid(VlanPart(installed), vid)
    requires UntaggedPart(after)
          == if TaggingRecorded(fullFlow) then
               DeleteFields(UntaggedPart(installed), net.hosts[key.sender].dpid, fields)
             else UntaggedPart(installed)
    ensures k in after <==> k in flows && (rules == [] || !Includes(k, net.hosts[key.sender].dpid, fields))
    ensures k in after ==> k in flows && after[k] == flows[k]
  {
    if k.match_.vlan.Some? {
      assert k in after <==> k in VlanPart(after);
      assert k in installed <==> k in VlanPart(installed);
      if k.match_.vlan != Some(vid) {
        InstallKeeps(flows, rules, k);
      }
    } else {
      assert k in after <==> k in UntaggedPart(after);
      if rules != [] {
        FitsItself(fields);
        InstallUntagged(flows, rules, TaggingKey(net, key), vid);
      }
    }
    hide InstallAll;
    hide Fits;
  }

  // ---------------------------------------------------------------- what is recorded of a chain

  function SwitchesIn(entries: seq<FlowEntry>): seq<Dpid> {
    if entries == [] then []
    else
      var last := entries[|entries| - 1];
      SwitchesIn(entries[..|entries| - 1]) + if last.Switch? then [last.dpid] else []
  }

  function MarkersIn(entries: seq<FlowEntry>): seq<Name> {
    if entries == [] then []
    else
      var last := entries[|entries| - 1];
      MarkersIn(entries[..|entries| - 1]) + if last.Marker? then [last.name] else []
  }

  function DpidsOf(hops: seq<Hop>): (dpids: seq<Dpid>)
    ensures |dpids| == |hops| && forall i :: 0 <= i < |hops| ==> dpids[i] == hops[i].dpid
  {
    seq(|hops|, i requires 0 <= i < |hops| => hops[i].dpid)
  }

  lemma EntriesSnoc(entries: seq<FlowEntry>, e: FlowEntry)
    ensures SwitchesIn(entries + [e]) == SwitchesIn(entries) + if e.Switch? then [e.dpid] else []
    ensures MarkersIn(entries + [e]) == MarkersIn(entries) + if e.Marker? then [e.name] else []
  {
    assert (entries + [e])[..|entries|] == entries;
  }

  lemma NoEntries()
    ensures SwitchesIn([]) == [] && MarkersIn([]) == []
  {
  }

  lemma {:induction false} EntriesAppend(a: seq<FlowEntry>, b: seq<FlowEntry>)
    ensures SwitchesIn(a + b) == SwitchesIn(a) + SwitchesIn(b) && MarkersIn(a + b) == MarkersIn(a) + MarkersIn(b)
  {
    hide *;
    if b == [] {
      NoEntries();
      assert a + b == a;
    } else {
      var front, e := b[..|b| - 1], b[|b| - 1];
      EntriesAppend(a, front);
      EntriesSnoc(a + front, e);
      EntriesSnoc(front, e);
      assert a + b == a + front + [e] && b == front + [e];
    }
  }

  lemma {:induction false} SwitchEntries(hops: seq<Hop>)
    ensures SwitchesIn(SwitchesOf(hops)) == DpidsOf(hops) && MarkersIn(SwitchesOf(hops)) == []
  {
    NoEntries();
    if hops != [] {
      var front := hops[..|hops| - 1];
      SwitchEntries(front);
      EntriesSnoc(SwitchesOf(front), Switch(hops[|hops| - 1].dpid));
      assert SwitchesOf(hops) == SwitchesOf(front) + [Switch(hops[|hops| - 1].dpid)];
      assert DpidsOf(hops) == DpidsOf(front) + [hops[|hops| - 1].dpid];
    }
    hide SwitchesIn;
    hide MarkersIn;
  }

  lemma OneMarker(name: Name)
    ensures SwitchesIn([Marker(name)]) == [] && MarkersIn([Marker(name)]) == [name]
  {
    NoEntries();
    EntriesSnoc([], Marker(name));
    assert [] + [Marker(name)] == [Marker(name)];
  }

  // What a compiled part records: its switches in the order of its hops, and where its segments start.
  predicate RecordsHops(c: Compiled, markers: seq<Name>) {
    SwitchesIn(c.fullFlow) == DpidsOf(c.hops) && MarkersIn(c.fullFlow) == markers
  }

  lemma BetweenRecords(net: Network, src: Name, dst: Name, vid: Vid, pop: bool)
    requires Sane(net) && src in net.mbs && CompileBetween(net, src, dst, vid, pop).ok
    ensures RecordsHops(CompileBetween(net, src, dst, vid, pop), [src])
  {
    var c := CompileBetween(net, src, dst, vid, pop);
    SwitchEntries(c.hops);
    OneMarker(src);
    EntriesAppend([Marker(src)], SwitchesOf(c.hops));
    hide SwitchesIn;
    hide MarkersIn;
    hide SegmentBetween;
  }

  lemma JoinRecords(c: Compiled, d: Compiled, a: seq<Name>, b: seq<Name>)
    requires RecordsHops(c, a) && RecordsHops(d, b)
    ensures RecordsHops(Join(c, d), a + b)
  {
    EntriesAppend(c.fullFlow, d.fullFlow);
    hide SwitchesIn;
    hide MarkersIn;
  }

  lemma {:induction false} RestRecords(net: Network, chain: seq<Name>, i: nat, vid: Vid)
    requires Sane(net) && i < |chain| && chain[i] in net.mbs && CompileRest(net, chain, i, vid).ok
    ensures RecordsHops(CompileRest(net, chain, i, vid), chain[i..|chain| - 1])
    decreases |chain| - i
  {
    if i + 1 < |chain| {
      var pop := i + 2 == |chain|;
      var c, d := CompileBetween(net, chain[i], chain[i + 1], vid, pop), CompileRest(net, chain, i + 1, vid);
      BetweenRecords(net, chain[i], chain[i + 1], vid, pop);
      BetweenIsStretch(net, chain[i], chain[i + 1], vid, pop);
      hide CompileBetween;
      hide RecordsHops;
      hide Stretch;
      RestRecords(net, chain, i + 1, vid);
      JoinRecords(c, d, [chain[i]], chain[i + 1..|chain| - 1]);
      assert chain[i..|chain| - 1] == [chain[i]] + chain[i + 1..|chain| - 1];
    } else {
      assert chain[i..|chain| - 1] == [];
    }
  }

  /** The record of a chain lists the switches of its hops in order, each segment behind the name of where it starts. */
  lemma CompileRecordsHops(net: Network, sender: Name, chain: seq<Name>, vid: Vid, fields: Fields)
    requires Sane(net) && chain != [] && Compile(net, sender, chain, vid, fields).ok
    ensures RecordsHops(Compile(net, sender, chain, vid, fields), [sender] + chain[..|chain| - 1])
  {
    var c, d := CompileFirst(net, sender, chain[0], vid, fields), CompileRest(net, chain, 0, vid);
    FirstReaches(net, sender, chain[0], vid, fields);
    RestRecords(net, chain, 0, vid);
    FirstRecordsHops(net, sender, chain[0], vid, fields);
    StartRecords(sender);
    JoinRecords(c, d, [], chain[0..|chain| - 1]);
    JoinRecords(Compiled([], [Marker(sender)], [], true), Join(c, d), [sender], [] + chain[0..|chain| - 1]);
    hide CompileFirst;
    hide CompileRest;
    hide RecordsHops;
    assert [] + chain[0..|chain| - 1] == chain[..|chain| - 1];
  }

  lemma FirstRecordsHops(net: Network, sender: Name, mb: Name, vid: Vid, fields: Fields)
    requires Sane(net) && CompileFirst(net, sender, mb, vid, fields).ok
    ensures RecordsHops(CompileFirst(net, sender, mb, vid, fields), [])
  {
    SwitchEntries(CompileFirst(net, sender, mb, vid, fields).hops);
    hide SegmentBetween;
    hide SwitchesIn;
    hide MarkersIn;
  }

  lemma StartRecords(sender: Name)
    ensures RecordsHops(Compiled([], [Marker(sender)], [], true), [sender])
  {
    OneMarker(sender);
    assert DpidsOf([]) == [];
  }
}
