/** Which flow rules belong to which chain: removal by the recorded full flow, and the invariant that makes it
    complete. */
module ChainRules {
  import opened SwitchGraph
  import opened ChainRoute
  import opened ChainCompiler
  import opened PacketJourney

  // ---------------------------------------------------------------- match fields

  // The match dictionary of a list of user fields, with the protocol fields they imply.
  function FullMatch(fields: seq<(string, string)>): Fields {
    if fields == [] then map[]
    else
      var (name, value) := fields[|fields| - 1];
      WithImplied(FullMatch(fields[..|fields| - 1])[name := value], name)
  }

  function WithImplied(m: Fields, name: string): Fields {
    if name == "tp_dst" || name == "tp_src" then m["nw_proto" := "6"]["dl_type" := "2048"]
    else if name == "nw_src" || name == "nw_dst" then m["dl_type" := "2048"]
    else m
  }

  // A user field sets its own name; a port sets the protocol to TCP, and ports and addresses set the type to IP.
  predicate Sets(field: string, name: string) {
    || field == name
    || (name == "nw_proto" && (field == "tp_dst" || field == "tp_src"))
    || (name == "dl_type" && (field == "tp_dst" || field == "tp_src" || field == "nw_src" || field == "nw_dst"))
  }

  function ValueSet(entry: (string, string), name: string): string {
    if entry.0 == name then entry.1 else if name == "nw_proto" then "6" else "2048"
  }

  // The last of the fields that sets the name.
  predicate LastSets(fields: seq<(string, string)>, i: nat, name: string) {
    i < |fields| && Sets(fields[i].0, name) && forall j :: i < j < |fields| ==> !Sets(fields[j].0, name)
  }

  // A name is matched on exactly when some field sets it, with the value that the last of these gives it.
  ghost predicate MatchesFields(m: Fields, fields: seq<(string, string)>) {
    && (forall name :: name in m ==> exists i :: 0 <= i < |fields| && Sets(fields[i].0, name))
    && (forall i: nat, name :: LastSets(fields, i, name) ==> name in m && m[name] == ValueSet(fields[i], name))
  }

  /** The match of a list of fields, protocol fields included. */
  lemma {:induction false} FullMatchIs(fields: seq<(string, string)>)
    ensures MatchesFields(FullMatch(fields), fields)
  {
    if fields != [] {
      FullMatchIs(fields[..|fields| - 1]);
      OneMoreField(FullMatch(fields[..|fields| - 1]), fields[..|fields| - 1], fields[|fields| - 1]);
      assert fields[..|fields| - 1] + [fields[|fields| - 1]] == fields;
    }
    hide MatchesFields;
    hide WithImplied;
  }

  lemma OneMoreField(m: Fields, before: seq<(string, string)>, entry: (string, string))
    requires MatchesFields(m, before)
    ensures MatchesFields(WithImplied(m[entry.0 := entry.1], entry.0), before + [entry])
  {
    var m', fields := WithImplied(m[entry.0 := entry.1], entry.0), before + [entry];
    assert fields[|before|] == entry && forall i :: 0 <= i < |before| ==> fields[i] == before[i];
    forall name
      ensures Sets(entry.0, name) ==> name in m' && m'[name] == ValueSet(entry, name)
      ensures !Sets(entry.0, name) ==> (name in m' <==> name in m) && (name in m ==> m'[name] == m[name])
    {
    }
    hide WithImplied;
    hide Sets;
    hide ValueSet;
    forall name | name in m' ensures exists i :: 0 <= i < |fields| && Sets(fields[i].0, name) {
      if !Sets(entry.0, name) {
        var i :| 0 <= i < |before| && Sets(before[i].0, name);
        assert Sets(fields[i].0, name);
      }
    }
    forall i: nat, name | LastSets(fields, i, name) ensures name in m' && m'[name] == ValueSet(fields[i], name) {
      if i < |before| {
        assert !Sets(fields[|before|].0, name);
        assert LastSets(before, i, name);
      }
    }
  }

  method GetFullMatchFields(matchFields: seq<(string, string)>) returns (m: Fields)
    ensures m == FullMatch(matchFields)
    ensures MatchesFields(m, matchFields)
    ensures matchFields != [] ==> m != map[]
  {
    m := map[];
    for i := 0 to |matchFields|
      invariant m == FullMatch(matchFields[..i])
    {
      assert matchFields[..i + 1][..i] == matchFields[..i];
      m := m[matchFields[i].0 := matchFields[i].1];
      if matchFields[i].0 == "tp_dst" || matchFields[i].0 == "tp_src" {
        m := m["nw_proto" := "6"];
        m := m["dl_type" := "2048"];
      } else if matchFields[i].0 == "nw_src" || matchFields[i].0 == "nw_dst" {
        m := m["dl_type" := "2048"];
      }
    }
    assert matchFields[..|matchFields|] == matchFields;
    FullMatchIs(matchFields);
    if matchFields != [] {
      FullMatchNonempty(matchFields);
    }
  }

  lemma FullMatchNonempty(fields: seq<(string, string)>)
    requires fields != []
    ensures FullMatch(fields) != map[]
  {
    assert fields[|fields| - 1].0 in FullMatch(fields);
  }

  // ---------------------------------------------------------------- removal

  // A delete request removes every rule whose match is at least as specific as its description.
  function DeleteVlan(flows: Flows, dpid: Dpid, vid: Vid): Flows {
    map k | k in flows && !(k.dpid == dpid && k.match_.vlan == Some(vid)) :: flows[k]
  }

  function DeleteFields(flows: Flows, dpid: Dpid, fields: Fields): Flows {
    map k | k in flows && !(k.dpid == dpid && Fits(fields, k.match_.fields)) :: flows[k]
  }

  // Entry i of a full flow: names are passed over, entry 1 stands for the tagging rule at the sender's switch.
  function RemoveEntry(flows: Flows, fullFlow: seq<FlowEntry>, i: nat, vid: Vid, sender: Dpid, fields: Fields): Flows
    requires i < |fullFlow|
  {
    match fullFlow[i]
    case Marker(_) => flows
    case Switch(dpid) => if i == 1 then DeleteFields(flows, sender, fields) else DeleteVlan(flows, dpid, vid)
  }

  function Removed(flows: Flows, fullFlow: seq<FlowEntry>, n: nat, vid: Vid, sender: Dpid, fields: Fields): Flows
    requires n <= |fullFlow|
  {
    if n == 0 then flows
    else RemoveEntry(Removed(flows, fullFlow, n - 1, vid, sender, fields), fullFlow, n - 1, vid, sender, fields)
  }

  predicate Hit(k: FlowKey, fullFlow: seq<FlowEntry>, i: nat, vid: Vid, sender: Dpid, fields: Fields)
    requires i < |fullFlow|
  {
    fullFlow[i].Switch?
    && if i == 1 then k.dpid == sender && Fits(fields, k.match_.fields)
       else k.dpid == fullFlow[i].dpid && k.match_.vlan == Some(vid)
  }

  /** A rule survives the removal, unchanged, exactly when no entry of the full flow hits it. */
  lemma {:induction false} RemovedAre(flows: Flows, fullFlow: seq<FlowEntry>, n: nat, vid: Vid, sender: Dpid,
                                      fields: Fields, k: FlowKey)
    requires n <= |fullFlow|
    ensures k in Removed(flows, fullFlow, n, vid, sender, fields) <==>
            k in flows && forall i :: 0 <= i < n ==> !Hit(k, fullFlow, i, vid, sender, fields)
    ensures k in Removed(flows, fullFlow, n, vid, sender, fields) ==>
              Removed(flows, fullFlow, n, vid, sender, fields)[k] == flows[k]
  {
    if n > 0 {
      RemovedAre(flows, fullFlow, n - 1, vid, sender, fields, k);
      RemoveEntryIs(Removed(flows, fullFlow, n - 1, vid, sender, fields), fullFlow, n - 1, vid, sender, fields, k);
    }
  }

  lemma RemoveEntryIs(flows: Flows, fullFlow: seq<FlowEntry>, i: nat, vid: Vid, sender: Dpid, fields: Fields,
                      k: FlowKey)
    requires i < |fullFlow|
    ensures k in RemoveEntry(flows, fullFlow, i, vid, sender, fields) <==>
            k in flows && !Hit(k, fullFlow, i, vid, sender, fields)
    ensures k in RemoveEntry(flows, fullFlow, i, vid, sender, fields) ==>
              RemoveEntry(flows, fullFlow, i, vid, sender, fields)[k] == flows[k]
  {
  }

  // ---------------------------------------------------------------- the registry and its invariant

  datatype ChainKey = ChainKey(sender: Name, chain: string, fields: seq<(string, string)>)
  datatype ChainData = ChainData(chain: string, vid: Vid, fullFlow: seq<FlowEntry>)

  type Registry = map<ChainKey, ChainData>

  predicate RecordedFrom(fullFlow: seq<FlowEntry>, from: nat, dpid: Dpid) {
    exists i :: from <= i < |fullFlow| && fullFlow[i] == Switch(dpid)
  }

  predicate TaggedRule(k: FlowKey) { k.match_.vlan.Some? && k.match_.inPort.Some? && k.match_.fields == map[] }

  // Rules are tagged rules with a vlan id handed out so far, or untagged ones at a host's port.
  ghost predicate RulesShaped(net: Network, flows: Flows, nextVlanId: Vid) {
    forall k :: k in flows ==>
      if k.match_.vlan.Some? then TaggedRule(k) && k.match_.vlan.value < nextVlanId else AtHost(net, k)
  }

  // A chain of an unknown sender got no further than its sender's marker.
  ghost predicate Registered(net: Network, registry: Registry, nextVlanId: Vid) {
    && (forall key :: key in registry ==> registry[key].vid < nextVlanId && key.fields != [])
    && (forall key :: key in registry && key.sender !in net.hosts ==> |registry[key].fullFlow| <= 1)
    && (forall a, b :: a in registry && b in registry && a != b ==> registry[a].vid != registry[b].vid)
  }

  // Every switch holding a rule with a registered chain's vlan id is in that chain's full flow, past its first switch.
  ghost predicate Recorded(registry: Registry, flows: Flows) {
    forall key, k :: key in registry && k in flows && k.match_.vlan == Some(registry[key].vid) ==>
      RecordedFrom(registry[key].fullFlow, 2, k.dpid)
  }

  ghost predicate Inv(net: Network, registry: Registry, flows: Flows, nextVlanId: Vid) {
    RulesShaped(net, flows, nextVlanId) && Registered(net, registry, nextVlanId) && Recorded(registry, flows)
  }

  // ---- uninstalling

  ghost predicate NoVlan(flows: Flows, vid: Vid) { forall k :: k in flows ==> k.match_.vlan != Some(vid) }

  // The tagged rules of a set of tables.
  function VlanPart(flows: Flows): Flows { map k | k in flows && k.match_.vlan.Some? :: flows[k] }

  function WithoutVid(flows: Flows, vid: Vid): Flows { map k | k in flows && k.match_.vlan != Some(vid) :: flows[k] }

  function Uninstalled(registry: Registry, flows: Flows, key: ChainKey, sender: Dpid, fields: Fields): Flows
    requires key in registry
  {
    Removed(flows, registry[key].fullFlow, |registry[key].fullFlow|, registry[key].vid, sender, fields)
  }

  /** After a chain is uninstalled no rule with its vlan id is left on any switch, every tagged rule of every other vlan
      id is as it was, and the invariant holds. */
  lemma UninstallClears(net: Network, registry: Registry, flows: Flows, nextVlanId: Vid, key: ChainKey, sender: Dpid,
                        fields: Fields)
    requires Inv(net, registry, flows, nextVlanId) && key in registry && fields != map[]
    ensures var after := Uninstalled(registry, flows, key, sender, fields);
            && NoVlan(after, registry[key].vid)
            && VlanPart(after) == WithoutVid(VlanPart(flows), registry[key].vid)
            && Inv(net, registry, after, nextVlanId)
  {
    var after := Uninstalled(registry, flows, key, sender, fields);
    var vid, fullFlow := registry[key].vid, registry[key].fullFlow;
    forall k ensures k in after ==> k in flows && after[k] == flows[k] && k.match_.vlan != Some(vid) {
      RemovedAre(flows, fullFlow, |fullFlow|, vid, sender, fields, k);
      if k in after && k.match_.vlan == Some(vid) {
        assert RecordedFrom(fullFlow, 2, k.dpid);
        var i :| 2 <= i < |fullFlow| && fullFlow[i] == Switch(k.dpid);
        assert Hit(k, fullFlow, i, vid, sender, fields);
      }
    }
    forall k | k in flows && k.match_.vlan.Some? && k.match_.vlan != Some(vid) ensures k in after {
      RemovedAre(flows, fullFlow, |fullFlow|, vid, sender, fields, k);
      NonemptyMisses(fields, k);
    }
  }

  lemma NonemptyMisses(fields: Fields, k: FlowKey)
    requires fields != map[] && k.match_.fields == map[]
    ensures !Fits(fields, k.match_.fields)
  {
    var f :| f in fields;
  }

  /** The removal by match fields looks at neither port nor chain: an untagged rule goes exactly when it sits on the
      sender's switch and its match includes the chain's fields, whichever host it was installed for. */
  lemma UninstallTakesUntaggedIff(registry: Registry, flows: Flows, key: ChainKey, sender: Dpid, fields: Fields,
                                  k: FlowKey)
    requires key in registry && k in flows && k.match_.vlan.None?
    requires |registry[key].fullFlow| > 1 && registry[key].fullFlow[1].Switch?
    ensures k !in Uninstalled(registry, flows, key, sender, fields) <==>
              k.dpid == sender && Fits(fields, k.match_.fields)
  {
    var fullFlow, vid := registry[key].fullFlow, registry[key].vid;
    RemovedAre(flows, fullFlow, |fullFlow|, vid, sender, fields, k);
    assert Hit(k, fullFlow, 1, vid, sender, fields) <==> k.dpid == sender && Fits(fields, k.match_.fields);
  }

  // ---- installing

  // Every rule of a compilation is tagged and its switch recorded, or it is the tagging rule at the sender's port.
  ghost predicate RuleRecorded(net: Network, r: Rule, fullFlow: seq<FlowEntry>, from: nat, sender: Name, vid: Vid,
                               fields: Fields) {
    || (TaggedRule(r.key) && r.key.match_.vlan == Some(vid) && RecordedFrom(fullFlow, from, r.key.dpid))
    || (&& sender in net.hosts
        && r.key == FlowKey(net.hosts[sender].dpid, Match(Some(net.hosts[sender].port), None, fields)))
  }

  ghost predicate AllRecorded(net: Network, c: Compiled, from: nat, sender: Name, vid: Vid, fields: Fields) {
    forall i :: 0 <= i < |c.rules| ==> RuleRecorded(net, c.rules[i], c.fullFlow, from, sender, vid, fields)
  }

  lemma RecordedInJoin(a: seq<FlowEntry>, b: seq<FlowEntry>, from: nat, dpid: Dpid)
    ensures RecordedFrom(a, from, dpid) ==> RecordedFrom(a + b, from, dpid)
    ensures RecordedFrom(b, 0, dpid) && from <= |a| ==> RecordedFrom(a + b, from, dpid)
  {
    if i :| from <= i < |a| && a[i] == Switch(dpid) {
      assert (a + b)[i] == Switch(dpid);
    }
    if i :| 0 <= i < |b| && b[i] == Switch(dpid) {
      assert (a + b)[|a| + i] == Switch(dpid);
    }
  }

  lemma JoinRecorded(net: Network, a: Compiled, b: Compiled, from: nat, sender: Name, vid: Vid, fields: Fields)
    requires AllRecorded(net, a, from, sender, vid, fields) && AllRecorded(net, b, 0, sender, vid, fields)
    requires from <= |a.fullFlow|
    ensures AllRecorded(net, Join(a, b), from, sender, vid, fields)
  {
    var c := Join(a, b);
    forall i | 0 <= i < |c.rules| ensures RuleRecorded(net, c.rules[i], c.fullFlow, from, sender, vid, fields) {
      RecordedInJoin(a.fullFlow, b.fullFlow, from, c.rules[i].key.dpid);
      if i < |a.rules| {
        assert RuleRecorded(net, a.rules[i], a.fullFlow, from, sender, vid, fields);
      } else {
        assert RuleRecorded(net, b.rules[i - |a.rules|], b.fullFlow, 0, sender, vid, fields);
      }
    }
  }

  lemma BetweenRecorded(net: Network, src: Name, dst: Name, vid: Vid, pop: bool, sender: Name, fields: Fields)
    requires Sane(net)
    ensures AllRecorded(net, CompileBetween(net, src, dst, vid, pop), 0, sender, vid, fields)
  {
    var c := CompileBetween(net, src, dst, vid, pop);
    forall i | 0 <= i < |c.rules| ensures RuleRecorded(net, c.rules[i], c.fullFlow, 0, sender, vid, fields) {
      SegmentNonempty(net, net.mbs[src], dst);
      assert c.fullFlow[i + 1] == Switch(c.rules[i].key.dpid);
    }
  }

  lemma {:induction false} RestRecorded(net: Network, chain: seq<Name>, i: nat, vid: Vid, sender: Name, fields: Fields)
    requires Sane(net)
    ensures AllRecorded(net, CompileRest(net, chain, i, vid), 0, sender, vid, fields)
    decreases |chain| - i
  {
    hide CompileBetween;
    hide RuleRecorded;
    if i + 1 < |chain| {
      var c := CompileBetween(net, chain[i], chain[i + 1], vid, i + 2 == |chain|);
      BetweenRecorded(net, chain[i], chain[i + 1], vid, i + 2 == |chain|, sender, fields);
      if c.ok {
        RestRecorded(net, chain, i + 1, vid, sender, fields);
        JoinRecorded(net, c, CompileRest(net, chain, i + 1, vid), 0, sender, vid, fields);
      }
    }
  }

  lemma UnknownSender(net: Network, sender: Name, chain: seq<Name>, vid: Vid, fields: Fields)
    requires Sane(net) && chain != []
    ensures sender !in net.hosts ==> |Compile(net, sender, chain, vid, fields).fullFlow| <= 1
  {
    hide CompileRest;
  }

  lemma FirstRecorded(net: Network, sender: Name, mb: Name, vid: Vid, fields: Fields)
    requires Sane(net)
    ensures AllRecorded(net, Join(Compiled([], [Marker(sender)], [], true), CompileFirst(net, sender, mb, vid, fields)),
                        2, sender, vid, fields)
    ensures CompileFirst(net, sender, mb, vid, fields).ok ==> |CompileFirst(net, sender, mb, vid, fields).fullFlow| > 0
  {
    var c := CompileFirst(net, sender, mb, vid, fields);
    if c.ok {
      SegmentIsRoute(net, net.hosts[sender], mb);
      FirstShape(net, sender, mb, vid, fields);
      PushedAndRecorded(net, c.hops, sender, vid, fields);
    }
  }

  lemma FirstShape(net: Network, sender: Name, mb: Name, vid: Vid, fields: Fields)
    requires Sane(net) && CompileFirst(net, sender, mb, vid, fields).ok
    ensures sender in net.hosts && mb in net.mbs && CompileFirst(net, sender, mb, vid, fields).hops != []
    ensures CompileFirst(net, sender, mb, vid, fields)
         == FirstOf(CompileFirst(net, sender, mb, vid, fields).hops, vid, fields)
  {
    SegmentNonempty(net, net.hosts[sender], mb);
  }

  function FirstOf(hops: seq<Hop>, vid: Vid, fields: Fields): Compiled
    requires hops != []
  {
    Compiled([PushRule(hops[0], vid, fields)] + VlanRules(hops[1..], vid), SwitchesOf(hops), hops, true)
  }

  lemma PushedAndRecorded(net: Network, hops: seq<Hop>, sender: Name, vid: Vid, fields: Fields)
    requires hops != [] && sender in net.hosts && Attach(hops[0].dpid, hops[0].inPort) == net.hosts[sender]
    ensures AllRecorded(net, Join(Compiled([], [Marker(sender)], [], true), FirstOf(hops, vid, fields)), 2, sender, vid,
                        fields)
  {
    var d := Join(Compiled([], [Marker(sender)], [], true), FirstOf(hops, vid, fields));
    forall i | 0 <= i < |d.rules| ensures RuleRecorded(net, d.rules[i], d.fullFlow, 2, sender, vid, fields) {
      if i > 0 {
        assert d.rules[i] == VlanRule(hops[1..][i - 1], vid);
        assert d.fullFlow[i + 1] == Switch(d.rules[i].key.dpid);
      }
    }
  }

  /** Whatever part of a chain gets compiled, the full flow records every switch that was given a tagged rule. */
  lemma CompileRecords(net: Network, sender: Name, chain: seq<Name>, vid: Vid, fields: Fields)
    requires Sane(net) && chain != []
    ensures AllRecorded(net, Compile(net, sender, chain, vid, fields), 2, sender, vid, fields)
  {
    hide CompileFirst;
    hide CompileRest;
    hide RuleRecorded;
    var start := Compiled([], [Marker(sender)], [], true);
    var c, d := CompileFirst(net, sender, chain[0], vid, fields), CompileRest(net, chain, 0, vid);
    FirstRecorded(net, sender, chain[0], vid, fields);
    if c.ok {
      RestRecorded(net, chain, 0, vid, sender, fields);
      JoinRecorded(net, Join(start, c), d, 2, sender, vid, fields);
      JoinThree(start, c, d);
    }
  }

  lemma JoinThree(a: Compiled, b: Compiled, c: Compiled)
    ensures Join(a, Join(b, c)) == Join(Join(a, b), c)
  {
    assert a.rules + (b.rules + c.rules) == (a.rules + b.rules) + c.rules;
    assert a.fullFlow + (b.fullFlow + c.fullFlow) == (a.fullFlow + b.fullFlow) + c.fullFlow;
    assert a.hops + (b.hops + c.hops) == (a.hops + b.hops) + c.hops;
  }

  /** Installing under a vlan id that no rule carries and no other chain owns keeps the invariant, even when the
      compilation breaks off. */
  lemma InstallKeepsInv(net: Network, registry: Registry, flows: Flows, nextVlanId: Vid, key: ChainKey, data: ChainData,
                        c: Compiled, fields: Fields)
    requires Inv(net, registry, flows, nextVlanId) && NoVlan(flows, data.vid)
    requires key.fields != [] && data.vid < nextVlanId
    requires forall other :: other in registry && other != key ==> registry[other].vid != data.vid
    requires AllRecorded(net, c, 2, key.sender, data.vid, fields) && data.fullFlow == c.fullFlow
    requires key.sender !in net.hosts ==> |c.fullFlow| <= 1
    ensures Inv(net, registry[key := data], InstallAll(flows, c.rules), nextVlanId)
  {
    var after, registry' := InstallAll(flows, c.rules), registry[key := data];
    forall k | k in after && k !in flows
      ensures || (TaggedRule(k) && k.match_.vlan == Some(data.vid) && RecordedFrom(data.fullFlow, 2, k.dpid))
              || (k.match_.vlan.None? && AtHost(net, k))
    {
      InstalledKeys(flows, c.rules, k);
      var i :| 0 <= i < |c.rules| && c.rules[i].key == k;
      assert RuleRecorded(net, c.rules[i], c.fullFlow, 2, key.sender, data.vid, fields);
    }
    forall other, k | other in registry' && k in after && k.match_.vlan == Some(registry'[other].vid)
      ensures RecordedFrom(registry'[other].fullFlow, 2, k.dpid)
    {
      if other != key {
        assert k in flows;
      }
    }
  }

  // ---- rules that no chain owns

  // Every tagged rule carries the vlan id of a registered chain.
  ghost predicate Owned(registry: Registry, flows: Flows) {
    forall k :: k in flows && k.match_.vlan.Some? ==> OwnedBy(registry, k.match_.vlan.value)
  }

  ghost predicate OwnedBy(registry: Registry, vid: Vid) { exists key :: key in registry && registry[key].vid == vid }

  lemma OwnerOf(registry: Registry, key: ChainKey)
    requires key in registry
    ensures OwnedBy(registry, registry[key].vid)
  {
  }

  /** Registering a chain under a vlan id that nobody carries leaves no rule without an owner exactly when the key was
      not registered before, or no rule is left with the vlan id it had. */
  lemma InstallOwnedIff(net: Network, registry: Registry, flows: Flows, nextVlanId: Vid, key: ChainKey, data: ChainData,
                        c: Compiled, fields: Fields)
    requires Inv(net, registry, flows, nextVlanId) && Owned(registry, flows) && NoVlan(flows, data.vid)
    requires AllRecorded(net, c, 2, key.sender, data.vid, fields)
    ensures Owned(registry[key := data], InstallAll(flows, c.rules))
            <==> key !in registry || NoVlan(flows, registry[key].vid)
  {
    var after, registry' := InstallAll(flows, c.rules), registry[key := data];
    RecordedRulesHaveVid(net, c, 2, key.sender, data.vid, fields);
    forall k ensures k in after <==> k in flows || exists i :: 0 <= i < |c.rules| && c.rules[i].key == k {
      InstalledKeys(flows, c.rules, k);
    }
    if key in registry && !NoVlan(flows, registry[key].vid) {
      var k :| k in flows && k.match_.vlan == Some(registry[key].vid);
      assert k in after && !OwnedBy(registry', k.match_.vlan.value);
    } else {
      OwnerOf(registry', key);
      forall k | k in after && k.match_.vlan.Some? ensures OwnedBy(registry', k.match_.vlan.value) {
        if k in flows {
          var owner :| owner in registry && registry[owner].vid == k.match_.vlan.value;
          assert registry'[owner].vid == k.match_.vlan.value;
        }
      }
    }
  }

  // Uninstalling a chain takes away no other chain's owner.
  lemma UninstallOwned(net: Network, registry: Registry, flows: Flows, nextVlanId: Vid, key: ChainKey, sender: Dpid,
                       fields: Fields)
    requires Inv(net, registry, flows, nextVlanId) && Owned(registry, flows) && key in registry && fields != map[]
    ensures Owned(registry - {key}, Uninstalled(registry, flows, key, sender, fields))
    ensures Owned(registry, Uninstalled(registry, flows, key, sender, fields))
  {
    var after := Uninstalled(registry, flows, key, sender, fields);
    UninstallClears(net, registry, flows, nextVlanId, key, sender, fields);
    forall k | k in after && k.match_.vlan.Some?
      ensures OwnedBy(registry - {key}, k.match_.vlan.value) && OwnedBy(registry, k.match_.vlan.value)
    {
      assert k in VlanPart(after);
      assert k in WithoutVid(VlanPart(flows), registry[key].vid);
      var owner :| owner in registry && registry[owner].vid == k.match_.vlan.value;
      assert owner in registry - {key};
    }
  }

  // ---- the tagged rules after an exchange

  lemma VlanPartOfInstall(flows: Flows, r: Rule)
    ensures VlanPart(Install(flows, r))
         == if r.key.match_.vlan.Some? then Install(VlanPart(flows), r) else VlanPart(flows)
  {
  }

  lemma {:induction false} VlanPartsAgree(a: Flows, b: Flows, rules: seq<Rule>)
    requires VlanPart(a) == VlanPart(b)
    ensures VlanPart(InstallAll(a, rules)) == VlanPart(InstallAll(b, rules))
  {
    if rules != [] {
      var front, r := rules[..|rules| - 1], rules[|rules| - 1];
      VlanPartsAgree(a, b, front);
      VlanPartOfInstall(InstallAll(a, front), r);
      VlanPartOfInstall(InstallAll(b, front), r);
    }
  }

  /** Uninstalling a chain and installing the rules of a compilation under its vlan id leaves, for that vlan id, the
      rules of a fresh installation into empty tables, and for every other vlan id the rules that were there. */
  lemma ReinstallVidParts(net: Network, registry: Registry, flows: Flows, nextVlanId: Vid, key: ChainKey, sender: Dpid,
                          fields: Fields, c: Compiled, other: Vid)
    requires Inv(net, registry, flows, nextVlanId) && key in registry && fields != map[]
    requires AllRecorded(net, c, 2, key.sender, registry[key].vid, fields)
    ensures var after := InstallAll(Uninstalled(registry, flows, key, sender, fields), c.rules);
            && VidPart(after, registry[key].vid) == VidPart(InstallAll(map[], c.rules), registry[key].vid)
            && (other != registry[key].vid ==> VidPart(after, other) == VidPart(flows, other))
  {
    var vid, gone := registry[key].vid, Uninstalled(registry, flows, key, sender, fields);
    UninstallClears(net, registry, flows, nextVlanId, key, sender, fields);
    RecordedRulesHaveVid(net, c, 2, key.sender, vid, fields);
    InstallVidParts(net, gone, c.rules, vid, other);
    if other != vid {
      VidPartOfVlanPart(gone, other);
      VidPartOfVlanPart(flows, other);
      assert VidPart(WithoutVid(VlanPart(flows), vid), other) == VidPart(VlanPart(flows), other);
    }
  }

  /** Uninstalling a chain and installing rules under its vlan id leaves the tagged rules of a fresh installation into
      tables without that vlan id. */
  lemma ReinstallIsFreshInstall(net: Network, registry: Registry, flows: Flows, nextVlanId: Vid, key: ChainKey,
                                sender: Dpid, fields: Fields, rules: seq<Rule>)
    requires Inv(net, registry, flows, nextVlanId) && key in registry && fields != map[]
    ensures VlanPart(InstallAll(Uninstalled(registry, flows, key, sender, fields), rules))
         == VlanPart(InstallAll(WithoutVid(flows, registry[key].vid), rules))
  {
    UninstallClears(net, registry, flows, nextVlanId, key, sender, fields);
    var vid := registry[key].vid;
    assert VlanPart(WithoutVid(flows, vid)) == WithoutVid(VlanPart(flows), vid);
    VlanPartsAgree(Uninstalled(registry, flows, key, sender, fields), WithoutVid(flows, vid), rules);
  }

  // The rules with one vlan id.
  function VidPart(flows: Flows, vid: Vid): Flows { map k | k in flows && k.match_.vlan == Some(vid) :: flows[k] }

  lemma VidPartOfVlanPart(flows: Flows, vid: Vid)
    ensures VidPart(VlanPart(flows), vid) == VidPart(flows, vid)
  {
  }

  // Rules of one vlan id leave those of another alone, and their own do not depend on the rest of the tables.
  lemma {:induction false} InstallVidParts(net: Network, flows: Flows, rules: seq<Rule>, vid: Vid, other: Vid)
    requires forall i :: 0 <= i < |rules| ==> rules[i].key.match_.vlan.None? || rules[i].key.match_.vlan == Some(vid)
    ensures other != vid ==> VidPart(InstallAll(flows, rules), other) == VidPart(flows, other)
    ensures NoVlan(flows, vid) ==> VidPart(InstallAll(flows, rules), vid) == VidPart(InstallAll(map[], rules), vid)
  {
    if rules == [] {
      assert NoVlan(flows, vid) ==> VidPart(flows, vid) == map[];
    } else {
      var front, r := rules[..|rules| - 1], rules[|rules| - 1];
      InstallVidParts(net, flows, front, vid, other);
      VidPartOfInstall(InstallAll(flows, front), r, vid);
      VidPartOfInstall(InstallAll(flows, front), r, other);
      VidPartOfInstall(InstallAll(map[], front), r, vid);
    }
  }

  lemma VidPartOfInstall(flows: Flows, r: Rule, vid: Vid)
    ensures VidPart(Install(flows, r), vid)
         == if r.key.match_.vlan == Some(vid) then Install(VidPart(flows, vid), r) else VidPart(flows, vid)
  {
  }

  lemma RecordedRulesHaveVid(net: Network, c: Compiled, from: nat, sender: Name, vid: Vid, fields: Fields)
    requires AllRecorded(net, c, from, sender, vid, fields)
    ensures forall i :: 0 <= i < |c.rules| ==>
              c.rules[i].key.match_.vlan.None? || c.rules[i].key.match_.vlan == Some(vid)
  {
    forall i | 0 <= i < |c.rules| ensures c.rules[i].key.match_.vlan.None? || c.rules[i].key.match_.vlan == Some(vid) {
      assert RuleRecorded(net, c.rules[i], c.fullFlow, from, sender, vid, fields);
    }
  }

  /** The tables of a running server are foreign to a chain whose vlan id they do not carry, provided no other rule at
      the sender's port catches the packet. */
  lemma InvIsForeign(net: Network, registry: Registry, flows: Flows, nextVlanId: Vid, sender: Name, vid: Vid,
                     fields: Fields, packet: Fields)
    requires Inv(net, registry, flows, nextVlanId) && NoVlan(flows, vid) && sender in net.hosts
    ensures Foreign(net, flows, sender, vid, fields, packet) <==>
            forall k :: k in flows && k.match_.vlan.None? && k.dpid == net.hosts[sender].dpid
                        && k.match_.inPort == Some(net.hosts[sender].port) && Fits(k.match_.fields, packet)
                        ==> k.match_.fields == fields
  {
    if Foreign(net, flows, sender, vid, fields, packet) {
      forall k | k in flows && k.match_.vlan.None? && k.dpid == net.hosts[sender].dpid
                 && k.match_.inPort == Some(net.hosts[sender].port) && Fits(k.match_.fields, packet)
        ensures k.match_.fields == fields
      {
        assert Attach(k.dpid, k.match_.inPort.value) == net.hosts[sender];
      }
    }
  }
}
