/** The traffic steering application: chains are installed, uninstalled and re-installed rule by rule while the registry
    records the switches touched. */
module TsaServer {
  import opened SwitchGraph
  import opened GraphObject
  import opened ChainText
  import opened ChainRoute
  import opened ChainCompiler
  import opened PacketJourney
  import opened ChainRules
  import opened ChainService

  class Tsa {
    const graph: Graph
    const hostsThatSendPackets: map<Name, Attach>
    const middleboxToSwitchMapping: map<Name, Attach>

    var policyChainKeyToData: Registry
    var nextVlanId: Vid
    var nextPcid: nat
    var pcidToPolicyChainKey: map<nat, ChainKey>

    // The flow tables of all switches.
    var flows: Flows

    ghost function Net(): Network
      reads this, graph
    {
      Network(AdjacencyOf(graph.nodes), hostsThatSendPackets, middleboxToSwitchMapping)
    }

    ghost predicate Valid()
      reads this, graph
    {
      Sane(Net()) && ChainRules.Inv(Net(), policyChainKeyToData, flows, nextVlanId)
    }

    // No tagged rule on any switch is left behind by its chain.
    ghost predicate NoOrphans()
      reads this
    {
      Owned(policyChainKeyToData, flows)
    }

    constructor (g: Graph, hosts: map<Name, Attach>, mbs: map<Name, Attach>, nodes: set<Dpid>, links: seq<Link>)
      requires Known(nodes, links) && AdjacencyOf(g.nodes) == Built(nodes, links)
      ensures Valid() && graph == g && hostsThatSendPackets == hosts && middleboxToSwitchMapping == mbs
      ensures policyChainKeyToData == map[] && flows == map[] && nextVlanId == 1 && NoOrphans()
    {
      BuiltIsWellBuilt(nodes, links);
      graph, hostsThatSendPackets, middleboxToSwitchMapping := g, hosts, mbs;
      policyChainKeyToData, flows := map[], map[];
      nextVlanId, nextPcid, pcidToPolicyChainKey := 1, 0, map[];
    }

    method GetVlanId() returns (vlanId: Vid)
      modifies this`nextVlanId
      ensures vlanId == old(nextVlanId) && nextVlanId == vlanId + 1
    {
      vlanId := nextVlanId;
      nextVlanId := nextVlanId + 1;
    }

    // ---- single rules

    method AddRule(key: ChainKey, rule: Rule)
      requires key in policyChainKeyToData
      modifies this`flows, this`policyChainKeyToData
      ensures flows == Install(old(flows), rule)
      ensures policyChainKeyToData == Appended(old(policyChainKeyToData), key, [Switch(rule.key.dpid)])
    {
      flows := flows[rule.key := rule.flow];
      AppendFlow(key, Switch(rule.key.dpid));
    }

    method AppendFlow(key: ChainKey, entry: FlowEntry)
      requires key in policyChainKeyToData
      modifies this`policyChainKeyToData
      ensures policyChainKeyToData == Appended(old(policyChainKeyToData), key, [entry])
    {
      var data := policyChainKeyToData[key];
      policyChainKeyToData := policyChainKeyToData[key := ChainData(data.chain, data.vid, data.fullFlow + [entry])];
    }

    // ---- one segment

    // The loop over the switches of a path. The first tags when there are match fields; the last strips if asked.
    method InstallAlong(key: ChainKey, switches: seq<Dpid>, firstInPort: Port, mbPort: Port, vlanId: Vid,
                        fields: Option<Fields>, pop: bool, ghost hops: seq<Hop>)
      requires key in policyChainKeyToData && Along(AdjacencyOf(graph.nodes), switches, hops, firstInPort, mbPort)
      modifies this`flows, this`policyChainKeyToData
      ensures flows == InstallAll(old(flows), RulesAlong(hops, vlanId, fields, pop))
      ensures policyChainKeyToData == Appended(old(policyChainKeyToData), key, SwitchesOf(hops))
    {
      ghost var rules := RulesAlong(hops, vlanId, fields, pop);
      NothingExtends(flows, policyChainKeyToData, key);
      var inPort := firstInPort;
      assert rules[..0] == [] && SwitchesOf(hops)[..0] == [];
      if switches != [] {
        AlongAt(AdjacencyOf(graph.nodes), switches, hops, firstInPort, mbPort, 0);
      }
      for j := 0 to |switches|
        invariant j < |switches| ==> inPort == hops[j].inPort
        invariant flows == InstallAll(old(flows), rules[..j])
        invariant policyChainKeyToData == Appended(old(policyChainKeyToData), key, SwitchesOf(hops)[..j])
      {
        AlongAt(AdjacencyOf(graph.nodes), switches, hops, firstInPort, mbPort, j);
        assert switches[j] in AdjacencyOf(graph.nodes);
        var outPort := Some(mbPort);
        if j < |switches| - 1 {
          assert switches[j + 1] in AdjacencyOf(graph.nodes);
          outPort := GetPortToNeighbor(graph.nodes[switches[j]].neighbors, switches[j + 1]);
        }
        assert rules[..j + 1][..j] == rules[..j];
        assert SwitchesOf(hops)[..j + 1] == SwitchesOf(hops)[..j] + [Switch(switches[j])];
        AddHopRule(key, switches[j], inPort, outPort.value, vlanId, if j == 0 then fields else None,
                   pop && j == |switches| - 1);
        AppendedTwice(old(policyChainKeyToData), key, SwitchesOf(hops)[..j], [Switch(switches[j])]);
        if j < |switches| - 1 {
          var nextIn := GetPortToNeighbor(graph.nodes[switches[j + 1]].neighbors, switches[j]);
          inPort := nextIn.value;
        }
      }
      assert rules[..|switches|] == rules && SwitchesOf(hops)[..|switches|] == SwitchesOf(hops);
    }

    // installRuleWithVlanPush, installRuleWithVlanPop and installVlanRule
    method AddHopRule(key: ChainKey, dpid: Dpid, inPort: Port, outPort: Port, vlanId: Vid, fields: Option<Fields>,
                      pop: bool)
      requires key in policyChainKeyToData
      modifies this`flows, this`policyChainKeyToData
      ensures flows == Install(old(flows), HopRule(Hop(dpid, inPort, outPort, None), vlanId, fields, pop))
      ensures policyChainKeyToData == Appended(old(policyChainKeyToData), key, [Switch(dpid)])
    {
      if fields.Some? {
        AddRule(key, Rule(FlowKey(dpid, Match(Some(inPort), None, fields.value)), Flow(SetVid(vlanId), outPort)));
      } else if pop {
        AddRule(key, Rule(FlowKey(dpid, Match(Some(inPort), Some(vlanId), map[])), Flow(Strip, outPort)));
      } else {
        AddRule(key, Rule(FlowKey(dpid, Match(Some(inPort), Some(vlanId), map[])), Flow(Keep, outPort)));
      }
    }

    /** From the sender to the first middlebox: the first switch tags, the others forward by tag. */
    method InstallRulesToFirstMB(key: ChainKey, mbName: Name, vlanId: Vid, sender: Name,
                                 fields: Fields) returns (ok: bool)
      requires Sane(Net()) && key in policyChainKeyToData
      modifies this`flows, this`policyChainKeyToData, graph
      ensures Net() == old(Net())
      ensures ok == CompileFirst(old(Net()), sender, mbName, vlanId, fields).ok
      ensures Extended(old(flows), old(policyChainKeyToData), key,
                       CompileFirst(old(Net()), sender, mbName, vlanId, fields), flows, policyChainKeyToData)
    {
      NothingExtends(flows, policyChainKeyToData, key);
      if sender !in hostsThatSendPackets || mbName !in middleboxToSwitchMapping {
        return false;
      }
      var from, to := hostsThatSendPackets[sender], middleboxToSwitchMapping[mbName];
      var path := FindSwitchesPath(from.dpid, to.dpid);
      if path.None? {
        return false;
      }
      ghost var hops := SegmentBetween(old(Net()), from, mbName).value;
      SegmentAlong(old(Net()), from, mbName, path.value);
      FirstRulesAlong(old(Net()), sender, mbName, vlanId, fields);
      InstallAlong(key, path.value, from.port, to.port, vlanId, Some(fields), false, hops);
      return true;
    }

    /** From one middlebox to the next: the last switch strips the tag if the chain ends there. */
    method InstallPolicyChainBetweenTwoMiddleboxes(key: ChainKey, src: Name, dst: Name, vlanId: Vid, pop: bool)
      returns (ok: bool)
      requires Sane(Net()) && key in policyChainKeyToData
      modifies this`flows, this`policyChainKeyToData, graph
      ensures Net() == old(Net()) && key in policyChainKeyToData
      ensures ok == CompileBetween(old(Net()), src, dst, vlanId, pop).ok
      ensures Extended(old(flows), old(policyChainKeyToData), key, CompileBetween(old(Net()), src, dst, vlanId, pop),
                       flows, policyChainKeyToData)
    {
      NothingExtends(flows, policyChainKeyToData, key);
      if src !in middleboxToSwitchMapping {
        return true;
      }
      if dst !in middleboxToSwitchMapping {
        return false;
      }
      var from, to := middleboxToSwitchMapping[src], middleboxToSwitchMapping[dst];
      AppendFlow(key, Marker(src));
      var path := FindSwitchesPath(from.dpid, to.dpid);
      if path.None? {
        return false;
      }
      ghost var hops := SegmentBetween(old(Net()), from, dst).value;
      SegmentAlong(old(Net()), from, dst, path.value);
      BetweenRulesAlong(old(Net()), src, dst, vlanId, pop);
      InstallAlong(key, path.value, from.port, to.port, vlanId, None, pop, hops);
      AppendedTwice(old(policyChainKeyToData), key, [Marker(src)], SwitchesOf(hops));
      return true;
    }

    // ---- whole chains

    // The sender's switch; the 0 stands for a sender that has none and is never looked up.
    function SenderSwitch(sender: Name): Dpid {
      if sender in hostsThatSendPackets then hostsThatSendPackets[sender].dpid else 0
    }

    /** Registers the chain and installs its rules segment by segment, up to the first exception. */
    method InstallPolicyChainRules(key: ChainKey, policyChain: string, vlanId: Vid, matchFields: seq<(string, string)>,
                                   sender: Name)
      returns (ok: bool)
      requires Sane(Net())
      modifies this`flows, this`policyChainKeyToData, graph
      ensures Net() == old(Net())
      ensures var c := Compile(old(Net()), sender, Split(policyChain), vlanId, FullMatch(matchFields));
              && ok == c.ok
              && flows == InstallAll(old(flows), c.rules)
              && policyChainKeyToData == old(policyChainKeyToData)[key := ChainData(policyChain, vlanId, c.fullFlow)]
    {
      ghost var net, before, tables := Net(), policyChainKeyToData, flows;
      policyChainKeyToData := policyChainKeyToData[key := ChainData(policyChain, vlanId, [Marker(sender)])];
      var chain := Split(policyChain);
      var fields := GetFullMatchFields(matchFields);
      CompileUnfolds(net, before, key, policyChain, vlanId, chain, fields, sender);
      ghost var start := policyChainKeyToData;
      ok := InstallRulesToFirstMB(key, chain[0], vlanId, sender, fields);
      if ok {
        ghost var tables', registry' := flows, policyChainKeyToData;
        ok := InstallOtherSegments(key, chain, vlanId);
        ExtendedTwice(tables, start, key, CompileFirst(net, sender, chain[0], vlanId, fields), tables', registry',
                      CompileRest(net, chain, 0, vlanId), flows, policyChainKeyToData);
      }
    }

    method InstallOtherSegments(key: ChainKey, chain: seq<Name>, vlanId: Vid) returns (ok: bool)
      requires Sane(Net()) && key in policyChainKeyToData && chain != []
      modifies this`flows, this`policyChainKeyToData, graph
      ensures Net() == old(Net())
      ensures ok == CompileRest(old(Net()), chain, 0, vlanId).ok
      ensures Extended(old(flows), old(policyChainKeyToData), key, CompileRest(old(Net()), chain, 0, vlanId),
                       flows, policyChainKeyToData)
    {
      hide Extended;
      hide CompileBetween;
      ghost var net, tables, start, done := Net(), flows, policyChainKeyToData, Compiled([], [], [], true);
      StartExtended(tables, start, key, CompileRest(net, chain, 0, vlanId));
      for i := 0 to |chain| - 1
        invariant Net() == net && key in policyChainKeyToData && done.ok
        invariant Extended(tables, start, key, done, flows, policyChainKeyToData)
        invariant CompileRest(net, chain, 0, vlanId) == Join(done, CompileRest(net, chain, i, vlanId))
      {
        ghost var d := CompileBetween(net, chain[i], chain[i + 1], vlanId, i + 2 == |chain|);
        ghost var flowsBefore, registryBefore := flows, policyChainKeyToData;
        ok := InstallPolicyChainBetweenTwoMiddleboxes(key, chain[i], chain[i + 1], vlanId, i == |chain| - 2);
        ExtendedTwice(tables, start, key, done, flowsBefore, registryBefore, d, flows, policyChainKeyToData);
        JoinThree(done, d, CompileRest(net, chain, i + 1, vlanId));
        if !ok {
          return;
        }
        done := Join(done, d);
      }
      JoinNothing(done);
      return true;
    }

    /** Walks the chain's full flow: the second entry stands for the tagging rule at the sender's switch, every later
        switch loses its rules with the chain's vlan id. */
    method UninstallPolicyChainRules(key: ChainKey, sender: Name, matchFields: seq<(string, string)>)
      requires key in policyChainKeyToData
      requires sender in hostsThatSendPackets || |policyChainKeyToData[key].fullFlow| <= 1
      modifies this`flows
      ensures flows == Uninstalled(policyChainKeyToData, old(flows), key, SenderSwitch(sender), FullMatch(matchFields))
    {
      var data := policyChainKeyToData[key];
      for i := 0 to |data.fullFlow|
        invariant flows == Removed(old(flows), data.fullFlow, i, data.vid, SenderSwitch(sender), FullMatch(matchFields))
      {
        if data.fullFlow[i].Marker? {
          continue;
        } else if i == 1 {
          UninstallRuleForMatchfields(hostsThatSendPackets[sender].dpid, matchFields);
        } else {
          UninstallVlanRule(data.fullFlow[i].dpid, data.vid);
        }
      }
    }

    // Only the user's fields go into the request: the port computed by the caller is not passed on.
    method UninstallRuleForMatchfields(dpid: Dpid, matchFields: seq<(string, string)>)
      modifies this`flows
      ensures flows == DeleteFields(old(flows), dpid, FullMatch(matchFields))
    {
      var m := GetFullMatchFields(matchFields);
      flows := DeleteFields(flows, dpid, m);
    }

    method UninstallVlanRule(dpid: Dpid, vlanId: Vid)
      modifies this`flows
      ensures flows == DeleteVlan(old(flows), dpid, vlanId)
    {
      flows := DeleteVlan(flows, dpid, vlanId);
    }

    // ---- commands

    /** A new chain gets a vlan id of its own. A chain without match fields fails after taking one. */
    method AddPolicyChain(sender: Name, policyChain: string, matchFields: seq<(string, string)>) returns (ok: bool)
      requires Valid()
      modifies this, graph
      ensures Valid() && Net() == old(Net())
      ensures nextVlanId == old(nextVlanId) + 1
      ensures matchFields == [] ==> !ok && flows == old(flows) && policyChainKeyToData == old(policyChainKeyToData)
      ensures nextPcid == old(nextPcid) + if ok then 1 else 0
      ensures pcidToPolicyChainKey
           == if ok then old(pcidToPolicyChainKey)[old(nextPcid) := ChainKey(sender, policyChain, matchFields)]
              else old(pcidToPolicyChainKey)
      ensures matchFields != [] ==>
                var key := ChainKey(sender, policyChain, matchFields);
                var c := Compile(old(Net()), sender, Split(policyChain), old(nextVlanId), FullMatch(matchFields));
                && ok == c.ok
                && flows == InstallAll(old(flows), c.rules)
                && policyChainKeyToData
                   == old(policyChainKeyToData)[key := ChainData(policyChain, old(nextVlanId), c.fullFlow)]
                && (old(NoOrphans()) ==> (NoOrphans() <==> key in old(policyChainKeyToData) ==>
                                                             NoVlan(old(flows), old(policyChainKeyToData)[key].vid)))
    {
      var pcid := nextPcid;
      var vlanId := GetVlanId();
      if matchFields == [] {
        return false;
      }
      var key := ChainKey(sender, policyChain, matchFields);
      AddIsSafe(Net(), policyChainKeyToData, flows, key, vlanId);
      hide ChainRules.Inv;
      hide Owned;
      hide NoVlan;
      hide Compile;
      hide InstallAll;
      ok := InstallPolicyChainRules(key, policyChain, vlanId, matchFields, sender);
      if ok {
        pcidToPolicyChainKey := pcidToPolicyChainKey[pcid := key];
        nextPcid := nextPcid + 1;
      }
    }

    /** Removing a registered chain takes its vlan id off every switch. */
    method RemovePolicyChain(key: ChainKey) returns (ok: bool)
      requires Valid()
      modifies this
      ensures Valid() && Net() == old(Net()) && nextVlanId == old(nextVlanId)
      ensures ok <==> key in old(policyChainKeyToData)
      ensures policyChainKeyToData == old(policyChainKeyToData) - {key}
      ensures ok ==>
                flows == Uninstalled(old(policyChainKeyToData), old(flows), key, SenderSwitch(key.sender),
                                     FullMatch(key.fields))
      ensures ok ==> NoVlan(flows, old(policyChainKeyToData)[key].vid)
      ensures !ok ==> flows == old(flows) && pcidToPolicyChainKey == old(pcidToPolicyChainKey)
      ensures ok ==> PoppedPcid(old(pcidToPolicyChainKey), key, pcidToPolicyChainKey)
      ensures ok && key !in old(pcidToPolicyChainKey).Values ==> pcidToPolicyChainKey == old(pcidToPolicyChainKey)
      ensures ok && key in old(pcidToPolicyChainKey).Values ==>
                exists p :: p in old(pcidToPolicyChainKey) && old(pcidToPolicyChainKey)[p] == key
                            && pcidToPolicyChainKey == old(pcidToPolicyChainKey) - {p}
      ensures old(NoOrphans()) ==> NoOrphans()
    {
      if key !in policyChainKeyToData {
        return false;
      }
      RemoveIsSafe(Net(), policyChainKeyToData, flows, nextVlanId, key, SenderSwitch(key.sender));
      hide ChainRules.Inv;
      hide Owned;
      hide Uninstalled;
      hide NoVlan;
      UninstallPolicyChainRules(key, key.sender, key.fields);
      policyChainKeyToData := policyChainKeyToData - {key};
      PopPcid(key);
      return true;
    }

    method PopPcid(key: ChainKey)
      modifies this`pcidToPolicyChainKey
      ensures PoppedPcid(old(pcidToPolicyChainKey), key, pcidToPolicyChainKey)
    {
      if key in pcidToPolicyChainKey.Values {
        var p :| p in pcidToPolicyChainKey && pcidToPolicyChainKey[p] == key;
        pcidToPolicyChainKey := pcidToPolicyChainKey - {p};
      }
    }

    /** Uninstalls a registered chain and installs it again, under the same key and vlan id, with the old middlebox's
        name replaced in its text. An unregistered key fails and changes nothing. */
    method ReplaceMasterMB(oldMbName: Name, newMbName: Name, key: ChainKey) returns (ok: bool)
      requires Valid() && oldMbName != ""
      modifies this`flows, this`policyChainKeyToData, graph
      ensures Valid() && Net() == old(Net())
      ensures key !in old(policyChainKeyToData) ==>
                !ok && flows == old(flows) && policyChainKeyToData == old(policyChainKeyToData)
      ensures key in old(policyChainKeyToData) ==>
                && ok == Reinstallation(old(Net()), old(policyChainKeyToData), key, oldMbName, newMbName).ok
                && Exchanged(old(Net()), old(policyChainKeyToData), old(flows), key, oldMbName, newMbName,
                             SenderSwitch(key.sender), policyChainKeyToData, flows)
      ensures key in old(policyChainKeyToData) ==>
                && policyChainKeyToData.Keys == old(policyChainKeyToData).Keys
                && policyChainKeyToData - {key} == old(policyChainKeyToData) - {key}
                && policyChainKeyToData[key].vid == old(policyChainKeyToData)[key].vid
                && policyChainKeyToData[key].chain
                   == ReplaceAll(old(policyChainKeyToData)[key].chain, oldMbName, newMbName)
      ensures old(NoOrphans()) ==> NoOrphans()
    {
      if key !in policyChainKeyToData {
        return false;
      }
      hide *;
      ok := Reinstall(oldMbName, newMbName, key);
      ExchangedTexts(Net(), old(policyChainKeyToData), old(flows), key, oldMbName, newMbName,
                     SenderSwitch(key.sender), policyChainKeyToData, flows);
    }

    method Reinstall(oldMbName: Name, newMbName: Name, key: ChainKey) returns (ok: bool)
      requires Valid() && oldMbName != "" && key in policyChainKeyToData
      modifies this`flows, this`policyChainKeyToData, graph
      ensures Valid() && Net() == old(Net()) && Sane(old(Net()))
      ensures ok == Reinstallation(old(Net()), old(policyChainKeyToData), key, oldMbName, newMbName).ok
      ensures Exchanged(old(Net()), old(policyChainKeyToData), old(flows), key, oldMbName, newMbName,
                        SenderSwitch(key.sender), policyChainKeyToData, flows)
      ensures old(NoOrphans()) ==> NoOrphans()
    {
      var data := policyChainKeyToData[key];
      ghost var fields, from := FullMatch(key.fields), SenderSwitch(key.sender);
      FullMatchNonempty(key.fields);
      UninstallClears(Net(), policyChainKeyToData, flows, nextVlanId, key, from, fields);
      UninstallPolicyChainRules(key, key.sender, key.fields);
      var chain := ReplaceAll(data.chain, oldMbName, newMbName);
      ExchangeOwned(Net(), policyChainKeyToData, old(flows), nextVlanId, key, oldMbName, newMbName, from);
      InstallIsSafe(Net(), policyChainKeyToData, flows, nextVlanId, key, chain, data.vid);
      ok := InstallPolicyChainRules(key, chain, data.vid, key.fields, key.sender);
    }

    /** Failover: every chain that names the old middlebox is re-installed with the new one, in some order. Under its
        vlan id each of them has the rules of a fresh installation and every other chain the rules it had. What becomes
        of a chain's tagging rule depends on the chains re-installed, and for a re-installed chain on those after it. */
    method DoHandleReplacingMasterMB(oldMbName: Name, newMbName: Name)
      returns (installedSuccessfully: bool, ghost order: seq<ChainKey>)
      requires Valid() && oldMbName != ""
      modifies this`flows, this`policyChainKeyToData, graph
      ensures Valid() && Net() == old(Net())
      ensures policyChainKeyToData.Keys == old(policyChainKeyToData).Keys
      ensures forall key :: key in old(policyChainKeyToData) ==>
                ChainDone(old(Net()), old(policyChainKeyToData), old(flows), key, oldMbName, newMbName,
                          policyChainKeyToData, flows)
      ensures TextsReplaced(old(policyChainKeyToData), oldMbName, newMbName, policyChainKeyToData)
      ensures installedSuccessfully <==>
                forall key :: key in old(policyChainKeyToData) && Names(old(policyChainKeyToData), key, oldMbName) ==>
                  Reinstallation(old(Net()), old(policyChainKeyToData), key, oldMbName, newMbName).ok
      ensures old(NoOrphans()) ==> NoOrphans()
      ensures Listed(old(policyChainKeyToData), oldMbName, order)
      ensures forall x :: x in old(policyChainKeyToData) && x.sender in hostsThatSendPackets ==>
                (TagsFor(old(Net()), flows, x, old(policyChainKeyToData)[x].vid)
                 <==> TagLeft(old(Net()), old(policyChainKeyToData), old(flows), order, oldMbName, newMbName, x))
    {
      hide ChainDone;
      hide Reinstallation;
      hide Owned;
      hide TagsFor;
      hide TagLeft;
      hide Exchanging;
      hide AllInstalled;
      hide ListedBut;
      hide Listed;
      hide TagsTracked;
      hide TagsStepped;
      hide Names;
      ghost var net, before, tables := Net(), policyChainKeyToData, flows;
      installedSuccessfully, order := true, [];
      var todo := policyChainKeyToData.Keys;
      NothingExchanged(net, before, tables, oldMbName, newMbName);
      NothingListed(net, before, tables, oldMbName, newMbName);
      while todo != {}
        invariant todo <= before.Keys && Valid() && Net() == net
        invariant Exchanging(net, before, tables, todo, oldMbName, newMbName, policyChainKeyToData, flows)
        invariant installedSuccessfully <==> AllInstalled(net, before, todo, oldMbName, newMbName)
        invariant old(NoOrphans()) ==> NoOrphans()
        invariant ListedBut(before, oldMbName, order, todo)
        invariant TagsTracked(net, before, tables, order, oldMbName, newMbName, flows)
        decreases |todo|
      {
        var key :| key in todo;
        ghost var now := flows;
        var ok := ExchangeChain(key, oldMbName, newMbName, before, tables, todo);
        OneMoreInstalled(net, before, todo, key, oldMbName, newMbName);
        TagsTrackedOn(net, before, tables, order, oldMbName, newMbName, now, key, flows);
        ListedOn(before, oldMbName, order, todo, key);
        installedSuccessfully := installedSuccessfully && ok;
        order := if Names(before, key, oldMbName) then order + [key] else order;
        todo := todo - {key};
      }
      AllExchanged(net, before, tables, oldMbName, newMbName, policyChainKeyToData, flows);
      AllListed(before, oldMbName, order);
      TagsTrackedLeft(net, before, tables, order, oldMbName, newMbName, flows);
      TextsDone(net, before, tables, oldMbName, newMbName, policyChainKeyToData, flows);
    }

    // One pass of the failover loop.
    method ExchangeChain(key: ChainKey, oldMbName: Name, newMbName: Name, ghost before: Registry, ghost tables: Flows,
                         ghost todo: set<ChainKey>) returns (ok: bool)
      requires Valid() && oldMbName != "" && key in todo && todo <= before.Keys
      requires Exchanging(Net(), before, tables, todo, oldMbName, newMbName, policyChainKeyToData, flows)
      modifies this`flows, this`policyChainKeyToData, graph
      ensures Valid() && Net() == old(Net())
      ensures Exchanging(Net(), before, tables, todo - {key}, oldMbName, newMbName, policyChainKeyToData, flows)
      ensures ok <==> Names(before, key, oldMbName) ==> Reinstallation(Net(), before, key, oldMbName, newMbName).ok
      ensures old(NoOrphans()) ==> NoOrphans()
      ensures TagsStepped(Net(), before, key, oldMbName, newMbName, old(flows), flows)
    {
      hide ChainDone;
      hide ChainRules.Inv;
      hide Owned;
      hide TagsStepped;
      ghost var net, registry', tables' := Net(), policyChainKeyToData, flows;
      KeptChain(net, before, tables, todo, key, oldMbName, newMbName, registry', tables');
      ok := true;
      if oldMbName in Split(policyChainKeyToData[key].chain) {
        ok := ReplaceMasterMB(oldMbName, newMbName, key);
        ExchangeOne(net, before, tables, todo, key, oldMbName, newMbName, nextVlanId, SenderSwitch(key.sender),
                    registry', tables', policyChainKeyToData, flows);
        VidsKept(net, before, tables, todo, oldMbName, newMbName, registry', tables');
        ExchangeStepsTags(net, before, nextVlanId, registry', tables', key, oldMbName, newMbName,
                          SenderSwitch(key.sender), policyChainKeyToData, flows);
      } else {
        PassOver(net, before, tables, todo, key, oldMbName, newMbName, registry', tables');
        NothingSteps(net, before, key, oldMbName, newMbName, flows);
      }
    }

    method FindSwitchesPath(from: Dpid, to: Dpid) returns (path: Option<seq<Dpid>>)
      requires Closed(AdjacencyOf(graph.nodes))
      modifies graph
      ensures AdjacencyOf(graph.nodes) == AdjacencyOf(old(graph.nodes))
      ensures path == PathBetween(AdjacencyOf(old(graph.nodes)), from, to)
    {
      if from !in graph.nodes {
        return None;
      }
      path := graph.FindPathBetweenNodes(from, to);
    }
  }

  predicate PoppedPcid(pcids: map<nat, ChainKey>, key: ChainKey, pcids': map<nat, ChainKey>) {
    if key in pcids.Values then exists p :: p in pcids && pcids[p] == key && pcids' == pcids - {p} else pcids' == pcids
  }

  // ---- exchanging a middlebox

  predicate Names(registry: Registry, key: ChainKey, mb: Name)
    requires key in registry
  {
    mb in Split(registry[key].chain)
  }

  // The compilation of a registered chain with the old name replaced in its text, under its own vlan id.
  function Reinstallation(net: Network, registry: Registry, key: ChainKey, oldMbName: Name, newMbName: Name): Compiled
    requires Sane(net) && key in registry && oldMbName != ""
  {
    Compile(net, key.sender, Split(ReplaceAll(registry[key].chain, oldMbName, newMbName)), registry[key].vid,
            FullMatch(key.fields))
  }

  function Reregistered(net: Network, registry: Registry, key: ChainKey, oldMbName: Name, newMbName: Name): ChainData
    requires Sane(net) && key in registry && oldMbName != ""
  {
    ChainData(ReplaceAll(registry[key].chain, oldMbName, newMbName), registry[key].vid,
              Reinstallation(net, registry, key, oldMbName, newMbName).fullFlow)
  }

  ghost predicate ChainKept(before: Registry, tables: Flows, key: ChainKey, after: Registry, tables': Flows)
    requires key in before
  {
    key in after && after[key] == before[key] && VidPart(tables', before[key].vid) == VidPart(tables, before[key].vid)
  }

  // A chain naming the old middlebox has the rules of a fresh installation; any other has the rules it had.
  ghost predicate ChainDone(net: Network, before: Registry, tables: Flows, key: ChainKey, oldMbName: Name,
                            newMbName: Name, after: Registry, tables': Flows)
    requires Sane(net) && key in before && oldMbName != ""
  {
    if Names(before, key, oldMbName) then
      && key in after && after[key] == Reregistered(net, before, key, oldMbName, newMbName)
      && VidPart(tables', before[key].vid)
         == VidPart(InstallAll(map[], Reinstallation(net, before, key, oldMbName, newMbName).rules), before[key].vid)
    else
      ChainKept(before, tables, key, after, tables')
  }

  // What a part of a compilation does to the tables and to the chain's record.
  predicate Extended(flows: Flows, registry: Registry, key: ChainKey, c: Compiled, flows': Flows, registry': Registry)
    requires key in registry
  {
    flows' == InstallAll(flows, c.rules) && registry' == Appended(registry, key, c.fullFlow)
  }

  function Appended(registry: Registry, key: ChainKey, entries: seq<FlowEntry>): Registry
    requires key in registry
  {
    registry[key := registry[key].(fullFlow := registry[key].fullFlow + entries)]
  }

  lemma NothingExtends(flows: Flows, registry: Registry, key: ChainKey)
    requires key in registry
    ensures InstallAll(flows, []) == flows && Appended(registry, key, []) == registry
  {
    assert registry[key].fullFlow + [] == registry[key].fullFlow;
  }

  lemma {:induction false} InstallTwice(flows: Flows, a: seq<Rule>, b: seq<Rule>)
    ensures InstallAll(InstallAll(flows, a), b) == InstallAll(flows, a + b)
  {
    if b == [] {
      assert a + b == a;
    } else {
      assert (a + b)[..|a + b| - 1] == a + b[..|b| - 1];
      InstallTwice(flows, a, b[..|b| - 1]);
    }
  }

  lemma ExtendedTwice(flows: Flows, registry: Registry, key: ChainKey, c: Compiled, flows': Flows, registry': Registry,
                      d: Compiled, flows'': Flows, registry'': Registry)
    requires key in registry && Extended(flows, registry, key, c, flows', registry')
    requires Extended(flows', registry', key, d, flows'', registry'')
    ensures Extended(flows, registry, key, Join(c, d), flows'', registry'')
  {
    InstallTwice(flows, c.rules, d.rules);
    AppendedTwice(registry, key, c.fullFlow, d.fullFlow);
  }

  lemma JoinNothing(c: Compiled)
    ensures c.ok ==> Join(c, Compiled([], [], [], true)) == c
  {
  }

  lemma StartExtended(flows: Flows, registry: Registry, key: ChainKey, c: Compiled)
    requires key in registry
    ensures Extended(flows, registry, key, Compiled([], [], [], true), flows, registry)
    ensures Join(Compiled([], [], [], true), c) == c
  {
    NothingExtends(flows, registry, key);
    assert [] + c.rules == c.rules && [] + c.fullFlow == c.fullFlow && [] + c.hops == c.hops;
  }

  // A compilation put into a registry that holds only the sender's marker.
  lemma CompileUnfolds(net: Network, before: Registry, key: ChainKey, text: string, vid: Vid, chain: seq<Name>,
                       fields: Fields, sender: Name)
    requires Sane(net) && chain != []
    ensures var start := before[key := ChainData(text, vid, [Marker(sender)])];
            var c := CompileFirst(net, sender, chain[0], vid, fields);
            var all := if c.ok then Join(c, CompileRest(net, chain, 0, vid)) else c;
            var whole := Compile(net, sender, chain, vid, fields);
            && whole.rules == all.rules && whole.ok == all.ok
            && Appended(start, key, all.fullFlow) == before[key := ChainData(text, vid, whole.fullFlow)]
  {
    hide CompileFirst;
    hide CompileRest;
  }

  lemma AppendedTwice(registry: Registry, key: ChainKey, a: seq<FlowEntry>, b: seq<FlowEntry>)
    requires key in registry
    ensures Appended(Appended(registry, key, a), key, b) == Appended(registry, key, a + b)
  {
    assert registry[key].fullFlow + a + b == registry[key].fullFlow + (a + b);
  }

  function HopRule(h: Hop, vid: Vid, fields: Option<Fields>, pop: bool): Rule {
    if fields.Some? then PushRule(h, vid, fields.value) else if pop then PopRule(h, vid) else VlanRule(h, vid)
  }

  function RulesAlong(hops: seq<Hop>, vid: Vid, fields: Option<Fields>, pop: bool): (rules: seq<Rule>)
    ensures |rules| == |hops|
    ensures forall j :: 0 <= j < |hops| ==>
              rules[j] == HopRule(hops[j], vid, if j == 0 then fields else None, pop && j == |hops| - 1)
  {
    seq(|hops|, j requires 0 <= j < |hops| =>
      HopRule(hops[j], vid, if j == 0 then fields else None, pop && j == |hops| - 1))
  }

  // The hops are those of the path of switches, with the ports that the neighbour lists give.
  ghost predicate Along(g: Adjacency, switches: seq<Dpid>, hops: seq<Hop>, inPort: Port, mbPort: Port) {
    && |hops| == |switches|
    && forall j :: 0 <= j < |hops| ==> HopAlong(g, switches, hops, inPort, mbPort, j)
  }

  ghost predicate HopAlong(g: Adjacency, switches: seq<Dpid>, hops: seq<Hop>, inPort: Port, mbPort: Port, j: nat)
    requires |hops| == |switches| && j < |hops|
  {
    && hops[j].dpid == switches[j] && switches[j] in g
    && (j == 0 ==> hops[j].inPort == inPort)
    && (j > 0 ==> FirstPort(g[switches[j]], switches[j - 1]) == Some(hops[j].inPort))
    && (j < |hops| - 1 ==> FirstPort(g[switches[j]], switches[j + 1]) == Some(hops[j].outPort))
    && (j == |hops| - 1 ==> hops[j].outPort == mbPort)
  }

  lemma AlongAt(g: Adjacency, switches: seq<Dpid>, hops: seq<Hop>, inPort: Port, mbPort: Port, j: nat)
    requires Along(g, switches, hops, inPort, mbPort) && j < |hops|
    ensures HopAlong(g, switches, hops, inPort, mbPort, j)
    ensures j < |hops| - 1 ==> HopAlong(g, switches, hops, inPort, mbPort, j + 1)
  {
  }

  lemma SegmentAlong(net: Network, from: Attach, to: Name, path: seq<Dpid>)
    requires Sane(net) && to in net.mbs && PathBetween(net.graph, from.dpid, net.mbs[to].dpid) == Some(path)
    ensures SegmentBetween(net, from, to).Some?
    ensures Along(net.graph, path, SegmentBetween(net, from, to).value, from.port, net.mbs[to].port)
  {
    FindPathCorrect(net.graph, from.dpid, net.mbs[to].dpid);
    var hops := SegmentBetween(net, from, to).value;
    forall j | 0 <= j < |hops| ensures HopAlong(net.graph, path, hops, from.port, net.mbs[to].port, j) {
      SegmentHopsAre(net.graph, path, from.port, net.mbs[to].port, to, j);
    }
  }

  lemma FirstRulesAlong(net: Network, sender: Name, mb: Name, vid: Vid, fields: Fields)
    requires Sane(net) && sender in net.hosts && mb in net.mbs && SegmentBetween(net, net.hosts[sender], mb).Some?
    ensures CompileFirst(net, sender, mb, vid, fields)
         == var hops := SegmentBetween(net, net.hosts[sender], mb).value;
            Compiled(RulesAlong(hops, vid, Some(fields), false), SwitchesOf(hops), hops, true)
  {
    SegmentNonempty(net, net.hosts[sender], mb);
    hide SegmentBetween;
    var hops := SegmentBetween(net, net.hosts[sender], mb).value;
    FirstRulesAre(hops, vid, fields);
    hide RulesAlong;
    hide VlanRules;
  }

  lemma FirstRulesAre(hops: seq<Hop>, vid: Vid, fields: Fields)
    requires hops != []
    ensures [PushRule(hops[0], vid, fields)] + VlanRules(hops[1..], vid) == RulesAlong(hops, vid, Some(fields), false)
  {
  }

  lemma BetweenRulesAlong(net: Network, src: Name, dst: Name, vid: Vid, pop: bool)
    requires Sane(net) && src in net.mbs && dst in net.mbs && SegmentBetween(net, net.mbs[src], dst).Some?
    ensures CompileBetween(net, src, dst, vid, pop)
         == var hops := SegmentBetween(net, net.mbs[src], dst).value;
            Compiled(RulesAlong(hops, vid, None, pop), [Marker(src)] + SwitchesOf(hops), hops, true)
  {
    SegmentNonempty(net, net.mbs[src], dst);
    var hops := SegmentBetween(net, net.mbs[src], dst).value;
    LaterRulesAre(hops, vid, pop);
    hide RulesAlong;
    hide VlanRules;
  }

  lemma LaterRulesAre(hops: seq<Hop>, vid: Vid, pop: bool)
    requires hops != []
    ensures RulesAlong(hops, vid, None, pop)
         == var n := |hops| - 1;
            VlanRules(hops[..n], vid) + [if pop then PopRule(hops[n], vid) else VlanRule(hops[n], vid)]
  {
  }

  // The vlan id handed out next is on no switch and owned by no chain.
  lemma FreshVlan(net: Network, registry: Registry, flows: Flows, vid: Vid)
    requires ChainRules.Inv(net, registry, flows, vid)
    ensures NoVlan(flows, vid) && ChainRules.Inv(net, registry, flows, vid + 1)
    ensures forall other :: other in registry ==> registry[other].vid != vid
  {
  }

  lemma AddIsSafe(net: Network, registry: Registry, flows: Flows, key: ChainKey, vid: Vid)
    requires Sane(net) && ChainRules.Inv(net, registry, flows, vid)
    ensures ChainRules.Inv(net, registry, flows, vid + 1)
    ensures var c := Compile(net, key.sender, Split(key.chain), vid, FullMatch(key.fields));
            var registry', flows' := registry[key := ChainData(key.chain, vid, c.fullFlow)], InstallAll(flows, c.rules);
            && (key.fields != [] ==> ChainRules.Inv(net, registry', flows', vid + 1))
            && (Owned(registry, flows) ==>
                (Owned(registry', flows') <==> key in registry ==> NoVlan(flows, registry[key].vid)))
  {
    var c := Compile(net, key.sender, Split(key.chain), vid, FullMatch(key.fields));
    FreshVlan(net, registry, flows, vid);
    CompileRecords(net, key.sender, Split(key.chain), vid, FullMatch(key.fields));
    hide *;
    if key.fields != [] {
      InstallIsSafe(net, registry, flows, vid + 1, key, key.chain, vid);
    }
    if Owned(registry, flows) {
      InstallOwnedIff(net, registry, flows, vid, key, ChainData(key.chain, vid, c.fullFlow), c, FullMatch(key.fields));
    }
  }

  lemma RemoveIsSafe(net: Network, registry: Registry, flows: Flows, nextVlanId: Vid, key: ChainKey, from: Dpid)
    requires ChainRules.Inv(net, registry, flows, nextVlanId) && key in registry
    ensures key.sender in net.hosts || |registry[key].fullFlow| <= 1
    ensures var after := Uninstalled(registry, flows, key, from, FullMatch(key.fields));
            && ChainRules.Inv(net, registry - {key}, after, nextVlanId) && NoVlan(after, registry[key].vid)
            && (Owned(registry, flows) ==> Owned(registry - {key}, after))
  {
    FullMatchNonempty(key.fields);
    UninstallClears(net, registry, flows, nextVlanId, key, from, FullMatch(key.fields));
    if Owned(registry, flows) {
      UninstallOwned(net, registry, flows, nextVlanId, key, from, FullMatch(key.fields));
    }
    hide Uninstalled;
  }

  lemma InstallIsSafe(net: Network, registry: Registry, flows: Flows, nextVlanId: Vid, key: ChainKey, text: string,
                      vid: Vid)
    requires Sane(net) && ChainRules.Inv(net, registry, flows, nextVlanId) && NoVlan(flows, vid)
    requires key.fields != [] && vid < nextVlanId
    requires forall other :: other in registry && other != key ==> registry[other].vid != vid
    ensures var c := Compile(net, key.sender, Split(text), vid, FullMatch(key.fields));
            ChainRules.Inv(net, registry[key := ChainData(text, vid, c.fullFlow)], InstallAll(flows, c.rules),
                           nextVlanId)
  {
    CompileRecords(net, key.sender, Split(text), vid, FullMatch(key.fields));
    UnknownSender(net, key.sender, Split(text), vid, FullMatch(key.fields));
    var c := Compile(net, key.sender, Split(text), vid, FullMatch(key.fields));
    InstallKeepsInv(net, registry, flows, nextVlanId, key, ChainData(text, vid, c.fullFlow), c, FullMatch(key.fields));
  }

  lemma ExchangeOwned(net: Network, registry: Registry, tables: Flows, nextVlanId: Vid, key: ChainKey, oldMbName: Name,
                      newMbName: Name, from: Dpid)
    requires Sane(net) && ChainRules.Inv(net, registry, tables, nextVlanId) && key in registry && oldMbName != ""
    ensures Owned(registry, tables) ==>
              Owned(registry[key := Reregistered(net, registry, key, oldMbName, newMbName)],
                    InstallAll(Uninstalled(registry, tables, key, from, FullMatch(key.fields)),
                               Reinstallation(net, registry, key, oldMbName, newMbName).rules))
  {
    var c := Reinstallation(net, registry, key, oldMbName, newMbName);
    var gone := Uninstalled(registry, tables, key, from, FullMatch(key.fields));
    FullMatchNonempty(key.fields);
    CompileRecords(net, key.sender, Split(ReplaceAll(registry[key].chain, oldMbName, newMbName)), registry[key].vid,
                   FullMatch(key.fields));
    UninstallClears(net, registry, tables, nextVlanId, key, from, FullMatch(key.fields));
    if Owned(registry, tables) {
      UninstallOwned(net, registry, tables, nextVlanId, key, from, FullMatch(key.fields));
      InstallOwnedIff(net, registry, gone, nextVlanId, key, Reregistered(net, registry, key, oldMbName, newMbName), c,
                      FullMatch(key.fields));
    }
  }

  // The tables and the registry after one chain was exchanged.
  ghost predicate Exchanged(net: Network, registry: Registry, tables: Flows, key: ChainKey, oldMbName: Name,
                            newMbName: Name, from: Dpid, registry': Registry, tables': Flows)
    requires Sane(net) && key in registry && oldMbName != ""
  {
    && registry' == registry[key := Reregistered(net, registry, key, oldMbName, newMbName)]
    && tables' == InstallAll(Uninstalled(registry, tables, key, from, FullMatch(key.fields)),
                             Reinstallation(net, registry, key, oldMbName, newMbName).rules)
  }

  lemma ExchangedTexts(net: Network, registry: Registry, tables: Flows, key: ChainKey, oldMbName: Name,
                       newMbName: Name, from: Dpid, registry': Registry, tables': Flows)
    requires Sane(net) && key in registry && oldMbName != ""
    requires Exchanged(net, registry, tables, key, oldMbName, newMbName, from, registry', tables')
    ensures registry'.Keys == registry.Keys && registry' - {key} == registry - {key}
    ensures registry'[key].chain == ReplaceAll(registry[key].chain, oldMbName, newMbName)
    ensures registry'[key].vid == registry[key].vid
  {
    hide ReplaceAll;
    hide Reinstallation;
    hide Uninstalled;
    hide InstallAll;
  }

  // Every chain keeps its vlan id, and its text unless it names the old middlebox.
  ghost predicate TextsReplaced(before: Registry, oldMbName: Name, newMbName: Name, after: Registry)
    requires oldMbName != ""
  {
    forall key :: key in before ==>
      && key in after && after[key].vid == before[key].vid
      && after[key].chain == if oldMbName in Split(before[key].chain)
                             then ReplaceAll(before[key].chain, oldMbName, newMbName) else before[key].chain
  }

  lemma TextsDone(net: Network, before: Registry, tables: Flows, oldMbName: Name, newMbName: Name, after: Registry,
                  tables': Flows)
    requires Sane(net) && oldMbName != ""
    requires forall key :: key in before ==>
               ChainDone(net, before, tables, key, oldMbName, newMbName, after, tables')
    ensures TextsReplaced(before, oldMbName, newMbName, after)
  {
    hide ChainDone;
    hide Split;
    hide ReplaceAll;
    forall key | key in before
      ensures key in after && after[key].vid == before[key].vid
      ensures after[key].chain == if oldMbName in Split(before[key].chain)
                                  then ReplaceAll(before[key].chain, oldMbName, newMbName) else before[key].chain
    {
      DoneTexts(net, before, tables, key, oldMbName, newMbName, after, tables');
    }
  }

  // What becomes of a chain's text and vlan id.
  lemma DoneTexts(net: Network, before: Registry, tables: Flows, key: ChainKey, oldMbName: Name, newMbName: Name,
                  after: Registry, tables': Flows)
    requires Sane(net) && key in before && oldMbName != ""
    requires ChainDone(net, before, tables, key, oldMbName, newMbName, after, tables')
    ensures key in after && after[key].vid == before[key].vid
    ensures after[key].chain == if oldMbName in Split(before[key].chain)
                                then ReplaceAll(before[key].chain, oldMbName, newMbName) else before[key].chain
  {
    hide ReplaceAll;
    hide Reinstallation;
    hide Split;
  }

  lemma ExchangeVidParts(net: Network, registry: Registry, tables: Flows, key: ChainKey, oldMbName: Name,
                         newMbName: Name, nextVlanId: Vid, from: Dpid, registry': Registry, tables': Flows, other: Vid)
    requires Sane(net) && ChainRules.Inv(net, registry, tables, nextVlanId) && key in registry && oldMbName != ""
    requires Exchanged(net, registry, tables, key, oldMbName, newMbName, from, registry', tables')
    ensures var vid := registry[key].vid;
            && VidPart(tables', vid)
               == VidPart(InstallAll(map[], Reinstallation(net, registry, key, oldMbName, newMbName).rules), vid)
            && (other != vid ==> VidPart(tables', other) == VidPart(tables, other))
  {
    var c := Reinstallation(net, registry, key, oldMbName, newMbName);
    FullMatchNonempty(key.fields);
    CompileRecords(net, key.sender, Split(ReplaceAll(registry[key].chain, oldMbName, newMbName)), registry[key].vid,
                   FullMatch(key.fields));
    ReinstallVidParts(net, registry, tables, nextVlanId, key, from, FullMatch(key.fields), c, other);
  }

  // The failover loop with some chains still to do.
  ghost predicate Exchanging(net: Network, before: Registry, tables: Flows, todo: set<ChainKey>, oldMbName: Name,
                             newMbName: Name, registry: Registry, now: Flows)
    requires Sane(net) && oldMbName != ""
  {
    && registry.Keys == before.Keys
    && forall k {:trigger ChainDone(net, before, tables, k, oldMbName, newMbName, registry, now)}
             {:trigger ChainKept(before, tables, k, registry, now)} :: k in before ==>
         if k in todo then ChainKept(before, tables, k, registry, now)
         else ChainDone(net, before, tables, k, oldMbName, newMbName, registry, now)
  }

  // Every chain that was re-installed so far compiled to its end.
  ghost predicate AllInstalled(net: Network, before: Registry, todo: set<ChainKey>, oldMbName: Name, newMbName: Name)
    requires Sane(net) && oldMbName != ""
  {
    forall key :: key in before && key !in todo && Names(before, key, oldMbName) ==>
      Reinstallation(net, before, key, oldMbName, newMbName).ok
  }

  lemma NothingExchanged(net: Network, before: Registry, tables: Flows, oldMbName: Name, newMbName: Name)
    requires Sane(net) && oldMbName != ""
    ensures Exchanging(net, before, tables, before.Keys, oldMbName, newMbName, before, tables)
    ensures AllInstalled(net, before, before.Keys, oldMbName, newMbName)
  {
    hide VidPart;
  }

  lemma OneMoreInstalled(net: Network, before: Registry, todo: set<ChainKey>, key: ChainKey, oldMbName: Name,
                         newMbName: Name)
    requires Sane(net) && oldMbName != "" && key in todo && key in before
    ensures AllInstalled(net, before, todo - {key}, oldMbName, newMbName) <==>
            && AllInstalled(net, before, todo, oldMbName, newMbName)
            && (Names(before, key, oldMbName) ==> Reinstallation(net, before, key, oldMbName, newMbName).ok)
  {
    hide Reinstallation;
    hide Names;
  }

  lemma KeptChain(net: Network, before: Registry, tables: Flows, todo: set<ChainKey>, key: ChainKey, oldMbName: Name,
                  newMbName: Name, registry: Registry, now: Flows)
    requires Sane(net) && oldMbName != "" && key in todo && key in before
    requires Exchanging(net, before, tables, todo, oldMbName, newMbName, registry, now)
    ensures key in registry && registry[key] == before[key]
    ensures Reinstallation(net, registry, key, oldMbName, newMbName)
         == Reinstallation(net, before, key, oldMbName, newMbName)
  {
    hide ChainDone;
    hide VidPart;
    assert ChainKept(before, tables, key, registry, now);
  }

  lemma VidsKept(net: Network, before: Registry, tables: Flows, todo: set<ChainKey>, oldMbName: Name, newMbName: Name,
                 registry: Registry, now: Flows)
    requires Sane(net) && oldMbName != "" && Exchanging(net, before, tables, todo, oldMbName, newMbName, registry, now)
    ensures forall x :: x in before ==> x in registry && registry[x].vid == before[x].vid
  {
    hide VidPart;
    hide Reinstallation;
    forall x | x in before ensures x in registry && registry[x].vid == before[x].vid {
      assert if x in todo then ChainKept(before, tables, x, registry, now)
             else ChainDone(net, before, tables, x, oldMbName, newMbName, registry, now);
    }
  }

  // The loop with nothing left to do.
  lemma AllExchanged(net: Network, before: Registry, tables: Flows, oldMbName: Name, newMbName: Name,
                     registry: Registry, now: Flows)
    requires Sane(net) && oldMbName != "" && Exchanging(net, before, tables, {}, oldMbName, newMbName, registry, now)
    ensures registry.Keys == before.Keys
    ensures forall key :: key in before ==> ChainDone(net, before, tables, key, oldMbName, newMbName, registry, now)
    ensures AllInstalled(net, before, {}, oldMbName, newMbName) <==>
            forall key :: key in before && Names(before, key, oldMbName) ==>
                Reinstallation(net, before, key, oldMbName, newMbName).ok
  {
    hide ChainDone;
    hide Reinstallation;
    hide Names;
  }

  lemma PassOver(net: Network, before: Registry, tables: Flows, todo: set<ChainKey>, key: ChainKey, oldMbName: Name,
                 newMbName: Name, registry: Registry, now: Flows)
    requires Sane(net) && oldMbName != "" && key in todo && key in before && !Names(before, key, oldMbName)
    requires Exchanging(net, before, tables, todo, oldMbName, newMbName, registry, now)
    ensures Exchanging(net, before, tables, todo - {key}, oldMbName, newMbName, registry, now)
  {
    hide Names;
    hide ChainKept;
    hide Reinstallation;
    hide VidPart;
    forall k | k in before
      ensures if k in todo - {key} then ChainKept(before, tables, k, registry, now)
              else ChainDone(net, before, tables, k, oldMbName, newMbName, registry, now)
    {
      assert k == key ==> ChainKept(before, tables, key, registry, now);
    }
  }

  // The chain at hand is done, the others are as far along as before.
  lemma ExchangeOne(net: Network, before: Registry, tables: Flows, todo: set<ChainKey>, key: ChainKey, oldMbName: Name,
                    newMbName: Name, nextVlanId: Vid, from: Dpid, registry: Registry, now: Flows, registry': Registry,
                    now': Flows)
    requires Sane(net) && ChainRules.Inv(net, registry, now, nextVlanId) && oldMbName != ""
    requires key in todo && todo <= before.Keys && Names(before, key, oldMbName)
    requires Exchanging(net, before, tables, todo, oldMbName, newMbName, registry, now)
    requires key in registry && Exchanged(net, registry, now, key, oldMbName, newMbName, from, registry', now')
    ensures Exchanging(net, before, tables, todo - {key}, oldMbName, newMbName, registry', now')
  {
    hide Names;
    forall k | k in before
      ensures if k in todo - {key} then ChainKept(before, tables, k, registry', now')
              else ChainDone(net, before, tables, k, oldMbName, newMbName, registry', now')
    {
      if k == key {
        KeptChain(net, before, tables, todo, key, oldMbName, newMbName, registry, now);
        ExchangeVidParts(net, registry, now, key, oldMbName, newMbName, nextVlanId, from, registry', now',
                         registry[key].vid);
        ExchangedIsDone(net, before, tables, key, oldMbName, newMbName, registry, registry', now');
      } else {
        DistinctVids(net, registry, now, nextVlanId, key, k);
        ExchangeVidParts(net, registry, now, key, oldMbName, newMbName, nextVlanId, from, registry', now',
                         registry[k].vid);
        UnmovedKeeps(net, before, tables, k, oldMbName, newMbName, registry, now, registry', now');
        StillIn(net, before, tables, todo, k, oldMbName, newMbName, registry, now);
      }
    }
  }

  lemma StillIn(net: Network, before: Registry, tables: Flows, todo: set<ChainKey>, k: ChainKey, oldMbName: Name,
                newMbName: Name, registry: Registry, now: Flows)
    requires Sane(net) && oldMbName != "" && k in before
    requires Exchanging(net, before, tables, todo, oldMbName, newMbName, registry, now)
    ensures if k in todo then ChainKept(before, tables, k, registry, now)
            else ChainDone(net, before, tables, k, oldMbName, newMbName, registry, now)
  {
    hide ChainKept;
    hide ChainDone;
  }

  lemma ExchangedIsDone(net: Network, before: Registry, tables: Flows, key: ChainKey, oldMbName: Name, newMbName: Name,
                        registry: Registry, registry': Registry, now': Flows)
    requires Sane(net) && key in before && key in registry && oldMbName != "" && registry[key] == before[key]
    requires Names(before, key, oldMbName)
    requires registry' == registry[key := Reregistered(net, registry, key, oldMbName, newMbName)]
    requires VidPart(now', before[key].vid)
          == VidPart(InstallAll(map[], Reinstallation(net, before, key, oldMbName, newMbName).rules), before[key].vid)
    ensures ChainDone(net, before, tables, key, oldMbName, newMbName, registry', now')
  {
    hide VidPart;
    hide Compile;
    hide InstallAll;
  }

  // ---- tagging rules under failover

  function SwitchOf(net: Network, sender: Name): Dpid { if sender in net.hosts then net.hosts[sender].dpid else 0 }

  // Re-installing chain r takes away the tagging rule of chain x.
  predicate TakesTag(net: Network, before: Registry, r: ChainKey, oldMbName: Name, newMbName: Name, x: ChainKey)
    requires Sane(net) && r in before && oldMbName != "" && x.sender in net.hosts
  {
    Takes(net, r, before[r].fullFlow, SwitchOf(net, r.sender), Reinstallation(net, before, r, oldMbName, newMbName),
          TaggingKey(net, x))
  }

  predicate TagStep(net: Network, before: Registry, r: ChainKey, oldMbName: Name, newMbName: Name, x: ChainKey,
                    tags: bool)
    requires Sane(net) && r in before && oldMbName != "" && x.sender in net.hosts
  {
    if r == x && Reinstallation(net, before, r, oldMbName, newMbName).rules != [] then true
    else tags && !TakesTag(net, before, r, oldMbName, newMbName, x)
  }

  // The chains naming the old middlebox, each once.
  predicate Listed(before: Registry, oldMbName: Name, order: seq<ChainKey>) {
    && (forall i :: 0 <= i < |order| ==> order[i] in before && Names(before, order[i], oldMbName))
    && (forall i, j :: 0 <= i < j < |order| ==> order[i] != order[j])
    && (forall key :: key in before && Names(before, key, oldMbName) ==> key in order)
  }

  predicate ListedBut(before: Registry, oldMbName: Name, order: seq<ChainKey>, todo: set<ChainKey>) {
    && (forall i :: 0 <= i < |order| ==> order[i] in before && Names(before, order[i], oldMbName) && order[i] !in todo)
    && (forall i, j :: 0 <= i < j < |order| ==> order[i] != order[j])
    && (forall key :: key in before && Names(before, key, oldMbName) && key !in todo ==> key in order)
  }

  lemma ListedOn(before: Registry, oldMbName: Name, order: seq<ChainKey>, todo: set<ChainKey>, key: ChainKey)
    requires key in todo && key in before && ListedBut(before, oldMbName, order, todo)
    ensures ListedBut(before, oldMbName, if Names(before, key, oldMbName) then order + [key] else order, todo - {key})
  {
    hide Names;
  }

  lemma NothingListed(net: Network, before: Registry, tables: Flows, oldMbName: Name, newMbName: Name)
    requires Sane(net) && oldMbName != ""
    ensures ListedBut(before, oldMbName, [], before.Keys)
    ensures TagsTracked(net, before, tables, [], oldMbName, newMbName, tables)
  {
    hide TagsFor;
  }

  lemma AllListed(before: Registry, oldMbName: Name, order: seq<ChainKey>)
    requires ListedBut(before, oldMbName, order, {})
    ensures Listed(before, oldMbName, order)
  {
    hide Names;
  }

  // Whether x still has its tagging rule once the chains in `order` were re-installed one after the other: the last
  // installation of x itself counts, else the rule it had, and no chain re-installed after that may take it.
  predicate TagLeft(net: Network, before: Registry, tables: Flows, order: seq<ChainKey>, oldMbName: Name,
                    newMbName: Name, x: ChainKey)
    requires Sane(net) && oldMbName != "" && x in before && x.sender in net.hosts
    requires forall i :: 0 <= i < |order| ==> order[i] in before
  {
    if x in order && Reinstallation(net, before, x, oldMbName, newMbName).rules != [] then
      exists i :: 0 <= i < |order| && order[i] == x
                  && forall j :: i < j < |order| ==> !TakesTag(net, before, order[j], oldMbName, newMbName, x)
    else
      && TagsFor(net, tables, x, before[x].vid)
      && forall j :: 0 <= j < |order| ==> !TakesTag(net, before, order[j], oldMbName, newMbName, x)
  }

  predicate TagAfter(net: Network, before: Registry, tables: Flows, order: seq<ChainKey>, oldMbName: Name,
                     newMbName: Name, x: ChainKey)
    requires Sane(net) && oldMbName != "" && x in before && x.sender in net.hosts
    requires forall i :: 0 <= i < |order| ==> order[i] in before
  {
    if order == [] then TagsFor(net, tables, x, before[x].vid)
    else
      TagStep(net, before, order[|order| - 1], oldMbName, newMbName, x,
              TagAfter(net, before, tables, order[..|order| - 1], oldMbName, newMbName, x))
  }

  lemma {:induction false} TagAfterIsLeft(net: Network, before: Registry, tables: Flows, order: seq<ChainKey>,
                                          oldMbName: Name, newMbName: Name, x: ChainKey)
    requires Sane(net) && oldMbName != "" && x in before && x.sender in net.hosts
    requires forall i :: 0 <= i < |order| ==> order[i] in before
    requires forall i, j :: 0 <= i < j < |order| ==> order[i] != order[j]
    ensures TagAfter(net, before, tables, order, oldMbName, newMbName, x)
            <==> TagLeft(net, before, tables, order, oldMbName, newMbName, x)
  {
    hide TakesTag;
    hide Reinstallation;
    hide TagsFor;
    if order != [] {
      var front := order[..|order| - 1];
      TagAfterIsLeft(net, before, tables, front, oldMbName, newMbName, x);
      LeftSteps(net, before, tables, front, order[|order| - 1], oldMbName, newMbName, x);
      assert order == front + [order[|order| - 1]];
    }
    hide TagLeft;
  }

  lemma LeftSteps(net: Network, before: Registry, tables: Flows, front: seq<ChainKey>, r: ChainKey, oldMbName: Name,
                  newMbName: Name, x: ChainKey)
    requires Sane(net) && oldMbName != "" && x in before && x.sender in net.hosts && r in before && r !in front
    requires forall i :: 0 <= i < |front| ==> front[i] in before
    ensures TagLeft(net, before, tables, front + [r], oldMbName, newMbName, x)
            <==> TagStep(net, before, r, oldMbName, newMbName, x,
                         TagLeft(net, before, tables, front, oldMbName, newMbName, x))
  {
    hide TakesTag;
    hide Reinstallation;
    hide TagsFor;
    var order := front + [r];
    assert order[|front|] == r && forall j :: 0 <= j < |front| ==> order[j] == front[j];
    if x in front {
      var i :| 0 <= i < |front| && front[i] == x;
      assert order[i] == x;
    }
  }

  // What one pass of the loop does to the tagging rules.
  ghost predicate TagsStepped(net: Network, before: Registry, r: ChainKey, oldMbName: Name, newMbName: Name, now: Flows,
                              now': Flows)
    requires Sane(net) && r in before && oldMbName != ""
  {
    forall x :: x in before && x.sender in net.hosts ==>
      (TagsFor(net, now', x, before[x].vid)
       <==> if Names(before, r, oldMbName)
            then TagStep(net, before, r, oldMbName, newMbName, x, TagsFor(net, now, x, before[x].vid))
            else TagsFor(net, now, x, before[x].vid))
  }

  lemma NothingSteps(net: Network, before: Registry, r: ChainKey, oldMbName: Name, newMbName: Name, now: Flows)
    requires Sane(net) && r in before && oldMbName != "" && !Names(before, r, oldMbName)
    ensures TagsStepped(net, before, r, oldMbName, newMbName, now, now)
  {
    hide TagsFor;
    hide TagStep;
  }

  lemma ExchangeStepsTags(net: Network, before: Registry, nextVlanId: Vid, registry: Registry, now: Flows, r: ChainKey,
                          oldMbName: Name, newMbName: Name, from: Dpid, registry': Registry, now': Flows)
    requires Sane(net) && oldMbName != "" && r in before && r in registry && registry[r] == before[r]
    requires from == SwitchOf(net, r.sender) && Names(before, r, oldMbName)
    requires forall x :: x in before ==> x in registry && registry[x].vid == before[x].vid
    requires ChainRules.Inv(net, registry, now, nextVlanId)
    requires Reinstallation(net, registry, r, oldMbName, newMbName)
         == Reinstallation(net, before, r, oldMbName, newMbName)
    requires Exchanged(net, registry, now, r, oldMbName, newMbName, from, registry', now')
    ensures TagsStepped(net, before, r, oldMbName, newMbName, now, now')
  {
    var c := Reinstallation(net, before, r, oldMbName, newMbName);
    ReinstallTags(net, registry, now, r, oldMbName, newMbName, from, registry', now');
    hide Exchanged;
    hide Reinstallation;
    hide TagsFor;
    forall x | x in before && x.sender in net.hosts
      ensures TagsFor(net, now', x, before[x].vid)
              <==> TagStep(net, before, r, oldMbName, newMbName, x, TagsFor(net, now, x, before[x].vid))
    {
      if x != r {
        DistinctVids(net, registry, now, nextVlanId, r, x);
      }
      hide Inv;
      hide Takes;
      TagsInPart(net, now, x, before[x].vid);
      TagsInPart(net, now', x, before[x].vid);
      if r == x && c.rules != [] {
        ExchangeSetsTag(net, UntaggedPart(now), r, before[r].vid, before[r].fullFlow, from, c);
      } else {
        ExchangeKeepsTagIff(net, UntaggedPart(now), r, before[r].vid, before[r].fullFlow, from, c, x, before[x].vid);
      }
    }
  }

  lemma ReinstallTags(net: Network, registry: Registry, now: Flows, r: ChainKey, oldMbName: Name, newMbName: Name,
                      from: Dpid, registry': Registry, now': Flows)
    requires Sane(net) && oldMbName != "" && r in registry
    requires Exchanged(net, registry, now, r, oldMbName, newMbName, from, registry', now')
    ensures var c := Reinstallation(net, registry, r, oldMbName, newMbName);
            && UntaggedPart(now') == ExchangedUntagged(net, UntaggedPart(now), r, registry[r].fullFlow, from, c)
            && (c.rules != [] ==> r.sender in net.hosts && c.rules[0].flow.vlan == SetVid(registry[r].vid))
  {
    var chain := Split(ReplaceAll(registry[r].chain, oldMbName, newMbName));
    ExchangeUntagged(net, registry, now, r, from, chain);
    CompileTagsFirst(net, r, chain, registry[r].vid);
    hide Compile;
    hide ExchangedUntagged;
    hide Uninstalled;
  }

  // After the chains in `order`, every chain's tagging rule is as computed.
  ghost predicate TagsTracked(net: Network, before: Registry, tables: Flows, order: seq<ChainKey>, oldMbName: Name,
                              newMbName: Name, now: Flows)
    requires Sane(net) && oldMbName != ""
  {
    && (forall i :: 0 <= i < |order| ==> order[i] in before)
    && forall x :: x in before && x.sender in net.hosts ==>
         (TagsFor(net, now, x, before[x].vid) <==> TagAfter(net, before, tables, order, oldMbName, newMbName, x))
  }

  lemma TagsTrackedOn(net: Network, before: Registry, tables: Flows, order: seq<ChainKey>, oldMbName: Name,
                      newMbName: Name, now: Flows, r: ChainKey, now': Flows)
    requires Sane(net) && oldMbName != "" && r in before
    requires TagsTracked(net, before, tables, order, oldMbName, newMbName, now)
    requires TagsStepped(net, before, r, oldMbName, newMbName, now, now')
    ensures TagsTracked(net, before, tables, if Names(before, r, oldMbName) then order + [r] else order, oldMbName,
                        newMbName, now')
  {
    hide TagsFor;
    hide TagStep;
    hide Names;
    var order' := order + [r];
    assert order'[..|order'| - 1] == order;
  }

  lemma TagsTrackedLeft(net: Network, before: Registry, tables: Flows, order: seq<ChainKey>, oldMbName: Name,
                        newMbName: Name, now: Flows)
    requires Sane(net) && oldMbName != "" && Listed(before, oldMbName, order)
    requires TagsTracked(net, before, tables, order, oldMbName, newMbName, now)
    ensures forall x :: x in before && x.sender in net.hosts ==>
              (TagsFor(net, now, x, before[x].vid) <==> TagLeft(net, before, tables, order, oldMbName, newMbName, x))
  {
    hide TagsFor;
    hide TagAfter;
    hide TagLeft;
    forall x | x in before && x.sender in net.hosts
      ensures TagsFor(net, now, x, before[x].vid) <==> TagLeft(net, before, tables, order, oldMbName, newMbName, x)
    {
      TagAfterIsLeft(net, before, tables, order, oldMbName, newMbName, x);
    }
  }

  /** After a failover the tagging rule of a chain that was not re-installed is there exactly when it was there before
      and no re-installed chain takes it: none with a tagging rule on the same sender switch whose fields its match
      includes, and none that installs its own rule for the very same match. */
  lemma UntouchedTagSurvivesIff(net: Network, before: Registry, tables: Flows, order: seq<ChainKey>, oldMbName: Name,
                                newMbName: Name, x: ChainKey)
    requires Sane(net) && oldMbName != "" && Listed(before, oldMbName, order)
    requires x in before && x.sender in net.hosts && !Names(before, x, oldMbName)
    ensures TagLeft(net, before, tables, order, oldMbName, newMbName, x)
            <==> && TagsFor(net, tables, x, before[x].vid)
                 && forall r :: r in before && Names(before, r, oldMbName) ==>
                      && !(TaggingRecorded(before[r].fullFlow) && SwitchOf(net, r.sender) == net.hosts[x.sender].dpid
                           && Fits(FullMatch(r.fields), FullMatch(x.fields)))
                      && !(Reinstallation(net, before, r, oldMbName, newMbName).rules != [] && r.sender in net.hosts
                           && TaggingKey(net, r) == TaggingKey(net, x))
  {
    hide Reinstallation;
    hide Fits;
    hide TagsFor;
    hide Names;
    hide TaggingRecorded;
    forall r | r in before
      ensures TakesTag(net, before, r, oldMbName, newMbName, x)
              <==> || (TaggingRecorded(before[r].fullFlow) && SwitchOf(net, r.sender) == net.hosts[x.sender].dpid
                       && Fits(FullMatch(r.fields), FullMatch(x.fields)))
                   || (Reinstallation(net, before, r, oldMbName, newMbName).rules != [] && r.sender in net.hosts
                       && TaggingKey(net, r) == TaggingKey(net, x))
    {
    }
    hide TakesTag;
  }

  lemma UnmovedKeeps(net: Network, before: Registry, tables: Flows, k: ChainKey, oldMbName: Name, newMbName: Name,
                     registry: Registry, now: Flows, registry': Registry, now': Flows)
    requires Sane(net) && k in before && oldMbName != "" && k in registry && k in registry'
    requires registry'[k] == registry[k]
    requires VidPart(now', registry[k].vid) == VidPart(now, registry[k].vid)
    ensures ChainKept(before, tables, k, registry, now) ==> ChainKept(before, tables, k, registry', now')
    ensures ChainDone(net, before, tables, k, oldMbName, newMbName, registry, now) ==>
              ChainDone(net, before, tables, k, oldMbName, newMbName, registry', now')
  {
    hide VidPart;
    hide Reinstallation;
  }
}
