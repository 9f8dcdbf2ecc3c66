/** Two chains on one switch, and middleboxes that stamp ids below a chain's tag: packets that go on behind their
    chain. */
module CaughtPackets {
  import opened SwitchGraph
  import opened ChainRoute
  import opened ChainCompiler
  import opened PacketJourney
  import opened ChainRules
  import opened ChainService
  import opened ChainText
  import opened AllChains
  import opened ChainFailures
  import opened SequenceGenerator

  // ---------------------------------------------------------------- the plant

  // Middlebox m1 stamps a packet that carries nothing but its chain's tag; m2 leaves packets as they are.
  function Stamping(stamp: seq<Vid>): Plant {
    Plant(map[], map[Attach(1, 11) := "m1", Attach(1, 12) := "m2"],
          (mb, tags) => if mb == "m1" && |tags| == 1 then tags + stamp else tags)
  }

  lemma StampingIsPlant(stamp: seq<Vid>)
    ensures Sane(ONE_SWITCH) && Cabled(ONE_SWITCH, Stamping(stamp), {1}, [])
    ensures forall vid :: Transparent(Stamping(stamp), vid)
  {
    OneSwitchIsSane();
    forall vid, mb, tags ensures KeepsTag(Stamping(stamp), mb, vid, tags) {
    }
  }

  /** The stamps used here are those of producer 6: 1, 1 and 3072 of its very first number, 1, 3 and 3072 of number
      384. */
  lemma StampsAreIds()
    ensures Nth(0) == 128 && IsValidSeqNum(128) && IsValidSeqNum(384)
    ensures [OuterVlan(128), MiddleVlan(128), InnerVlan(6, 128)] == [1, 1, 3072]
    ensures [OuterVlan(384), MiddleVlan(384), InnerVlan(6, 384)] == [1, 3, 3072]
  {
    hide InnerVlan;
    hide MiddleVlan;
    hide OuterVlan;
    StampOf(128);
    StampOf(384);
  }

  lemma StampOf(seqNum: nat)
    requires seqNum < 524288
    ensures InnerVlan(6, seqNum) == 3072 && MiddleVlan(seqNum) == seqNum / 128
    ensures OuterVlan(seqNum) == seqNum % 128 * 32 + 1
  {
    hide InnerVlan;
    hide MiddleVlan;
    hide OuterVlan;
    InnerIs(6, seqNum);
    MiddleIs(seqNum);
    OuterIs(seqNum);
  }

  // ---------------------------------------------------------------- compilations on one switch

  predicate AllOnSwitch(chain: seq<Name>) { forall i :: 0 <= i < |chain| ==> chain[i] in ONE_SWITCH.mbs }

  function HopsFrom(chain: seq<Name>, i: nat): seq<Hop>
    requires AllOnSwitch(chain)
    decreases |chain| - i
  {
    if i + 1 >= |chain| then []
    else [Hop(1, ONE_SWITCH.mbs[chain[i]].port, ONE_SWITCH.mbs[chain[i + 1]].port, Some(chain[i + 1]))]
         + HopsFrom(chain, i + 1)
  }

  lemma {:induction false} RestCompilesTo(chain: seq<Name>, i: nat, vid: Vid)
    requires Sane(ONE_SWITCH) && AllOnSwitch(chain)
    ensures CompileRest(ONE_SWITCH, chain, i, vid).ok
    ensures CompileRest(ONE_SWITCH, chain, i, vid).hops == HopsFrom(chain, i)
    decreases |chain| - i
  {
    if i + 1 < |chain| {
      SegmentAtSwitch(ONE_SWITCH, ONE_SWITCH.mbs[chain[i]], chain[i + 1]);
      RestCompilesTo(chain, i + 1, vid);
    }
    hide SegmentBetween;
  }

  lemma CompilesTo(sender: Name, chain: seq<Name>, vid: Vid, fields: Fields)
    requires Sane(ONE_SWITCH) && AllOnSwitch(chain) && chain != [] && sender in ONE_SWITCH.hosts
    ensures var c := Compile(ONE_SWITCH, sender, chain, vid, fields);
            && c.ok && ChainCompiled(ONE_SWITCH, c, sender, chain, vid, fields)
            && c.hops == [Hop(1, ONE_SWITCH.hosts[sender].port, ONE_SWITCH.mbs[chain[0]].port, Some(chain[0]))]
                         + HopsFrom(chain, 0)
  {
    FirstHop(sender, chain[0], vid, fields);
    RestCompilesTo(chain, 0, vid);
    JoinsUp(sender, chain, vid, fields);
    CompiledChain(ONE_SWITCH, sender, chain, vid, fields);
    hide *;
  }

  lemma FirstHop(sender: Name, mb: Name, vid: Vid, fields: Fields)
    requires Sane(ONE_SWITCH) && sender in ONE_SWITCH.hosts && mb in ONE_SWITCH.mbs
    ensures var c := CompileFirst(ONE_SWITCH, sender, mb, vid, fields);
            c.ok && c.hops == [Hop(1, ONE_SWITCH.hosts[sender].port, ONE_SWITCH.mbs[mb].port, Some(mb))]
  {
    SegmentAtSwitch(ONE_SWITCH, ONE_SWITCH.hosts[sender], mb);
    hide SegmentBetween;
  }

  lemma JoinsUp(sender: Name, chain: seq<Name>, vid: Vid, fields: Fields)
    requires Sane(ONE_SWITCH) && chain != []
    requires CompileFirst(ONE_SWITCH, sender, chain[0], vid, fields).ok && CompileRest(ONE_SWITCH, chain, 0, vid).ok
    ensures var c := Compile(ONE_SWITCH, sender, chain, vid, fields);
            && c.ok
            && c.hops == CompileFirst(ONE_SWITCH, sender, chain[0], vid, fields).hops
                         + CompileRest(ONE_SWITCH, chain, 0, vid).hops
  {
    hide CompileFirst;
    hide CompileRest;
  }

  // ---------------------------------------------------------------- two chains in the tables

  // What is registered for a chain of ONE_SWITCH.
  function Entry(key: ChainKey, vid: Vid): ChainData
    requires Sane(ONE_SWITCH)
  {
    ChainData(key.chain, vid, Compile(ONE_SWITCH, key.sender, Split(key.chain), vid, FullMatch(key.fields)).fullFlow)
  }

  function Rules(key: ChainKey, vid: Vid): seq<Rule>
    requires Sane(ONE_SWITCH)
  {
    Compile(ONE_SWITCH, key.sender, Split(key.chain), vid, FullMatch(key.fields)).rules
  }

  // The chain of h2 is added first and gets vlan id 1, that of h1 second.
  function OneAdded(a: ChainKey): Registry
    requires Sane(ONE_SWITCH)
  {
    map[a := Entry(a, 1)]
  }

  function TwoAdded(a: ChainKey, b: ChainKey): Registry
    requires Sane(ONE_SWITCH)
  {
    OneAdded(a)[b := Entry(b, 2)]
  }

  function OneInstalled(a: ChainKey): Flows
    requires Sane(ONE_SWITCH)
  {
    InstallAll(map[], Rules(a, 1))
  }

  function TwoInstalled(a: ChainKey, b: ChainKey): Flows
    requires Sane(ONE_SWITCH)
  {
    InstallAll(OneInstalled(a), Rules(b, 2))
  }

  predicate Addable(key: ChainKey, sender: Name) {
    key.sender == sender && key.fields != [] && AllOnSwitch(Split(key.chain)) && sender in ONE_SWITCH.hosts
  }

  lemma EntryCompiles(registry: Registry, key: ChainKey, vid: Vid)
    requires Sane(ONE_SWITCH) && key in registry && registry[key] == Entry(key, vid)
    requires AllOnSwitch(Split(key.chain)) && key.sender in ONE_SWITCH.hosts
    ensures var c, chain := CompilationOf(ONE_SWITCH, registry, key), Split(key.chain);
            && c.ok && c.rules == Rules(key, vid) && c.fullFlow == registry[key].fullFlow && registry[key].vid == vid
            && ChainOf(registry, key) == chain
            && ChainCompiled(ONE_SWITCH, c, key.sender, chain, vid, FullMatch(key.fields))
            && c.hops == [Hop(1, ONE_SWITCH.hosts[key.sender].port, ONE_SWITCH.mbs[chain[0]].port, Some(chain[0]))]
                         + HopsFrom(chain, 0)
  {
    CompilesTo(key.sender, Split(key.chain), vid, FullMatch(key.fields));
    hide Compile;
    hide HopsFrom;
    hide ChainCompiled;
    hide Split;
    hide FullMatch;
  }

  lemma NothingInstalled()
    requires Sane(ONE_SWITCH)
    ensures Inv(ONE_SWITCH, map[], map[], 3) && Owned(map[], map[]) && AllServed(ONE_SWITCH, map[], map[])
    ensures forall vid :: NoVlan(map[], vid)
  {
  }

  lemma FirstServed(a: ChainKey)
    requires Sane(ONE_SWITCH) && Addable(a, "h2")
    ensures Inv(ONE_SWITCH, OneAdded(a), OneInstalled(a), 3) && Owned(OneAdded(a), OneInstalled(a))
    ensures AllServed(ONE_SWITCH, OneAdded(a), OneInstalled(a))
  {
    NothingInstalled();
    var none: Registry := map[];
    var data := Entry(a, 1);
    assert none[a := data] == OneAdded(a);
    EntryCompiles(OneAdded(a), a, 1);
    AddKeepsAllServedIff(ONE_SWITCH, none, map[], 3, a, data);
    InstalledInv(ONE_SWITCH, none, map[], 3, a, data);
    hide CompilationOf;
    hide Split;
    hide FullMatch;
    hide Compile;
    hide InstallAll;
    hide Served;
  }

  lemma SecondServed(a: ChainKey, b: ChainKey)
    requires Sane(ONE_SWITCH) && Addable(a, "h2") && Addable(b, "h1")
    ensures Inv(ONE_SWITCH, TwoAdded(a, b), TwoInstalled(a, b), 3) && Owned(TwoAdded(a, b), TwoInstalled(a, b))
    ensures AllServed(ONE_SWITCH, TwoAdded(a, b), TwoInstalled(a, b))
  {
    hide *;
    FirstServed(a);
    RoomForSecond(a, b);
    AddedAre(a, b);
    EntryCompiles(TwoAdded(a, b), b, 2);
    AddKeepsAllServedIff(ONE_SWITCH, OneAdded(a), OneInstalled(a), 3, b, Entry(b, 2));
    InstalledInv(ONE_SWITCH, OneAdded(a), OneInstalled(a), 3, b, Entry(b, 2));
  }

  lemma AddedAre(a: ChainKey, b: ChainKey)
    requires Sane(ONE_SWITCH) && Addable(a, "h2") && Addable(b, "h1")
    ensures a != b && OneAdded(a).Keys == {a} && OneAdded(a)[a] == Entry(a, 1) && TwoAdded(a, b).Keys == {a, b}
    ensures TwoAdded(a, b) == OneAdded(a)[b := Entry(b, 2)]
    ensures TwoAdded(a, b)[a] == Entry(a, 1) && TwoAdded(a, b)[b] == Entry(b, 2)
    ensures Entry(a, 1).vid == 1 && Entry(b, 2).vid == 2
    ensures TwoInstalled(a, b) == InstallAll(OneInstalled(a), Rules(b, 2))
    ensures b.fields != [] && b.sender in ONE_SWITCH.hosts && a.sender in ONE_SWITCH.hosts
    ensures AllOnSwitch(Split(a.chain)) && AllOnSwitch(Split(b.chain))
  {
    hide Compile;
    hide Split;
    hide FullMatch;
  }

  lemma RoomForSecond(a: ChainKey, b: ChainKey)
    requires Sane(ONE_SWITCH) && Addable(a, "h2") && Addable(b, "h1")
    ensures NoVlan(OneInstalled(a), 2) && b.sender in ONE_SWITCH.hosts
    ensures AloneAtPort(ONE_SWITCH, UntaggedPart(OneInstalled(a)), b) && Apart(ONE_SWITCH, b, a)
  {
    CompilePuts(ONE_SWITCH, a, Split(a.chain), 1);
    var rules := Rules(a, 1);
    hide Compile;
    hide Split;
    hide FullMatch;
    hide Overlap;
    forall k | k in OneInstalled(a)
      ensures k.match_.vlan != Some(2) && (k.match_.vlan.None? ==> k == TaggingKey(ONE_SWITCH, a))
    {
      InstalledKeys(map[], rules, k);
    }
    hide InstallAll;
  }

  // ---------------------------------------------------------------- chain texts

  lemma SplitCons(name: Name, rest: string)
    requires NoComma(name)
    ensures Split(name + ("," + rest)) == [name] + Split(rest)
  {
    SplitPrefix(name, "," + rest);
    assert ("," + rest)[1..] == rest;
    assert Split("," + rest) == [""] + Split(rest);
    assert name + "" == name;
  }

  lemma OneName(name: Name)
    requires NoComma(name)
    ensures Split(name) == [name]
  {
    SplitPrefix(name, "");
    assert name + "" == name;
  }

  lemma Texts()
    ensures Split("m1,m2") == ["m1", "m2"] && Split("m2,m1") == ["m2", "m1"]
    ensures Split("m2,m1,m2") == ["m2", "m1", "m2"] && Split("m1,m2,m1,m2") == ["m1", "m2", "m1", "m2"]
  {
    hide Split;
    OneName("m1");
    OneName("m2");
    SplitCons("m1", "m2");
    SplitCons("m2", "m1");
    SplitCons("m2", "m1,m2");
    SplitCons("m1", "m2,m1,m2");
    assert "m1,m2" == "m1" + ("," + "m2") && "m2,m1" == "m2" + ("," + "m1");
    assert "m2,m1,m2" == "m2" + ("," + "m1,m2") && "m1,m2,m1,m2" == "m1" + ("," + "m2,m1,m2");
  }

  // ---------------------------------------------------------------- the tags at the end of a walk

  // One move of a walk, as far as the tags go.
  lemma EndTagsStep(plant: Plant, c: Compiled, i: nat, j: nat, tags: seq<Vid>)
    requires i < |c.hops| == |c.rules| && LastFor(c.hops, i) == j && !Hairpin(c.hops[j])
    ensures EndTags(plant, c, i, tags)
         == EndTags(plant, c, j + 1, AfterHop(plant, c.rules[j].flow, c.hops[j].visit, tags))
  {
  }

  lemma EndTagsEnd(plant: Plant, c: Compiled, tags: seq<Vid>)
    requires |c.hops| == |c.rules|
    ensures EndTags(plant, c, |c.hops|, tags) == tags
  {
  }

  // The hop j that acts at hop i is the last with its key.
  lemma ActsAt(hops: seq<Hop>, i: nat, j: nat)
    requires i <= j < |hops| && SameKey(hops[j], hops[i])
    requires forall k :: j < k < |hops| ==> !SameKey(hops[k], hops[i])
    ensures LastFor(hops, i) == j
  {
    hide LastFor;
  }

  // What a chain of two middleboxes does to the tags.
  lemma PairEnd(plant: Plant, c: Compiled, sender: Name, chain: seq<Name>, vid: Vid, fields: Fields)
    requires Sane(ONE_SWITCH) && ChainCompiled(ONE_SWITCH, c, sender, chain, vid, fields) && |chain| == 2
    requires |c.hops| == 2 && Clean(c.hops) && c.hops[0].visit == Some(chain[0]) && c.hops[1].visit == Some(chain[1])
    ensures forall tags :: EndTags(plant, c, 1, tags) == plant.works(chain[1], Retagged(tags, Strip))
    ensures EndTags(plant, c, 0, []) == EndTags(plant, c, 1, plant.works(chain[0], [vid]))
  {
    CleanIs(c.hops);
    assert c.rules[0] == RuleOf(c.hops, 0, vid, fields, true) && c.rules[1] == RuleOf(c.hops, 1, vid, fields, true);
    LastIsSelf(c.hops, 0);
    LastIsSelf(c.hops, 1);
    RetagFacts(vid);
    EndTagsStep(plant, c, 0, 0, []);
    forall tags ensures EndTags(plant, c, 1, tags) == plant.works(chain[1], Retagged(tags, Strip)) {
      EndTagsStep(plant, c, 1, 1, tags);
      EndTagsEnd(plant, c, AfterHop(plant, c.rules[1].flow, c.hops[1].visit, tags));
    }
    hide EndTags;
    hide Retagged;
    hide ChainCompiled;
  }

  // ---------------------------------------------------------------- a chain that another chain catches

  // A registered chain of the two middleboxes, in either order.
  lemma PairFacts(plant: Plant, registry: Registry, key: ChainKey, vid: Vid, chain: seq<Name>)
    requires Sane(ONE_SWITCH) && key in registry && registry[key] == Entry(key, vid) && key.sender in ONE_SWITCH.hosts
    requires Split(key.chain) == chain && (chain == ["m1", "m2"] || chain == ["m2", "m1"])
    ensures var c := CompilationOf(ONE_SWITCH, registry, key);
            && ChainOf(registry, key) == chain && registry[key].vid == vid && Clean(c.hops)
            && |c.hops| == |c.rules| == 2
            && HopAt(c.hops[1]) == ONE_SWITCH.mbs[chain[0]] && AllVisits(c.hops, 1) == [chain[1]]
            && AllVisits(c.hops, 0) == chain
            && (forall tags :: EndTags(plant, c, 1, tags) == plant.works(chain[1], Retagged(tags, Strip)))
            && EndTags(plant, c, 0, []) == EndTags(plant, c, 1, plant.works(chain[0], [vid]))
  {
    hide *;
    PairOnSwitch(chain);
    EntryCompiles(registry, key, vid);
    var c := CompilationOf(ONE_SWITCH, registry, key);
    Ports();
    if chain == ["m1", "m2"] {
      PairHops(c.hops, key.sender, "m1", "m2");
    } else {
      PairHops(c.hops, key.sender, "m2", "m1");
    }
    CompiledLengths(c, key.sender, chain, vid, FullMatch(key.fields));
    PairEnd(plant, c, key.sender, chain, vid, FullMatch(key.fields));
  }

  lemma CompiledLengths(c: Compiled, sender: Name, chain: seq<Name>, vid: Vid, fields: Fields)
    requires ChainCompiled(ONE_SWITCH, c, sender, chain, vid, fields)
    ensures |c.hops| == |c.rules|
  {
  }

  lemma Ports()
    ensures ONE_SWITCH.hosts == map["h1" := Attach(1, 10), "h2" := Attach(1, 20)]
    ensures ONE_SWITCH.mbs == map["m1" := Attach(1, 11), "m2" := Attach(1, 12)]
  {
  }

  lemma PairOnSwitch(chain: seq<Name>)
    requires chain == ["m1", "m2"] || chain == ["m2", "m1"]
    ensures AllOnSwitch(chain)
  {
  }

  lemma PairFrom(a: Name, b: Name)
    requires a in ONE_SWITCH.mbs && b in ONE_SWITCH.mbs
    ensures HopsFrom([a, b], 0) == [Hop(1, ONE_SWITCH.mbs[a].port, ONE_SWITCH.mbs[b].port, Some(b))]
  {
    assert HopsFrom([a, b], 1) == [];
  }

  lemma PairHops(hops: seq<Hop>, sender: Name, a: Name, b: Name)
    requires sender in ONE_SWITCH.hosts && a in ONE_SWITCH.mbs && b in ONE_SWITCH.mbs && a != b
    requires AllOnSwitch([a, b])
    requires hops == [Hop(1, ONE_SWITCH.hosts[sender].port, ONE_SWITCH.mbs[a].port, Some(a))] + HopsFrom([a, b], 0)
    ensures |hops| == 2 && hops[0].visit == Some(a) && hops[1].visit == Some(b) && Clean(hops)
    ensures HopAt(hops[1]) == ONE_SWITCH.mbs[a] && AllVisits(hops, 1) == [b] && AllVisits(hops, 0) == [a, b]
  {
    hide AllVisits;
    hide HopsFrom;
    PairFrom(a, b);
    AllVisitsCases(hops, 0);
    AllVisitsCases(hops, 1);
    AllVisitsCases(hops, 2);
  }

  // What the end tags are for the stamp 1, 1, 3072.
  lemma PairTags(plant: Plant, tags: seq<Vid>)
    requires plant == Stamping([1, 1, 3072])
    ensures plant.works("m1", [2]) == [2, 1, 1, 3072] && Retagged([2, 1, 1, 3072], Strip) == [1, 1, 3072]
    ensures plant.works("m2", [1, 1, 3072]) == [1, 1, 3072] && Retagged([1, 1, 3072], Strip) == [1, 3072]
    ensures plant.works("m1", [1, 3072]) == [1, 3072] && plant.works("m2", [1]) == [1]
    ensures Retagged([1], Strip) == [] && plant.works("m1", []) == []
    ensures Outermost([1, 1, 3072]) == Some(1) && Outermost([1, 3072]) == Some(1) && Outermost([]) == None
  {
    assert [2] + [1, 1, 3072] == [2, 1, 1, 3072];
    assert [2, 1, 1, 3072][1..] == [1, 1, 3072] && [1, 1, 3072][1..] == [1, 3072];
  }

  lemma AloneWorks(plant: Plant, a: ChainKey)
    requires Sane(ONE_SWITCH) && Cabled(ONE_SWITCH, plant, {1}, []) && plant == Stamping([1, 1, 3072])
    requires Addable(a, "h2") && Split(a.chain) == ["m2", "m1"]
    ensures AllWork(ONE_SWITCH, plant, OneAdded(a), OneInstalled(a))
  {
    hide *;
    var registry := OneAdded(a);
    OnlyOne(a);
    PairFacts(plant, registry, a, 1, ["m2", "m1"]);
    PairTags(plant, []);
    BothTransparent([1, 1, 3072], registry);
    FirstServed(a);
    EndTagIs(ONE_SWITCH, plant, registry, a);
    CatchesIs(ONE_SWITCH, plant, registry, a, a);
    AloneIsRegular(plant, registry, a);
    AllWorkIff(ONE_SWITCH, plant, {1}, [], registry, OneInstalled(a), 3);
  }

  lemma OnlyOne(a: ChainKey)
    requires Sane(ONE_SWITCH)
    ensures OneAdded(a).Keys == {a} && OneAdded(a)[a] == Entry(a, 1)
    ensures Addable(a, "h2") ==> a.sender in ONE_SWITCH.hosts
  {
    hide Entry;
  }

  lemma AloneIsRegular(plant: Plant, registry: Registry, a: ChainKey)
    requires Sane(ONE_SWITCH) && registry.Keys == {a} && Clean(CompilationOf(ONE_SWITCH, registry, a).hops)
    requires !Catches(ONE_SWITCH, plant, registry, a, a) && TransparentToAll(plant, registry)
    ensures Regular(ONE_SWITCH, plant, registry) && AllClean(ONE_SWITCH, registry)
    ensures NoneCaught(ONE_SWITCH, plant, registry)
  {
    hide CompilationOf;
    hide Catches;
    hide Clean;
    hide EndsOnce;
    hide TransparentToAll;
  }

  /** Chain m2,m1 of host h2 is registered with vlan id 1, and works. Chain m1,m2 of h1 is added with vlan id 2; m1
      stamps its packets with the tags 1, 1 and 3072. Both chains are served and neither clashes with itself. Every
      packet of the second then meets m1 again: the first chain's rule behind m2 takes the exposed tag 1 for its own. */
  lemma ExposedTagIsCaught(fields: seq<(string, string)>)
    requires fields != []
    ensures Sane(ONE_SWITCH) && Cabled(ONE_SWITCH, Stamping([1, 1, 3072]), {1}, [])
    ensures var a, b := ChainKey("h2", "m2,m1", fields), ChainKey("h1", "m1,m2", fields);
            var plant, registry, flows := Stamping([1, 1, 3072]), TwoAdded(a, b), TwoInstalled(a, b);
            && AllWork(ONE_SWITCH, plant, OneAdded(a), OneInstalled(a))
            && AllServed(ONE_SWITCH, registry, flows) && AllClean(ONE_SWITCH, registry)
            && Catches(ONE_SWITCH, plant, registry, a, b)
            && forall packet, steps: nat :: Fits(FullMatch(fields), packet) && steps >= 3 ==>
                 Travel(plant, flows, Arrival(Attach(1, 10), Packet([], packet)), steps).visited == ["m1", "m2", "m1"]
  {
    hide *;
    var a, b := ChainKey("h2", "m2,m1", fields), ChainKey("h1", "m1,m2", fields);
    var plant := Stamping([1, 1, 3072]);
    StampingIsPlant([1, 1, 3072]);
    Texts();
    PairAddable(a, "h2");
    PairAddable(b, "h1");
    AloneWorks(plant, a);
    SecondServed(a, b);
    AddedAre(a, b);
    PairFacts(plant, TwoAdded(a, b), a, 1, ["m2", "m1"]);
    PairFacts(plant, TwoAdded(a, b), b, 2, ["m1", "m2"]);
    BothClean(TwoAdded(a, b), a, b);
    PairTags(plant, []);
    EndTagIs(ONE_SWITCH, plant, TwoAdded(a, b), b);
    CatchesIs(ONE_SWITCH, plant, TwoAdded(a, b), a, b);
    FirstIsLeft("m2", "m1");
    forall packet, steps: nat | Fits(FullMatch(fields), packet) && steps >= 3
      ensures Travel(plant, TwoInstalled(a, b), Arrival(Attach(1, 10), Packet([], packet)), steps).visited
           == ["m1", "m2", "m1"]
    {
      CaughtTravel(plant, a, b, packet, steps);
    }
  }

  lemma PairAddable(key: ChainKey, sender: Name)
    requires key.sender == sender && key.fields != [] && (sender == "h1" || sender == "h2")
    requires Split(key.chain) == ["m1", "m2"] || Split(key.chain) == ["m2", "m1"]
    ensures Addable(key, sender)
  {
    hide Split;
  }

  lemma FirstIsLeft(a: Name, b: Name)
    ensures Leaves([a, b], a) && (a != b ==> !Leaves([a, b], b))
  {
    assert [a, b][0] == a;
  }

  lemma BothClean(registry: Registry, a: ChainKey, b: ChainKey)
    requires Sane(ONE_SWITCH) && registry.Keys == {a, b}
    requires Clean(CompilationOf(ONE_SWITCH, registry, a).hops) && Clean(CompilationOf(ONE_SWITCH, registry, b).hops)
    ensures AllClean(ONE_SWITCH, registry)
  {
    hide CompilationOf;
    hide Clean;
  }

  lemma BothTransparent(stamp: seq<Vid>, registry: Registry)
    ensures TransparentToAll(Stamping(stamp), registry)
  {
    StampingIsPlant(stamp);
    hide Stamping;
  }

  lemma CaughtTravel(plant: Plant, a: ChainKey, b: ChainKey, packet: Fields, steps: nat)
    requires Sane(ONE_SWITCH) && Cabled(ONE_SWITCH, plant, {1}, []) && plant == Stamping([1, 1, 3072])
    requires Addable(a, "h2") && Addable(b, "h1") && Split(a.chain) == ["m2", "m1"] && Split(b.chain) == ["m1", "m2"]
    requires b.sender == "h1" && Fits(FullMatch(b.fields), packet) && steps >= 3
    ensures Travel(plant, TwoInstalled(a, b), Arrival(Attach(1, 10), Packet([], packet)), steps).visited
         == ["m1", "m2", "m1"]
  {
    hide *;
    var net, registry, flows := ONE_SWITCH, TwoAdded(a, b), TwoInstalled(a, b);
    AddedAre(a, b);
    SecondServed(a, b);
    PairFacts(plant, registry, a, 1, ["m2", "m1"]);
    PairFacts(plant, registry, b, 2, ["m1", "m2"]);
    BothTransparent([1, 1, 3072], registry);
    PairTags(plant, []);
    Ports();
    CabledIsPlugged(net, plant, {1}, []);
    var c, d := CompilationOf(net, registry, b), CompilationOf(net, registry, a);
    CleanIs(c.hops);
    CleanIs(d.hops);
    CleanWalk(c.hops, 0);
    CleanWalk(d.hops, 1);
    EndTagIs(net, plant, registry, b);
    JourneyVisits(net, plant, registry, flows, 3, b, packet, steps);
    BehindIs(net, ["m1", "m2"], d.hops[1]);
    CaughtFrom(net, plant, registry, flows, 3, a, b, packet, 1, steps);
    GoesOnIs(net, plant, flows, c, ["m1", "m2"], d, ["m2", "m1"], packet, 1, steps);
    CaughtStops(plant, a, b, packet, steps - 2);
  }

  // Behind m1 nothing takes the tag that is exposed next.
  lemma CaughtStops(plant: Plant, a: ChainKey, b: ChainKey, packet: Fields, steps: nat)
    requires Sane(ONE_SWITCH) && Cabled(ONE_SWITCH, plant, {1}, []) && plant == Stamping([1, 1, 3072])
    requires Addable(a, "h2") && Addable(b, "h1") && Split(a.chain) == ["m2", "m1"] && Split(b.chain) == ["m1", "m2"]
    requires steps >= 1
    ensures a in TwoAdded(a, b)
    ensures var d := CompilationOf(ONE_SWITCH, TwoAdded(a, b), a);
            && |d.hops| == |d.rules| == 2
            && Beyond(ONE_SWITCH, plant, TwoInstalled(a, b), d, ["m2", "m1"], packet, 1, [1, 1, 3072], steps) == []
  {
    var net, registry, flows := ONE_SWITCH, TwoAdded(a, b), TwoInstalled(a, b);
    AddedAre(a, b);
    SecondServed(a, b);
    PairFacts(plant, registry, a, 1, ["m2", "m1"]);
    PairTags(plant, []);
    CabledIsPlugged(net, plant, {1}, []);
    FirstIsLeft("m2", "m1");
    CatcherHasRule(net, plant, registry, flows, 3, a, "m1");
    ServedChain(net, plant, registry, flows, 3, a, packet);
    EndMissesIs(net, flows, 3, "m1", [1, 3072]);
    hide *;
    NothingBeyond(net, plant, CompilationOf(net, registry, a), a.sender, ["m2", "m1"], 1, FullMatch(a.fields),
                  Others(net, flows, a, 1), packet, 1, [1, 1, 3072], steps);
  }

  // ---------------------------------------------------------------- a clash that is made good

  const LONG: seq<Name> := ["m1", "m2", "m1", "m2"]
  const BACK: seq<Name> := ["m2", "m1", "m2"]

  // The hops between m1 and m2.
  const TO_M2 := Hop(1, 11, 12, Some("m2"))
  const TO_M1 := Hop(1, 12, 11, Some("m1"))

  lemma LongHops()
    ensures AllOnSwitch(LONG) && AllOnSwitch(BACK)
    ensures HopsFrom(LONG, 0) == [TO_M2, TO_M1, TO_M2] && HopsFrom(BACK, 0) == [TO_M1, TO_M2]
  {
    assert HopsFrom(LONG, 3) == [] && HopsFrom(BACK, 2) == [];
    assert HopsFrom(LONG, 2) == [TO_M2] && HopsFrom(BACK, 1) == [TO_M2];
    assert HopsFrom(LONG, 1) == [TO_M1, TO_M2];
  }

  // The walk of the chain m1,m2,m1,m2: the last rule at m1's port takes the packet to m2 and ends it.
  lemma LongWalk(hops: seq<Hop>)
    requires hops == [Hop(1, 10, 11, Some("m1")), TO_M2, TO_M1, TO_M2]
    ensures !DistinctKeys(hops) && RunsThrough(hops, 0) && Visits(hops, 0) == ["m1", "m2"] && WalkLength(hops, 0) == 2
    ensures LastFor(hops, 0) == 0 && LastFor(hops, 1) == 3 && !Hairpin(hops[0]) && !Hairpin(hops[3])
  {
    assert SameKey(hops[1], hops[3]);
    ActsAt(hops, 0, 0);
    ActsAt(hops, 1, 3);
    hide LastFor;
    VisitsStep(hops, 0);
    VisitsStep(hops, 1);
    NoVisitsAtEnd(hops);
    hide Visits;
    assert RunsThrough(hops, 4) && WalkLength(hops, 4) == 0;
    assert RunsThrough(hops, 1) && WalkLength(hops, 1) == 1;
  }

  lemma BackWalk(hops: seq<Hop>)
    requires hops == [Hop(1, 20, 12, Some("m2")), TO_M1, TO_M2]
    ensures Clean(hops) && AllVisits(hops, 1) == ["m1", "m2"]
    ensures LastFor(hops, 1) == 1 && LastFor(hops, 2) == 2 && !Hairpin(hops[1]) && !Hairpin(hops[2])
  {
    assert DistinctKeys(hops);
    ActsAt(hops, 1, 1);
    ActsAt(hops, 2, 2);
    AllVisitsCases(hops, 1);
    AllVisitsCases(hops, 2);
    AllVisitsCases(hops, 3);
    hide AllVisits;
    hide LastFor;
  }

  // What both chains make of the stamp 1, 3, 3072.
  lemma LongTags(plant: Plant)
    requires plant == Stamping([1, 3, 3072])
    ensures plant.works("m1", [2]) == [2, 1, 3, 3072] && Retagged([], SetVid(2)) == [2]
    ensures Retagged([2, 1, 3, 3072], Strip) == [1, 3, 3072] && Retagged([1, 3, 3072], Keep) == [1, 3, 3072]
    ensures plant.works("m2", [1, 3, 3072]) == plant.works("m1", [1, 3, 3072]) == [1, 3, 3072]
    ensures Retagged([1, 3, 3072], Strip) == [3, 3072] && plant.works("m2", [3, 3072]) == [3, 3072]
    ensures Outermost([1, 3, 3072]) == Some(1) && Outermost([3, 3072]) == Some(3)
  {
    assert [2] + [1, 3, 3072] == [2, 1, 3, 3072];
    assert [2, 1, 3, 3072][1..] == [1, 3, 3072] && [1, 3, 3072][1..] == [3, 3072];
  }

  lemma LongEnd(plant: Plant, c: Compiled, sender: Name, fields: Fields)
    requires plant == Stamping([1, 3, 3072]) && ChainCompiled(ONE_SWITCH, c, sender, LONG, 2, fields)
    requires c.hops == [Hop(1, 10, 11, Some("m1")), TO_M2, TO_M1, TO_M2]
    ensures |c.rules| == 4 && EndTags(plant, c, 0, []) == [1, 3, 3072]
  {
    LongWalk(c.hops);
    LongTags(plant);
    assert c.rules[0] == RuleOf(c.hops, 0, 2, fields, true) && c.rules[3] == RuleOf(c.hops, 3, 2, fields, true);
    hide Retagged;
    hide ChainCompiled;
    hide Stamping;
    hide LastFor;
    EndTagsStep(plant, c, 0, 0, []);
    EndTagsStep(plant, c, 1, 3, [2, 1, 3, 3072]);
    EndTagsEnd(plant, c, [1, 3, 3072]);
    hide EndTags;
  }

  lemma BackEnd(plant: Plant, d: Compiled, sender: Name, fields: Fields)
    requires plant == Stamping([1, 3, 3072]) && ChainCompiled(ONE_SWITCH, d, sender, BACK, 1, fields)
    requires d.hops == [Hop(1, 20, 12, Some("m2")), TO_M1, TO_M2]
    ensures |d.rules| == 3 && EndTags(plant, d, 1, [1, 3, 3072]) == [3, 3072]
  {
    BackWalk(d.hops);
    LongTags(plant);
    assert d.rules[1] == RuleOf(d.hops, 1, 1, fields, true) && d.rules[2] == RuleOf(d.hops, 2, 1, fields, true);
    hide Retagged;
    hide ChainCompiled;
    hide Stamping;
    hide LastFor;
    EndTagsStep(plant, d, 1, 1, [1, 3, 3072]);
    EndTagsStep(plant, d, 2, 2, [1, 3, 3072]);
    EndTagsEnd(plant, d, [3, 3072]);
    hide EndTags;
  }

  // Both chains as registered.
  lemma LongFacts(plant: Plant, a: ChainKey, b: ChainKey)
    requires Sane(ONE_SWITCH) && plant == Stamping([1, 3, 3072]) && Addable(a, "h2") && Addable(b, "h1")
    requires Split(a.chain) == BACK && Split(b.chain) == LONG
    ensures TwoAdded(a, b).Keys == {a, b} && TwoAdded(a, b)[a].vid == 1 && TwoAdded(a, b)[b].vid == 2
    ensures ChainOf(TwoAdded(a, b), a) == BACK && ChainOf(TwoAdded(a, b), b) == LONG
    ensures var c, d := CompilationOf(ONE_SWITCH, TwoAdded(a, b), b), CompilationOf(ONE_SWITCH, TwoAdded(a, b), a);
            && c.hops == [Hop(1, 10, 11, Some("m1")), TO_M2, TO_M1, TO_M2] && |c.rules| == 4
            && d.hops == [Hop(1, 20, 12, Some("m2")), TO_M1, TO_M2] && |d.rules| == 3
            && EndTags(plant, c, 0, []) == [1, 3, 3072] && EndTags(plant, d, 1, [1, 3, 3072]) == [3, 3072]
  {
    hide *;
    AddedAre(a, b);
    EntryCompiles(TwoAdded(a, b), a, 1);
    EntryCompiles(TwoAdded(a, b), b, 2);
    Ports();
    LongHops();
    LongStarts();
    AddressedFrom(a, "h2");
    AddressedFrom(b, "h1");
    LongEnd(plant, CompilationOf(ONE_SWITCH, TwoAdded(a, b), b), "h1", FullMatch(b.fields));
    BackEnd(plant, CompilationOf(ONE_SWITCH, TwoAdded(a, b), a), "h2", FullMatch(a.fields));
  }

  lemma LongStarts()
    ensures LONG != [] && LONG[0] == "m1" && BACK != [] && BACK[0] == "m2"
    ensures LONG[|LONG| - 1] == "m2" && BACK[|BACK| - 1] == "m2" && ["m1", "m2"] + ["m1", "m2"] == LONG
    ensures HopAt(TO_M1) == Attach(1, 12)
    ensures [Hop(1, 10, 11, Some("m1"))] + [TO_M2, TO_M1, TO_M2] == [Hop(1, 10, 11, Some("m1")), TO_M2, TO_M1, TO_M2]
    ensures [Hop(1, 20, 12, Some("m2"))] + [TO_M1, TO_M2] == [Hop(1, 20, 12, Some("m2")), TO_M1, TO_M2]
  {
  }

  lemma AddressedFrom(key: ChainKey, sender: Name)
    requires Addable(key, sender)
    ensures key.sender == sender
  {
  }

  /** The rules of the chain m1,m2,m1,m2 clash, so its walk ends at m2 after two visits. With the stamp 1, 3, 3072 the
      chain m2,m1,m2 with vlan id 1 takes over there, and brings the packet to m1 and m2 once more: every packet meets
      the chain in order all the same. */
  lemma ClashMadeGood(fields: seq<(string, string)>)
    requires fields != []
    ensures Sane(ONE_SWITCH) && Cabled(ONE_SWITCH, Stamping([1, 3, 3072]), {1}, [])
    ensures var a, b := ChainKey("h2", "m2,m1,m2", fields), ChainKey("h1", "m1,m2,m1,m2", fields);
            var registry, flows := TwoAdded(a, b), TwoInstalled(a, b);
            && b in registry && AllServed(ONE_SWITCH, registry, flows)
            && var c := CompilationOf(ONE_SWITCH, registry, b);
               && !DistinctKeys(c.hops)
               && Implemented(ONE_SWITCH, Stamping([1, 3, 3072]), flows, b, LONG, c)
  {
    hide *;
    var a, b := ChainKey("h2", "m2,m1,m2", fields), ChainKey("h1", "m1,m2,m1,m2", fields);
    StampingIsPlant([1, 3, 3072]);
    var plant, registry, flows := Stamping([1, 3, 3072]), TwoAdded(a, b), TwoInstalled(a, b);
    Texts();
    LongAddable(a, "h2");
    LongAddable(b, "h1");
    SecondServed(a, b);
    LongFacts(plant, a, b);
    var c := CompilationOf(ONE_SWITCH, registry, b);
    LongWalk(c.hops);
    Ports();
    forall packet, steps: nat | Fits(FullMatch(fields), packet) && steps >= |c.hops|
      ensures Travel(plant, flows, Arrival(Attach(1, 10), Packet([], packet)), steps).visited == LONG
    {
      LongTravel(plant, a, b, packet, steps);
    }
    ImplementedIs(ONE_SWITCH, plant, flows, b, LONG, c);
  }

  lemma LongAddable(key: ChainKey, sender: Name)
    requires key.sender == sender && key.fields != [] && (sender == "h1" || sender == "h2")
    requires Split(key.chain) == ["m2", "m1", "m2"] || Split(key.chain) == ["m1", "m2", "m1", "m2"]
    ensures Addable(key, sender)
    ensures Split(key.chain) == BACK || Split(key.chain) == LONG
    ensures Split(key.chain) == ["m2", "m1", "m2"] ==> Split(key.chain) == BACK
    ensures Split(key.chain) == ["m1", "m2", "m1", "m2"] ==> Split(key.chain) == LONG
  {
    hide Split;
  }

  lemma ImplementedIs(net: Network, plant: Plant, flows: Flows, key: ChainKey, chain: seq<Name>, c: Compiled)
    requires key.sender in net.hosts
    requires forall packet, steps: nat :: Fits(FullMatch(key.fields), packet) && steps >= |c.hops| ==>
               Travel(plant, flows, Arrival(net.hosts[key.sender], Packet([], packet)), steps).visited == chain
    ensures Implemented(net, plant, flows, key, chain, c)
  {
    hide Travel;
    hide Fits;
    hide FullMatch;
  }

  lemma LongTravel(plant: Plant, a: ChainKey, b: ChainKey, packet: Fields, steps: nat)
    requires Sane(ONE_SWITCH) && Cabled(ONE_SWITCH, plant, {1}, []) && plant == Stamping([1, 3, 3072])
    requires Addable(a, "h2") && Addable(b, "h1") && Split(a.chain) == BACK && Split(b.chain) == LONG
    requires b.sender == "h1" && Fits(FullMatch(b.fields), packet) && steps >= 4
    ensures Travel(plant, TwoInstalled(a, b), Arrival(Attach(1, 10), Packet([], packet)), steps).visited == LONG
  {
    hide *;
    var net, registry, flows := ONE_SWITCH, TwoAdded(a, b), TwoInstalled(a, b);
    SecondServed(a, b);
    LongFacts(plant, a, b);
    BothTransparent([1, 3, 3072], registry);
    LongTags(plant);
    LongStarts();
    Ports();
    CabledIsPlugged(net, plant, {1}, []);
    var c, d := CompilationOf(net, registry, b), CompilationOf(net, registry, a);
    LongWalk(c.hops);
    BackWalk(d.hops);
    CleanIs(d.hops);
    CleanWalk(d.hops, 1);
    EndTagIs(net, plant, registry, b);
    JourneyVisits(net, plant, registry, flows, 3, b, packet, steps);
    BehindIs(net, LONG, d.hops[1]);
    CaughtFrom(net, plant, registry, flows, 3, a, b, packet, 1, steps);
    GoesOnIs(net, plant, flows, c, LONG, d, BACK, packet, 1, steps);
    LongStops(plant, a, b, packet, steps - 2);
  }

  lemma LongStops(plant: Plant, a: ChainKey, b: ChainKey, packet: Fields, steps: nat)
    requires Sane(ONE_SWITCH) && Cabled(ONE_SWITCH, plant, {1}, []) && plant == Stamping([1, 3, 3072])
    requires Addable(a, "h2") && Addable(b, "h1") && Split(a.chain) == BACK && Split(b.chain) == LONG
    requires steps >= 2
    ensures a in TwoAdded(a, b) && LONG != [] && BACK != [] && BACK[|BACK| - 1] in ONE_SWITCH.mbs
    ensures var d := CompilationOf(ONE_SWITCH, TwoAdded(a, b), a);
            && |d.hops| == |d.rules| == 3
            && Beyond(ONE_SWITCH, plant, TwoInstalled(a, b), d, BACK, packet, 1, [1, 3, 3072], steps) == []
  {
    hide *;
    var net, registry, flows := ONE_SWITCH, TwoAdded(a, b), TwoInstalled(a, b);
    SecondServed(a, b);
    LongFacts(plant, a, b);
    LongTags(plant);
    LongStarts();
    Ports();
    CabledIsPlugged(net, plant, {1}, []);
    ServedChain(net, plant, registry, flows, 3, a, packet);
    InvShapes(net, registry, flows, 3);
    EndMissesIs(net, flows, 3, "m2", [3, 3072]);
    if PortKey(Attach(1, 12), 3) in flows {
      PortKeyOwned(registry, flows, Attach(1, 12), 3);
    }
    NothingBeyond(net, plant, CompilationOf(net, registry, a), a.sender, BACK, 1, FullMatch(a.fields),
                  Others(net, flows, a, 1), packet, 1, [1, 3, 3072], steps);
  }

  lemma InvShapes(net: Network, registry: Registry, flows: Flows, nextVlanId: Vid)
    requires Inv(net, registry, flows, nextVlanId)
    ensures RulesShaped(net, flows, nextVlanId)
  {
  }
}
