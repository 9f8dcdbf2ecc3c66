/** Several master/slave pairs behind one packet logger. Each pair has its own logs and its own clears; the packets are
    shared, so one pair's clear can take away what another pair still needs. */
module SharedPacketLogger {
  import opened PacketIds
  import opened CleanupLists
  import opened PacketStore
  import opened WireTypes
  import opened RecoveryProtocol

  // The pairs by the id of their master; the packets of their states are unused.
  datatype SharedState = SharedState(pairs: map<MbId, State>, packets: Packets)

  datatype Step = Step(pair: MbId, action: Action)

  // A pair as if it had the packet logger to itself.
  function View(ms: SharedState, p: MbId): State
    requires p in ms.pairs
  {
    ms.pairs[p].(packets := ms.packets)
  }

  // A new round starts only while no other pair's round is under way.
  predicate StepEnabled(ms: SharedState, t: Step) {
    && t.pair in ms.pairs && Enabled(View(ms, t.pair), t.action)
    && (t.action.ReadMasterFirst? || t.action.ReadMasterAll? ==> forall q :: q in ms.pairs ==>
        ms.pairs[q].manager.Idle?)
  }

  function TakeStep(ms: SharedState, t: Step): SharedState
    requires StepEnabled(ms, t)
  {
    var after := Apply(View(ms, t.pair), t.action);
    SharedState(ms.pairs[t.pair := after], after.packets)
  }

  function Start(masters: set<MbId>): SharedState { SharedState(map p | p in masters :: INIT, map[]) }

  ghost predicate SharedRun(masters: set<MbId>, states: seq<SharedState>, steps: seq<Step>) {
    && |states| == |steps| + 1 && states[0] == Start(masters)
    && forall i :: 0 <= i < |steps| ==>
        StepEnabled(states[i], steps[i]) && states[i + 1] == TakeStep(states[i], steps[i])
  }

  ghost predicate SharedInv(ms: SharedState) { forall p :: p in ms.pairs ==> Inv(View(ms, p)) }

  // The protocol's invariant does not look at the packets.
  lemma InvForgetsPackets(s: State, packets: Packets)
    ensures Inv(s.(packets := packets)) <==> Inv(s)
  {
    hide SlaveCaughtUp;
  }

  lemma StepKeepsSharedInv(ms: SharedState, t: Step)
    requires SharedInv(ms) && StepEnabled(ms, t)
    ensures SharedInv(TakeStep(ms, t))
  {
    var ms' := TakeStep(ms, t);
    StepKeepsInv(View(ms, t.pair), t.action);
    hide Apply;
    hide Inv;
    forall p | p in ms'.pairs ensures Inv(View(ms', p)) {
      if p == t.pair {
        InvForgetsPackets(ms'.pairs[p], ms'.packets);
      } else {
        InvForgetsPackets(ms.pairs[p], ms.packets);
        InvForgetsPackets(ms.pairs[p], ms'.packets);
      }
    }
  }

  /** Every pair's invariant holds in every state of every run of all pairs together. */
  lemma {:induction false} SharedRunsKeepInv(masters: set<MbId>, states: seq<SharedState>, steps: seq<Step>, i: nat)
    requires SharedRun(masters, states, steps) && i < |states|
    ensures SharedInv(states[i]) && states[i].pairs.Keys == masters
  {
    if i > 0 {
      SharedRunsKeepInv(masters, states, steps, i - 1);
      StepKeepsSharedInv(states[i - 1], steps[i - 1]);
    }
  }

  // ---------------------------------------------------------------- who loses what

  // The ids of pair t.pair's delete request, if the step sends one to the packet logger.
  function DeletedIds(ms: SharedState, t: Step): seq<Id>
    requires StepEnabled(ms, t)
  {
    if t.action.SendNextDelete? && View(ms, t.pair).manager.pending[0].DeletePackets? then
      View(ms, t.pair).manager.pending[0].ids
    else []
  }

  /** A base leaves the packet logger in a step exactly when the step is some pair's delete request and names a version
      of the base no lower than its counter, whatever other pairs have processed. */
  lemma BaseLeavesIff(ms: SharedState, t: Step, b: nat)
    requires StepEnabled(ms, t) && b in ms.packets
    ensures b !in TakeStep(ms, t).packets
            <==> exists i :: 0 <= i < |DeletedIds(ms, t)| && Base(DeletedIds(ms, t)[i]) == b
                             && Version(DeletedIds(ms, t)[i]) >= Counter(ms.packets[b])
  {
    DeleteAllRemoves(ms.packets, DeletedIds(ms, t), b);
  }

  /** In every run: when a base leaves, the slave of the pair that cleared it has logged a version at least as high as
      its counter. */
  lemma BaseLeavesOnlyAfterItsSlave(masters: set<MbId>, states: seq<SharedState>, steps: seq<Step>, i: nat, b: nat)
    requires SharedRun(masters, states, steps) && i < |steps|
    requires b in states[i].packets && b !in states[i + 1].packets
    ensures steps[i].pair in states[i].pairs
    ensures SlaveCaughtUp(states[i].pairs[steps[i].pair].slaveSeen, b, Counter(states[i].packets[b]))
  {
    SharedRunsKeepInv(masters, states, steps, i);
    var s := View(states[i], steps[i].pair);
    BaseLeavesIff(states[i], steps[i], b);
    PacketGoneWasProcessed(s, s.manager.pending[0].ids, b);
  }

  // ---- pairs that do not share packets

  // Which pair may log a base.
  ghost predicate Owns(owner: nat -> MbId, t: Step) {
    (t.action.MasterStore? || t.action.SlaveStore?) ==> owner(Base(t.action.id)) == t.pair
  }

  ghost predicate LogsOwn(owner: nat -> MbId, ms: SharedState) {
    forall p, id :: p in ms.pairs && (id in ms.pairs[p].masterSeen || id in ms.pairs[p].slaveSeen) ==>
        owner(Base(id)) == p
  }

  lemma {:induction false} OwnRunsLogOwn(masters: set<MbId>, states: seq<SharedState>, steps: seq<Step>,
                                         owner: nat -> MbId, i: nat)
    requires SharedRun(masters, states, steps) && i < |states|
    requires forall j :: 0 <= j < i ==> Owns(owner, steps[j])
    ensures LogsOwn(owner, states[i])
  {
    if i > 0 {
      OwnRunsLogOwn(masters, states, steps, owner, i - 1);
      OwnStepLogsOwn(states[i - 1], steps[i - 1], owner);
    }
  }

  lemma OwnStepLogsOwn(ms: SharedState, t: Step, owner: nat -> MbId)
    requires StepEnabled(ms, t) && LogsOwn(owner, ms) && Owns(owner, t)
    ensures LogsOwn(owner, TakeStep(ms, t))
  {
    var ms' := TakeStep(ms, t);
    SeenGrows(View(ms, t.pair), t.action);
    hide Apply;
  }

  lemma SeenGrows(s: State, a: Action)
    requires Enabled(s, a)
    ensures Apply(s, a).masterSeen == s.masterSeen + if a.MasterStore? then {a.id} else {}
    ensures Apply(s, a).slaveSeen == s.slaveSeen + if a.SlaveStore? then {a.id} else {}
  {
  }

  /** If every base is logged by one pair only, a base leaves the packet logger only after the slave of whichever pair's
      master ever logged it has caught up with it. */
  lemma SeparatePairsAreSafe(masters: set<MbId>, states: seq<SharedState>, steps: seq<Step>, owner: nat -> MbId, i: nat,
                             b: nat, q: MbId, id: Id)
    requires SharedRun(masters, states, steps) && i < |steps|
    requires forall j :: 0 <= j < i ==> Owns(owner, steps[j])
    requires b in states[i].packets && b !in states[i + 1].packets
    requires q in states[i].pairs && id in states[i].pairs[q].masterSeen && Base(id) == b
    ensures SlaveCaughtUp(states[i].pairs[q].slaveSeen, b, Counter(states[i].packets[b]))
  {
    OwnRunsLogOwn(masters, states, steps, owner, i);
    BaseLeavesOnlyAfterItsSlave(masters, states, steps, i, b);
    var p := steps[i].pair;
    var n := Counter(states[i].packets[b]);
    var done :| done in states[i].pairs[p].slaveSeen && Base(done) == b && Version(done) >= n;
    assert owner(Base(done)) == p && owner(Base(id)) == q;
  }

  // ---- pairs that do

  // The pair's master logged a packet that its slave has nothing of.
  predicate Needs(ms: SharedState, q: MbId, b: nat)
    requires q in ms.pairs
  {
    && (exists i :: 0 <= i < |ms.pairs[q].masterLog| && Base(ms.pairs[q].masterLog[i]) == b)
    && forall id :: id in ms.pairs[q].slaveSeen ==> Base(id) != b
  }

  /** A step takes away a packet that pair q needs exactly when another pair's delete request names a version of it no
      lower than its counter. */
  lemma NeededIsLostIff(masters: set<MbId>, states: seq<SharedState>, steps: seq<Step>, i: nat, q: MbId, b: nat)
    requires SharedRun(masters, states, steps) && i < |steps|
    requires b in states[i].packets && q in states[i].pairs && Needs(states[i], q, b)
    ensures StepEnabled(states[i], steps[i])
    ensures b !in states[i + 1].packets
            <==> && steps[i].pair != q
                 && exists k :: && 0 <= k < |DeletedIds(states[i], steps[i])|
                                && Base(DeletedIds(states[i], steps[i])[k]) == b
                                && Version(DeletedIds(states[i], steps[i])[k]) >= Counter(states[i].packets[b])
  {
    BaseLeavesIff(states[i], steps[i], b);
    if b !in states[i + 1].packets {
      BaseLeavesOnlyAfterItsSlave(masters, states, steps, i, b);
    }
    hide TakeStep;
    hide StepEnabled;
  }

  ghost predicate SharedReachable(masters: set<MbId>, ms: SharedState) {
    exists states, steps :: SharedRun(masters, states, steps) && states[|steps|] == ms
  }

  lemma StartReachable(masters: set<MbId>)
    ensures SharedReachable(masters, Start(masters))
  {
    var states, steps: seq<Step> := [Start(masters)], [];
    assert SharedRun(masters, states, steps) && states[|steps|] == Start(masters);
  }

  lemma TakeStepReachable(masters: set<MbId>, ms: SharedState, t: Step)
    requires SharedReachable(masters, ms) && StepEnabled(ms, t)
    ensures SharedReachable(masters, TakeStep(ms, t))
  {
    var states, steps :| SharedRun(masters, states, steps) && states[|steps|] == ms;
    var states', steps' := states + [TakeStep(ms, t)], steps + [t];
    assert SharedRun(masters, states', steps') && states'[|steps'|] == TakeStep(ms, t);
  }

  /** A packet passes both masters. The first pair clears it before the second master's version is stored and before the
      second slave has seen it: it is gone, and the second pair still needs it. */
  lemma SharedBaseIsLost(x: Id, y: Id)
    requires Generated(x) && Generated(y) && Base(x) == Base(y) && Version(x) >= 1
    ensures exists ms :: SharedReachable({6, 7}, ms) && 7 in ms.pairs && Base(x) !in ms.packets && Needs(ms, 7, Base(x))
  {
    var ms := ReachBeforeDeletes(x, y);
    var one := DeleteStep(ms, x, [DeleteFromMaster(1), DeleteFromSlave(1), DeletePackets([x])]);
    var two := DeleteStep(one, x, [DeleteFromSlave(1), DeletePackets([x])]);
    var three := DeleteStep(two, x, [DeletePackets([x])]);
    LastDelete(two, x);
    assert three.pairs[7].masterLog[0] == y;
  }

  lemma OwnRequests(x: Id)
    requires Generated(x)
    ensures ClearRequests([x], [x]) == [DeleteFromMaster(1), DeleteFromSlave(1), DeletePackets([x])]
  {
    CollectedIs([x], [x]);
    CommonOfSelf([x]);
    hide CollectFor;
    var none: seq<Id> := [];
    assert [x] + none == [x];
  }

  lemma ReachBeforeDeletes(x: Id, y: Id) returns (ms: SharedState)
    requires Generated(x) && Generated(y)
    ensures SharedReachable({6, 7}, ms) && ms.pairs.Keys == {6, 7}
    ensures ms.pairs[6].manager == Clearing([x], [x], [DeleteFromMaster(1), DeleteFromSlave(1), DeletePackets([x])])
    ensures ms.pairs[7].masterLog == [y] && ms.pairs[7].slaveSeen == {}
    ensures ms.packets == map[Base(x) := [VersionData(Version(x), 0, [])]]
  {
    hide SharedReachable;
    hide ClearRequests;
    OwnRequests(x);
    var s := ReachLogged(x, y);
    var read := StepTo(s, 6, ReadMasterAll);
    ms := StepTo(read, 6, ReadSlaveAll);
  }

  lemma ReachLogged(x: Id, y: Id) returns (ms: SharedState)
    requires Generated(x) && Generated(y)
    ensures SharedReachable({6, 7}, ms) && ms.pairs.Keys == {6, 7}
    ensures ms.pairs[6].masterLog == [x] && ms.pairs[6].slaveLog == [x] && ms.pairs[6].manager == Idle
    ensures ms.pairs[7].masterLog == [y] && ms.pairs[7].slaveSeen == {} && ms.pairs[7].manager == Idle
    ensures ms.packets == map[Base(x) := [VersionData(Version(x), 0, [])]]
  {
    hide SharedReachable;
    StartReachable({6, 7});
    var s1 := StepTo(Start({6, 7}), 6, StorePacket(x, 0, []));
    FirstPacket(x);
    var s2 := StepTo(s1, 6, MasterStore(x));
    assert s2.pairs[6].masterLog == [x];
    var s3 := StepTo(s2, 6, SlaveStore(x));
    assert s3.pairs[6].slaveLog == [x];
    ms := StepTo(s3, 7, MasterStore(y));
    assert ms.pairs[7].masterLog == [y];
  }

  lemma FirstPacket(x: Id)
    ensures AddVersion(map[], x, 0, []) == map[Base(x) := [VersionData(Version(x), 0, [])]]
  {
    var none: seq<VersionData> := [];
    assert VersionsOf(map[], Base(x)) == none;
    assert none + [VersionData(Version(x), 0, [])] == [VersionData(Version(x), 0, [])];
  }

  lemma StepTo(ms: SharedState, p: MbId, a: Action) returns (ms': SharedState)
    requires SharedReachable({6, 7}, ms) && StepEnabled(ms, Step(p, a))
    ensures ms' == TakeStep(ms, Step(p, a)) && SharedReachable({6, 7}, ms')
  {
    ms' := TakeStep(ms, Step(p, a));
    TakeStepReachable({6, 7}, ms, Step(p, a));
  }

  lemma DeleteStep(ms: SharedState, x: Id, pending: seq<Request>) returns (ms': SharedState)
    requires SharedReachable({6, 7}, ms) && ms.pairs.Keys == {6, 7}
    requires ms.pairs[6].manager == Clearing([x], [x], pending) && pending != []
    ensures SharedReachable({6, 7}, ms') && ms' == TakeStep(ms, Step(6, SendNextDelete)) && ms'.pairs.Keys == {6, 7}
    ensures ms'.pairs[6].manager == Clearing([x], [x], pending[1..]) && ms'.pairs[7] == ms.pairs[7]
    ensures !pending[0].DeletePackets? ==> ms'.packets == ms.packets
  {
    ms' := TakeStep(ms, Step(6, SendNextDelete));
    TakeStepReachable({6, 7}, ms, Step(6, SendNextDelete));
    hide SharedReachable;
  }

  lemma LastDelete(ms: SharedState, x: Id)
    requires ms.pairs.Keys == {6, 7} && ms.pairs[6].manager == Clearing([x], [x], [DeletePackets([x])])
    requires ms.packets == map[Base(x) := [VersionData(Version(x), 0, [])]] && Version(x) >= 1
    ensures Base(x) !in TakeStep(ms, Step(6, SendNextDelete)).packets
  {
    BaseLeavesIff(ms, Step(6, SendNextDelete), Base(x));
    assert DeletedIds(ms, Step(6, SendNextDelete)) == [x];
    assert [x][0] == x;
    hide TakeStep;
  }
}
