/** The master, the slave, the packet logger and the cleanup manager as one step system. Each server request is one
    step; stores by the master, the slave and the packet sources interleave freely with the manager's requests, and
    the manager runs one round at a time. */
module RecoveryProtocol {
  import opened PacketIds
  import opened CleanupLists
  import opened PacketStore
  import opened DetLog
  import opened WireTypes

  datatype Request = DeleteFromMaster(n: nat) | DeleteFromSlave(n: nat) | DeletePackets(ids: seq<Id>)

  datatype Manager =
    | Idle
    | MasterFirstRead(master: seq<Id>)                                  // replay, between its two queries
    | ReplayPlanned(toReplay: seq<Id>)                                  // replay, before the list is sent
    | MasterAllRead(master: seq<Id>)                                    // clear, between its two queries
    | Clearing(master: seq<Id>, slave: seq<Id>, pending: seq<Request>)  // clear, with requests still to send

  datatype State = State(
    masterLog: seq<Id>,
    slaveLog: seq<Id>,
    packets: Packets,
    manager: Manager,
    // history
    masterSeen: set<Id>,        // every id the master ever logged
    slaveSeen: set<Id>,         // every id the slave ever logged
    sent: set<Id>,              // every id ever sent to the slave for replay
    retired: set<(nat, nat)>)   // every base that left the packet logger, with the counter it then had

  datatype Action =
    | MasterStore(id: Id)
    | SlaveStore(id: Id)
    | StorePacket(id: Id, offset: nat, data: seq<Byte>)
    | ReadMasterFirst
    | ReadSlaveFirst
    | SendReplay
    | ReadMasterAll
    | ReadSlaveAll
    | SendNextDelete
    | FinishClear

  const INIT := State([], [], map[], Idle, {}, {}, {}, {})

  // ---------------------------------------------------------------- the clear's requests

  predicate DeletesEverything(master: seq<Id>, slave: seq<Id>, common: seq<Id>) {
    |common| == 0 && |master| < 2 * |slave|
  }

  function Requests(master: seq<Id>, slave: seq<Id>, common: seq<Id>, orphans: seq<Id>): seq<Request> {
    if DeletesEverything(master, slave, common) then
      [DeleteFromMaster(|master|), DeleteFromSlave(|slave|)]
    else
      (if |common| > 0 then [DeleteFromMaster(|common|)] else [])
      + (if |common + orphans| > 0 then [DeleteFromSlave(|common + orphans|), DeletePackets(common + orphans)] else [])
  }

  // An empty master list is replaced by the slave's.
  function Reference(master: seq<Id>, slave: seq<Id>): seq<Id> { if |master| == 0 then slave else master }

  function CollectFor(master: seq<Id>, slave: seq<Id>): Collected {
    Collect(Reference(master, slave), slave, {}, INT_MAX, {})
  }

  function ClearRequests(master: seq<Id>, slave: seq<Id>): seq<Request> {
    Requests(master, slave, CollectFor(master, slave).common, CollectFor(master, slave).orphans)
  }

  // ---------------------------------------------------------------- steps

  predicate Enabled(s: State, a: Action) {
    match a
    case MasterStore(id) => Generated(id)
    case SlaveStore(id) => Generated(id)
    case StorePacket(id, _, _) => Generated(id)
    case ReadMasterFirst => s.manager.Idle?
    case ReadSlaveFirst => s.manager.MasterFirstRead?
    case SendReplay => s.manager.ReplayPlanned?
    case ReadMasterAll => s.manager.Idle?
    case ReadSlaveAll => s.manager.MasterAllRead?
    case SendNextDelete => s.manager.Clearing? && s.manager.pending != []
    case FinishClear => s.manager.Clearing? && s.manager.pending == []
  }

  function RetiredBy(before: Packets, after: Packets): set<(nat, nat)> {
    set b | b in before && b !in after :: (b, Counter(before[b]))
  }

  function Deliver(s: State, request: Request): State {
    match request
    case DeleteFromMaster(n) => s.(masterLog := DropFirst(s.masterLog, n))
    case DeleteFromSlave(n) => s.(slaveLog := DropFirst(s.slaveLog, n))
    case DeletePackets(ids) =>
      var left := DeleteAll(s.packets, ids);
      s.(packets := left, retired := s.retired + RetiredBy(s.packets, left))
  }

  function DeliverAll(s: State, requests: seq<Request>): State
    decreases requests
  {
    if requests == [] then s else DeliverAll(Deliver(s, requests[0]), requests[1..])
  }

  function Planned(plan: ReplayPlan): seq<Id> { if plan.Plan? then plan.toReplay else [] }

  function Apply(s: State, a: Action): State
    requires Enabled(s, a)
  {
    match a
    case MasterStore(id) => s.(masterLog := s.masterLog + [id], masterSeen := s.masterSeen + {id})
    case SlaveStore(id) => s.(slaveLog := s.slaveLog + [id], slaveSeen := s.slaveSeen + {id})
    case StorePacket(id, offset, data) => s.(packets := AddVersion(s.packets, id, offset, data))
    case ReadMasterFirst => s.(manager := MasterFirstRead(FirstVersions(s.masterLog)))
    case ReadSlaveFirst =>
      s.(manager := ReplayPlanned(Planned(Unprocessed(s.manager.master, FirstVersions(s.slaveLog), {}))))
    case SendReplay => s.(manager := Idle, sent := s.sent + IdSet(s.manager.toReplay))
    case ReadMasterAll => s.(manager := MasterAllRead(s.masterLog))
    case ReadSlaveAll =>
      s.(manager := Clearing(s.manager.master, s.slaveLog, ClearRequests(s.manager.master, s.slaveLog)))
    case SendNextDelete =>
      Deliver(s, s.manager.pending[0]).(manager := s.manager.(pending := s.manager.pending[1..]))
    case FinishClear => s.(manager := Idle)
  }

  ghost predicate Run(states: seq<State>, actions: seq<Action>) {
    && |states| == |actions| + 1
    && states[0] == INIT
    && forall i :: 0 <= i < |actions| ==>
        Enabled(states[i], actions[i]) && states[i + 1] == Apply(states[i], actions[i])
  }

  // ---------------------------------------------------------------- the invariant

  predicate LogsSeen(s: State) {
    && AllGenerated(s.masterLog) && AllGenerated(s.slaveLog)
    && (forall id :: id in s.masterLog ==> id in s.masterSeen)
    && (forall id :: id in s.slaveLog ==> id in s.slaveSeen)
    && s.sent <= s.masterSeen
  }

  predicate AwaitsMaster(pending: seq<Request>) { pending != [] && pending[0].DeleteFromMaster? }

  predicate AwaitsSlave(pending: seq<Request>) {
    || (pending != [] && pending[0].DeleteFromSlave?)
    || (|pending| > 1 && pending[0].DeleteFromMaster? && pending[1].DeleteFromSlave?)
  }

  // What can be left of the requests of a clear.
  predicate LeftToSend(pending: seq<Request>, m: seq<Id>, sl: seq<Id>, c: seq<Id>, o: seq<Id>) {
    || pending == []
    || if DeletesEverything(m, sl, c) then
         pending == [DeleteFromMaster(|m|), DeleteFromSlave(|sl|)] || pending == [DeleteFromSlave(|sl|)]
       else
         || (c != [] && pending == [DeleteFromMaster(|c|), DeleteFromSlave(|c + o|), DeletePackets(c + o)])
         || pending == [DeleteFromSlave(|c + o|), DeletePackets(c + o)]
         || pending == [DeletePackets(c + o)]
  }

  // What is pending is what is left of the requests computed from the two snapshots; a snapshot stays a prefix of
  // the log it was taken from until the deletion it justifies has been sent.
  predicate ClearJustified(s: State)
    requires s.manager.Clearing?
  {
    var Clearing(m, sl, pending) := s.manager;
    && AllGenerated(m) && AllGenerated(sl)
    && (forall id :: id in sl ==> id in s.slaveSeen)
    && LeftToSend(pending, m, sl, CollectFor(m, sl).common, CollectFor(m, sl).orphans)
    && (AwaitsMaster(pending) ==> m <= s.masterLog)
    && (AwaitsSlave(pending) ==> sl <= s.slaveLog)
  }

  predicate ManagerJustified(s: State) {
    match s.manager
    case Idle => true
    case MasterFirstRead(m) => DistinctBases(m) && forall id :: id in m ==> id in s.masterSeen
    case ReplayPlanned(ids) => forall id :: id in ids ==> id in s.masterSeen
    case MasterAllRead(m) => AllGenerated(m) && m <= s.masterLog
    case Clearing(_, _, _) => ClearJustified(s)
  }

  // The slave logged a version of the base at least as high as n, the counter the packet logger had for it.
  ghost predicate SlaveCaughtUp(slaveSeen: set<Id>, b: nat, n: nat) {
    exists id :: id in slaveSeen && Base(id) == b && Version(id) >= n
  }

  ghost predicate RetiredAreProcessed(s: State) {
    forall r :: r in s.retired ==> SlaveCaughtUp(s.slaveSeen, r.0, r.1)
  }

  ghost predicate Inv(s: State) { LogsSeen(s) && ManagerJustified(s) && RetiredAreProcessed(s) }

  // ---- facts about the requests

  lemma CollectedIs(master: seq<Id>, slave: seq<Id>)
    requires AllGenerated(master) && AllGenerated(slave)
    ensures CollectFor(master, slave).common == CommonIds(Reference(master, slave), slave)
    ensures CollectFor(master, slave).orphans == OrphanIds(Reference(master, slave), slave)
  {
    CollectIsCommon(Reference(master, slave), slave, {}, {});
  }

  // Every id in the two lists was in the slave's snapshot.
  lemma CollectedAreInSlave(reference: seq<Id>, slave: seq<Id>, id: Id)
    requires id in CommonIds(reference, slave) + OrphanIds(reference, slave)
    ensures id in slave
  {
    CommonAndOrphansAreCounted(reference, slave);
    assert id in multiset(CommonIds(reference, slave) + OrphanIds(reference, slave));
    assert id in slave[..SlaveReach(reference, slave)];
  }

  lemma RequestsAreLeft(m: seq<Id>, sl: seq<Id>, c: seq<Id>, o: seq<Id>)
    ensures LeftToSend(Requests(m, sl, c, o), m, sl, c, o)
  {
  }

  // The master's count comes first, an id list last.
  lemma SendingOne(pending: seq<Request>, m: seq<Id>, sl: seq<Id>, c: seq<Id>, o: seq<Id>)
    requires LeftToSend(pending, m, sl, c, o) && pending != []
    ensures LeftToSend(pending[1..], m, sl, c, o) && !AwaitsMaster(pending[1..])
    ensures AwaitsSlave(pending[1..]) ==> AwaitsSlave(pending) && pending[0].DeleteFromMaster?
    ensures pending[0].DeletePackets? ==> pending[0].ids == c + o
  {
    hide DeletesEverything;
    var rest := pending[1..];
    if |pending| == 1 {
      assert rest == [];
    } else if |pending| == 2 {
      assert rest == [pending[1]];
    } else {
      assert rest == [pending[1], pending[2]];
    }
  }

  lemma {:induction false} FirstVersionsAreIn(log: seq<Id>, id: Id)
    requires id in FirstVersions(log)
    ensures id in log
  {
    var front := log[..|log| - 1];
    if id in FirstVersions(front) {
      FirstVersionsAreIn(front, id);
    }
  }

  lemma {:induction false} MissingAreIn(master: seq<Id>, slave: seq<Id>, i: nat, id: Id)
    requires i <= |master| && id in MissingFrom(master, slave, i)
    ensures id in master
    decreases |master| - i
  {
    if id != master[i] {
      MissingAreIn(master, slave, i + 1, id);
    }
  }

  // ---- every step keeps the invariant

  lemma StoreKeepsInv(s: State, a: Action)
    requires Inv(s) && Enabled(s, a) && (a.MasterStore? || a.SlaveStore? || a.StorePacket?)
    ensures Inv(Apply(s, a))
  {
    var s' := Apply(s, a);
    forall r | r in s'.retired ensures SlaveCaughtUp(s'.slaveSeen, r.0, r.1) {
      assert SlaveCaughtUp(s.slaveSeen, r.0, r.1);
      var id :| id in s.slaveSeen && Base(id) == r.0 && Version(id) >= r.1;
      assert id in s'.slaveSeen;
    }
  }

  lemma ReplayKeepsInv(s: State, a: Action)
    requires Inv(s) && Enabled(s, a) && (a.ReadMasterFirst? || a.ReadSlaveFirst? || a.SendReplay?)
    ensures Inv(Apply(s, a))
    ensures a.ReadSlaveFirst? ==> Unprocessed(s.manager.master, FirstVersions(s.slaveLog), {}).Plan?
  {
    match a
    case SendReplay =>
    case ReadMasterFirst =>
      FirstVersionsAreFirstOccurrences(s.masterLog);
      forall id | id in FirstVersions(s.masterLog) ensures id in s.masterSeen {
        FirstVersionsAreIn(s.masterLog, id);
      }
    case ReadSlaveFirst =>
      var m, sl := s.manager.master, FirstVersions(s.slaveLog);
      ReplayListIsMissing(m, sl, {});
      forall id | id in Missing(m, sl) ensures id in s.masterSeen {
        MissingAreIn(m, sl, 0, id);
      }
  }

  lemma ReadKeepsInv(s: State, a: Action)
    requires Inv(s) && Enabled(s, a) && (a.ReadMasterAll? || a.ReadSlaveAll? || a.FinishClear?)
    ensures Inv(Apply(s, a))
  {
    if a.ReadSlaveAll? {
      var m, sl := s.manager.master, s.slaveLog;
      RequestsAreLeft(m, sl, CollectFor(m, sl).common, CollectFor(m, sl).orphans);
      hide LeftToSend;
    }
  }

  lemma DeleteKeepsInv(s: State)
    requires Inv(s) && Enabled(s, SendNextDelete)
    ensures Inv(Apply(s, SendNextDelete))
  {
    DeliverKeepsLogs(s, s.manager.pending[0]);
    DeleteKeepsClearJustified(s);
    DeletedPacketsAreProcessed(s);
  }

  lemma DropKeeps(log: seq<Id>, n: nat)
    requires AllGenerated(log)
    ensures AllGenerated(DropFirst(log, n))
    ensures forall id :: id in DropFirst(log, n) ==> id in log
  {
  }

  lemma DeliverKeepsLogs(s: State, request: Request)
    requires LogsSeen(s)
    ensures LogsSeen(Deliver(s, request))
  {
    match request
    case DeletePackets(ids) =>
    case DeleteFromMaster(n) => DropKeeps(s.masterLog, n);
    case DeleteFromSlave(n) => DropKeeps(s.slaveLog, n);
  }

  lemma DeleteKeepsClearJustified(s: State)
    requires s.manager.Clearing? && ClearJustified(s) && s.manager.pending != []
    ensures ClearJustified(Apply(s, SendNextDelete))
  {
    var Clearing(m, sl, pending) := s.manager;
    SendingOne(pending, m, sl, CollectFor(m, sl).common, CollectFor(m, sl).orphans);
    hide LeftToSend;
    hide CollectFor;
  }

  lemma DeletedPacketsAreProcessed(s: State)
    requires Inv(s) && Enabled(s, SendNextDelete)
    ensures RetiredAreProcessed(Apply(s, SendNextDelete))
  {
    var s' := Apply(s, SendNextDelete);
    var request := s.manager.pending[0];
    if request.DeletePackets? {
      forall r | r in s'.retired ensures SlaveCaughtUp(s'.slaveSeen, r.0, r.1) {
        if r !in s.retired {
          PacketGoneWasProcessed(s, request.ids, r.0);
        }
      }
    }
  }

  lemma PacketGoneWasProcessed(s: State, ids: seq<Id>, b: nat)
    requires Inv(s) && Enabled(s, SendNextDelete) && s.manager.pending[0] == DeletePackets(ids)
    requires b in s.packets && b !in DeleteAll(s.packets, ids)
    ensures SlaveCaughtUp(s.slaveSeen, b, Counter(s.packets[b]))
  {
    DeleteAllRemoves(s.packets, ids, b);
    var i :| 0 <= i < |ids| && Base(ids[i]) == b && Version(ids[i]) >= Counter(s.packets[b]);
    PendingIdsAreInSlave(s, ids);
    assert ids[i] in s.slaveSeen;
  }

  lemma PendingIdsAreInSlave(s: State, ids: seq<Id>)
    requires Inv(s) && Enabled(s, SendNextDelete) && s.manager.pending[0] == DeletePackets(ids)
    ensures forall id :: id in ids ==> id in s.slaveSeen
  {
    var Clearing(m, sl, pending) := s.manager;
    var reference := Reference(m, sl);
    CollectedIs(m, sl);
    SendingOne(pending, m, sl, CollectFor(m, sl).common, CollectFor(m, sl).orphans);
    hide LeftToSend;
    forall id | id in ids ensures id in s.slaveSeen {
      CollectedAreInSlave(reference, sl, id);
    }
  }

  lemma StepKeepsInv(s: State, a: Action)
    requires Inv(s) && Enabled(s, a)
    ensures Inv(Apply(s, a))
  {
    match a
    case MasterStore(_) => StoreKeepsInv(s, a);
    case SlaveStore(_) => StoreKeepsInv(s, a);
    case StorePacket(_, _, _) => StoreKeepsInv(s, a);
    case ReadMasterFirst => ReplayKeepsInv(s, a);
    case ReadSlaveFirst => ReplayKeepsInv(s, a);
    case SendReplay => ReplayKeepsInv(s, a);
    case ReadMasterAll => ReadKeepsInv(s, a);
    case ReadSlaveAll => ReadKeepsInv(s, a);
    case SendNextDelete => DeleteKeepsInv(s);
    case FinishClear => ReadKeepsInv(s, a);
  }

  /** The invariant holds in every state of every run. */
  lemma {:induction false} RunsKeepInv(states: seq<State>, actions: seq<Action>, i: nat)
    requires Run(states, actions) && i < |states|
    ensures Inv(states[i])
  {
    if i > 0 {
      RunsKeepInv(states, actions, i - 1);
      StepKeepsInv(states[i - 1], actions[i - 1]);
    }
  }

  // ---------------------------------------------------------------- packet safety

  /** In every run, in the regular, empty-master and delete-all branches alike: when a base leaves the packet logger,
      the slave has already logged an id of that base whose version is at least the counter of versions then stored. */
  lemma PacketLeavesOnlyAfterSlave(states: seq<State>, actions: seq<Action>, i: nat, b: nat)
    requires Run(states, actions) && i < |actions|
    requires b in states[i].packets && b !in states[i + 1].packets
    ensures SlaveCaughtUp(states[i].slaveSeen, b, Counter(states[i].packets[b]))
  {
    RunsKeepInv(states, actions, i);
    var s := states[i];
    PacketGoneWasProcessed(s, s.manager.pending[0].ids, b);
  }

  /** Nothing is ever sent to the slave that the master had not logged, and the replay loop never leaves its vector. */
  lemma ReplaySendsOnlyMasterIds(states: seq<State>, actions: seq<Action>, i: nat)
    requires Run(states, actions) && i < |actions|
    ensures states[i].sent <= states[i].masterSeen
    ensures actions[i].ReadSlaveFirst? ==>
              Unprocessed(states[i].manager.master, FirstVersions(states[i].slaveLog), {}).Plan?
  {
    RunsKeepInv(states, actions, i);
    if actions[i].ReadSlaveFirst? {
      ReplayKeepsInv(states[i], actions[i]);
    }
  }

  // ---------------------------------------------------------------- deletion by count

  // Ids the next delete request takes out of a log.
  function NextFromMaster(s: State): seq<Id>
    requires s.manager.Clearing? && s.manager.pending != [] && s.manager.pending[0].DeleteFromMaster?
  {
    TakeFirst(s.masterLog, s.manager.pending[0].n)
  }

  function NextFromSlave(s: State): seq<Id>
    requires s.manager.Clearing? && s.manager.pending != [] && s.manager.pending[0].DeleteFromSlave?
  {
    TakeFirst(s.slaveLog, s.manager.pending[0].n)
  }

  predicate EmptiesBothLogs(manager: Manager)
    requires manager.Clearing?
  {
    DeletesEverything(manager.master, manager.slave, CommonIds(Reference(manager.master, manager.slave), manager.slave))
  }

  /** However many ids the master logged since the snapshot, the count sent to its logger removes exactly the common
      ids (master snapshot not empty, regular branch). */
  lemma MasterCountRemovesCommon(states: seq<State>, actions: seq<Action>, i: nat)
    requires Run(states, actions) && i < |states|
    requires states[i].manager.Clearing? && AwaitsMaster(states[i].manager.pending)
    requires states[i].manager.master != [] && !EmptiesBothLogs(states[i].manager)
    ensures NextFromMaster(states[i]) == CommonIds(states[i].manager.master, states[i].manager.slave)
  {
    RunsKeepInv(states, actions, i);
    var s := states[i];
    var Clearing(m, sl, pending) := s.manager;
    CollectedIs(m, sl);
    CommonAndOrphansAreCounted(m, sl);
    PrefixOfPrefix(CommonIds(m, sl), m, s.masterLog);
  }

  lemma PrefixOfPrefix(a: seq<Id>, b: seq<Id>, c: seq<Id>)
    requires a <= b && b <= c
    ensures a <= c && TakeFirst(c, |a|) == a
  {
  }

  /** The count sent to the slave's logger removes, in some order, exactly the ids that the following request deletes
      from the packet logger by id (regular branch, any master snapshot). */
  lemma SlaveCountRemovesDeletedIds(states: seq<State>, actions: seq<Action>, i: nat)
    requires Run(states, actions) && i < |states|
    requires states[i].manager.Clearing? && states[i].manager.pending != []
    requires states[i].manager.pending[0].DeleteFromSlave?
    requires !EmptiesBothLogs(states[i].manager)
    ensures |states[i].manager.pending| == 2 && states[i].manager.pending[1].DeletePackets?
    ensures multiset(NextFromSlave(states[i])) == multiset(states[i].manager.pending[1].ids)
  {
    RunsKeepInv(states, actions, i);
    var s := states[i];
    var Clearing(m, sl, pending) := s.manager;
    var reference := Reference(m, sl);
    var c, o := CommonIds(reference, sl), OrphanIds(reference, sl);
    CollectedIs(m, sl);
    CommonAndOrphansAreCounted(reference, sl);
    PrefixOfPrefix(sl[..SlaveReach(reference, sl)], sl, s.slaveLog);
  }

  /** With a nonempty master snapshot, the ids taken from the master's logger were all in the slave's snapshot exactly
      when the clear did not take the delete-all branch. */
  lemma MasterDeletionSafeIff(states: seq<State>, actions: seq<Action>, i: nat)
    requires Run(states, actions) && i < |states|
    requires states[i].manager.Clearing? && AwaitsMaster(states[i].manager.pending) && states[i].manager.master != []
    ensures (forall id :: id in NextFromMaster(states[i]) ==> id in states[i].manager.slave)
            <==> !EmptiesBothLogs(states[i].manager)
  {
    RunsKeepInv(states, actions, i);
    var s := states[i];
    var Clearing(m, sl, pending) := s.manager;
    if EmptiesBothLogs(s.manager) {
      CollectedIs(m, sl);
      CommonEmptyIff(m, sl);
      PrefixOfPrefix(m, m, s.masterLog);
      assert NextFromMaster(s)[0] == m[0];
    } else {
      MasterCountRemovesCommon(states, actions, i);
      forall id | id in NextFromMaster(s) ensures id in sl {
        CollectedAreInSlave(m, sl, id);
      }
    }
  }

  /** With an empty master snapshot the count sent to the master's logger is the slave's: it hits the ids stored since,
      and takes something away exactly when there are any. */
  lemma EmptySnapshotDeletesFreshIds(states: seq<State>, actions: seq<Action>, i: nat)
    requires Run(states, actions) && i < |states|
    requires states[i].manager.Clearing? && AwaitsMaster(states[i].manager.pending) && states[i].manager.master == []
    ensures NextFromMaster(states[i]) == TakeFirst(states[i].masterLog, |states[i].manager.slave|)
    ensures NextFromMaster(states[i]) == [] <==> states[i].masterLog == []
  {
    RunsKeepInv(states, actions, i);
    var s := states[i];
    var Clearing(m, sl, pending) := s.manager;
    CollectedIs(m, sl);
    CommonOfSelf(sl);
    assert sl + [] == sl;
  }

  // An id that the master logged is in neither log, and the slave never had it.
  predicate Lost(s: State, id: Id) { id in s.masterSeen && id !in s.masterLog && id !in s.slaveSeen }

  // The count sent to the master's logger takes an id out of the log that the slave has not logged.
  predicate TakesUnprocessed(s: State, a: Action, id: Id)
    requires Enabled(s, a)
  {
    && a.SendNextDelete? && s.manager.pending[0].DeleteFromMaster? && id !in s.slaveSeen
    && id in TakeFirst(s.masterLog, s.manager.pending[0].n) && id !in DropFirst(s.masterLog, s.manager.pending[0].n)
  }

  /** That is the one step that loses an id, and storing it again the one that brings it back. */
  lemma StepLosesIff(s: State, a: Action, id: Id)
    requires Inv(s) && Enabled(s, a)
    ensures !Lost(s, id) ==> (Lost(Apply(s, a), id) <==> TakesUnprocessed(s, a, id))
    ensures Lost(s, id) ==> (Lost(Apply(s, a), id) <==> a != MasterStore(id) && a != SlaveStore(id))
    ensures TakesUnprocessed(s, a, id) ==> !Lost(s, id) && Lost(Apply(s, a), id)
  {
    if a.SendNextDelete? && s.manager.pending[0].DeleteFromMaster? {
      TakeAndDrop(s.masterLog, s.manager.pending[0].n);
    }
  }

  // Some delete took the id unprocessed, and neither side has stored it since.
  ghost predicate TakenAway(states: seq<State>, actions: seq<Action>, i: nat, id: Id)
    requires Run(states, actions) && i <= |actions|
  {
    exists j :: && 0 <= j < i && TakesUnprocessed(states[j], actions[j], id)
                && forall k :: j < k < i ==> actions[k] != MasterStore(id) && actions[k] != SlaveStore(id)
  }

  lemma TakenAwayStep(states: seq<State>, actions: seq<Action>, i: nat, id: Id)
    requires Run(states, actions) && 0 < i <= |actions|
    ensures TakenAway(states, actions, i, id)
            <==> || TakesUnprocessed(states[i - 1], actions[i - 1], id)
                 || (&& TakenAway(states, actions, i - 1, id)
                     && actions[i - 1] != MasterStore(id) && actions[i - 1] != SlaveStore(id))
  {
    hide Apply;
    hide TakesUnprocessed;
    hide Enabled;
  }

  /** In every run: an id is lost exactly when some delete took it unprocessed and neither side has stored it since. */
  lemma {:induction false} LostIff(states: seq<State>, actions: seq<Action>, i: nat, id: Id)
    requires Run(states, actions) && i < |states|
    ensures Lost(states[i], id) <==> TakenAway(states, actions, i, id)
  {
    if i > 0 {
      RunStep(states, actions, i - 1);
      LostIff(states, actions, i - 1, id);
      RunsKeepInv(states, actions, i - 1);
      StepLosesIff(states[i - 1], actions[i - 1], id);
      TakenAwayStep(states, actions, i, id);
      hide *;
    }
  }

  lemma RunStep(states: seq<State>, actions: seq<Action>, i: nat)
    requires Run(states, actions) && i < |actions|
    ensures i + 1 < |states| && Enabled(states[i], actions[i]) && states[i + 1] == Apply(states[i], actions[i])
  {
    hide Apply;
    hide Enabled;
  }

  /** In every run: the master's ids are at all times in its log or logged by the slave exactly when no delete takes an
      unprocessed one. */
  lemma MasterIdsSurviveIff(states: seq<State>, actions: seq<Action>)
    requires Run(states, actions)
    ensures (forall i, id :: 0 <= i < |states| ==> !Lost(states[i], id))
            <==> forall j, id :: 0 <= j < |actions| ==> !TakesUnprocessed(states[j], actions[j], id)
  {
    hide Apply;
    hide Enabled;
    hide TakesUnprocessed;
    if j, id :| 0 <= j < |actions| && TakesUnprocessed(states[j], actions[j], id) {
      RunsKeepInv(states, actions, j);
      StepLosesIff(states[j], actions[j], id);
      assert Lost(states[j + 1], id);
    }
    if i, id :| 0 <= i < |states| && Lost(states[i], id) {
      LostIff(states, actions, i, id);
    }
    hide Inv;
  }

  // A clear that cannot take an unprocessed id from the master, as far as the manager can tell: the regular branch on
  // a nonempty master snapshot, or an empty master snapshot with nothing stored since.
  predicate SafeForMaster(s: State) {
    s.manager.Clearing? && AwaitsMaster(s.manager.pending) ==>
      if s.manager.master != [] then !EmptiesBothLogs(s.manager) else s.masterLog == []
  }

  /** In a run whose clears are all safe in this sense, every id the master ever logged is still in its log or was
      logged by the slave. */
  lemma MasterIdsSurvive(states: seq<State>, actions: seq<Action>, i: nat)
    requires Run(states, actions) && i < |states|
    requires forall j :: 0 <= j < i ==> SafeForMaster(states[j])
    ensures forall id :: id in states[i].masterSeen ==> id in states[i].masterLog || id in states[i].slaveSeen
  {
    forall id | id in states[i].masterSeen ensures id in states[i].masterLog || id in states[i].slaveSeen {
      LostIff(states, actions, i, id);
      forall j | 0 <= j < i ensures !TakesUnprocessed(states[j], actions[j], id) {
        SafeTakesNone(states, actions, j, id);
      }
    }
    hide SafeForMaster;
    hide Run;
  }

  lemma SafeTakesNone(states: seq<State>, actions: seq<Action>, j: nat, id: Id)
    requires Run(states, actions) && j < |actions| && SafeForMaster(states[j])
    ensures !TakesUnprocessed(states[j], actions[j], id)
  {
    var s := states[j];
    if actions[j].SendNextDelete? && s.manager.pending[0].DeleteFromMaster? {
      TakenWereProcessed(states, actions, j);
    }
    hide SafeForMaster;
  }

  lemma TakeAndDrop(log: seq<Id>, n: nat)
    ensures forall id :: id in log ==> id in TakeFirst(log, n) || id in DropFirst(log, n)
  {
    assert log == TakeFirst(log, n) + DropFirst(log, n);
  }

  lemma TakenWereProcessed(states: seq<State>, actions: seq<Action>, i: nat)
    requires Run(states, actions) && i < |states|
    requires states[i].manager.Clearing? && AwaitsMaster(states[i].manager.pending) && SafeForMaster(states[i])
    ensures forall id :: id in NextFromMaster(states[i]) ==> id in states[i].slaveSeen
  {
    RunsKeepInv(states, actions, i);
    if states[i].manager.master == [] {
      EmptySnapshotDeletesFreshIds(states, actions, i);
    } else {
      MasterDeletionSafeIff(states, actions, i);
    }
  }

  // ---------------------------------------------------------------- runs that lose a master id

  ghost predicate Reachable(s: State) {
    exists states, actions :: Run(states, actions) && states[|actions|] == s
  }

  lemma InitReachable()
    ensures Reachable(INIT)
  {
    var states, actions: seq<Action> := [INIT], [];
    assert Run(states, actions) && states[|actions|] == INIT;
  }

  lemma StepReachable(s: State, a: Action)
    requires Reachable(s) && Enabled(s, a)
    ensures Reachable(Apply(s, a))
  {
    var states, actions :| Run(states, actions) && states[|actions|] == s;
    var states', actions' := states + [Apply(s, a)], actions + [a];
    assert Run(states', actions') && states'[|actions'|] == Apply(s, a);
  }

  lemma NothingInCommon(m: seq<Id>, sl: seq<Id>)
    requires AllGenerated(m) && AllGenerated(sl) && m != [] && m[0] !in sl && |m| < 2 * |sl|
    ensures ClearRequests(m, sl) == [DeleteFromMaster(|m|), DeleteFromSlave(|sl|)]
  {
    CollectedIs(m, sl);
    CommonEmptyIff(m, sl);
  }

  lemma EmptyMaster(sl: seq<Id>)
    requires AllGenerated(sl) && sl != []
    ensures ClearRequests([], sl) == [DeleteFromMaster(|sl|), DeleteFromSlave(|sl|), DeletePackets(sl)]
  {
    CollectedIs([], sl);
    CommonOfSelf(sl);
    assert sl + [] == sl;
  }

  /** The delete-all branch can lose a master id: the two logs have nothing in common and the master's is shorter than
      twice the slave's. */
  lemma DeleteAllLosesMasterId(x: Id, y: Id)
    requires Generated(x) && Generated(y) && x != y
    ensures exists s :: Reachable(s) && Lost(s, x)
  {
    var s1 := Apply(INIT, MasterStore(x));
    var s2 := Apply(s1, SlaveStore(y));
    var s3 := Apply(s2, ReadMasterAll);
    var s4 := Apply(s3, ReadSlaveAll);
    assert s1.masterLog == [x] && s2.slaveLog == [y];
    NothingInCommon([x], [y]);
    InitReachable();
    StepReachable(INIT, MasterStore(x));
    StepReachable(s1, SlaveStore(y));
    StepReachable(s2, ReadMasterAll);
    StepReachable(s3, ReadSlaveAll);
    StepReachable(s4, SendNextDelete);
    assert Lost(Apply(s4, SendNextDelete), x);
  }

  /** So can an empty master snapshot: what the master stores between the snapshot and the delete goes. */
  lemma EmptySnapshotLosesMasterId(x: Id, y: Id)
    requires Generated(x) && Generated(y) && x != y
    ensures exists s :: Reachable(s) && Lost(s, x)
  {
    var s1 := Apply(INIT, SlaveStore(y));
    var s2 := Apply(s1, ReadMasterAll);
    var s3 := Apply(s2, ReadSlaveAll);
    var s4 := Apply(s3, MasterStore(x));
    assert s1.slaveLog == [y] && s4.masterLog == [x];
    EmptyMaster([y]);
    InitReachable();
    StepReachable(INIT, SlaveStore(y));
    StepReachable(s1, ReadMasterAll);
    StepReachable(s2, ReadSlaveAll);
    StepReachable(s3, MasterStore(x));
    StepReachable(s4, SendNextDelete);
    assert Lost(Apply(s4, SendNextDelete), x);
  }
}
