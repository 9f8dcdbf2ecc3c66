/** The cleanup manager: replay, clear, their combination, and the loop that drains a stopped master. */
module CleanupManager {
  import opened PacketIds
  import opened CleanupLists
  import opened PacketStore
  import opened PacketLogger
  import opened DetLog
  import opened WireTypes
  import opened RecoveryProtocol
  import opened DrainRound

  lemma FirstVersionBases(log: seq<Id>)
    ensures forall i :: 0 <= i < |FirstVersions(log)| ==> Base(FirstVersions(log)[i]) in BasesOf(log)
  {
    forall i | 0 <= i < |FirstVersions(log)| ensures Base(FirstVersions(log)[i]) in BasesOf(log) {
      FirstVersionsAreIn(log, FirstVersions(log)[i]);
      var j :| 0 <= j < |log| && log[j] == FirstVersions(log)[i];
      InBasesOf(log, j);
    }
  }

  lemma OutcomeOf(l: Logs)
    ensures AllGenerated(l.master) && AllGenerated(l.slave) ==> ClearOutcome(l, Cleared(l), ClearCount(l))
  {
    if AllGenerated(l.master) && AllGenerated(l.slave) {
      ClearHasOutcome(l);
    }
    hide ClearOutcome;
    hide Cleared;
  }

  // Two progress maps that agree on every middlebox but one.
  predicate SameBut(a: map<MbId, ServerProgress>, b: map<MbId, ServerProgress>, mb: MbId) { a - {mb} == b - {mb} }

  class CleanupManagerServer {
    const masterSlaveMapping: map<MbId, MbId> := map[6 := 7, 7 := 10]
    const detLogger: DetLoggerServer
    const slaveDetLogger: DetLoggerServer
    const packetLogger: PacketLoggerServer

    ghost predicate Valid()
      reads this, detLogger, slaveDetLogger, packetLogger
    {
      detLogger != slaveDetLogger && detLogger.Valid() && slaveDetLogger.Valid()
    }

    constructor (det: DetLoggerServer, slaveDet: DetLoggerServer, packets: PacketLoggerServer)
      requires det != slaveDet && det.Valid() && slaveDet.Valid()
      ensures Valid() && detLogger == det && slaveDetLogger == slaveDet && packetLogger == packets
    {
      detLogger, slaveDetLogger, packetLogger := det, slaveDet, packets;
    }

    // The two logs of a master and its slave, and the packet store.
    ghost function LogsOf(masterMbId: MbId): Logs
      requires masterMbId in masterSlaveMapping
      reads this, detLogger, slaveDetLogger, packetLogger
    {
      Logs(detLogger.Log(masterMbId), slaveDetLogger.Log(masterSlaveMapping[masterMbId]), packetLogger.packetsVersions)
    }

    /** Computes and sends the replay list; what the slave makes of it is up to the slave. Past the end of its vector
        the original's behaviour is undefined, and so is what is returned. */
    method Replay(masterMbId: MbId, alreadyReplayed: set<nat>) returns (total: int, plan: ReplayPlan)
      requires Valid()
      ensures masterMbId !in masterSlaveMapping ==> total == -1 && plan == Plan([], alreadyReplayed)
      ensures masterMbId in masterSlaveMapping ==>
                var l := LogsOf(masterMbId);
                && plan == Unprocessed(FirstVersions(l.master), FirstVersions(l.slave), alreadyReplayed)
                && (plan.Plan? ==> total == |plan.toReplay|)
      ensures masterMbId in masterSlaveMapping && alreadyReplayed !! BasesOf(LogsOf(masterMbId).master) ==>
                var l := LogsOf(masterMbId);
                plan == Plan(ToReplay(l), alreadyReplayed + BasesOf(ToReplay(l)))
    {
      if masterMbId !in masterSlaveMapping {
        return -1, Plan([], alreadyReplayed);
      }
      var master := detLogger.GetProcessedPacketsForFirstVersion(masterMbId);
      var slave := slaveDetLogger.GetProcessedPacketsForFirstVersion(masterSlaveMapping[masterMbId]);
      plan := GetUnprocessedPacketIds(master, slave, alreadyReplayed);
      total := if plan.Plan? then |plan.toReplay| else 0;
      if alreadyReplayed !! BasesOf(LogsOf(masterMbId).master) {
        FirstVersionsAreFirstOccurrences(detLogger.Log(masterMbId));
        FirstVersionBases(detLogger.Log(masterMbId));
        ReplayListIsMissing(master, slave, alreadyReplayed);
      }
    }

    /** Removes what both sides have processed. The limit passed in is ignored, as is what the replay marked. */
    method ClearReplayedPackets(masterMbId: MbId, maxPacketsBasesToDelete: int, alreadyReplayed: set<nat>)
      returns (total: int)
      requires Valid()
      modifies detLogger, slaveDetLogger, packetLogger
      ensures Valid()
      ensures masterMbId !in masterSlaveMapping ==>
                total == -1 && unchanged(detLogger) && unchanged(slaveDetLogger) && unchanged(packetLogger)
      ensures masterMbId in masterSlaveMapping ==>
                SameBut(detLogger.progressData, old(detLogger.progressData), masterMbId)
      ensures masterMbId in masterSlaveMapping ==>
                SameBut(slaveDetLogger.progressData, old(slaveDetLogger.progressData), masterSlaveMapping[masterMbId])
      ensures masterMbId in masterSlaveMapping ==> LogsOf(masterMbId) == Cleared(old(LogsOf(masterMbId)))
      ensures masterMbId in masterSlaveMapping ==> total == ClearCount(old(LogsOf(masterMbId)))
      ensures masterMbId in masterSlaveMapping && AllGenerated(old(LogsOf(masterMbId)).master)
              && AllGenerated(old(LogsOf(masterMbId)).slave) ==>
                ClearOutcome(old(LogsOf(masterMbId)), LogsOf(masterMbId), total)
    {
      if masterMbId !in masterSlaveMapping {
        return -1;
      }
      var slaveMbId := masterSlaveMapping[masterMbId];
      var master := detLogger.GetProcessedPacketsForAllVersions(masterMbId);
      var slave := slaveDetLogger.GetProcessedPacketsForAllVersions(slaveMbId);
      var collected;
      if |master| == 0 {
        collected := GetCommonProcessedPacketIds(slave, slave, INT_MAX, alreadyReplayed);
      } else {
        collected := GetCommonProcessedPacketIds(master, slave, INT_MAX, alreadyReplayed);
      }
      CollectForgetsMarks(Reference(master, slave), slave, {}, INT_MAX, alreadyReplayed, {});
      var common, orphans := collected.common, collected.orphans;
      total := 0;
      if |common| == 0 && |master| < 2 * |slave| {
        detLogger.ProcessDeleteFirstPacketsRequest(masterMbId, |master|);
        slaveDetLogger.ProcessDeleteFirstPacketsRequest(slaveMbId, |slave|);
      } else {
        total := SendDeletes(masterMbId, slaveMbId, common, orphans);
      }
      OutcomeOf(old(LogsOf(masterMbId)));
    }

    method SendDeletes(masterMbId: MbId, slaveMbId: MbId, common: seq<Id>, orphans: seq<Id>) returns (total: int)
      requires Valid()
      modifies detLogger, slaveDetLogger, packetLogger
      ensures Valid() && total == |common + orphans|
      ensures SameBut(detLogger.progressData, old(detLogger.progressData), masterMbId)
      ensures SameBut(slaveDetLogger.progressData, old(slaveDetLogger.progressData), slaveMbId)
      ensures detLogger.Log(masterMbId) == DropFirst(old(detLogger.Log(masterMbId)), |common|)
      ensures slaveDetLogger.Log(slaveMbId) == DropFirst(old(slaveDetLogger.Log(slaveMbId)), |common + orphans|)
      ensures packetLogger.packetsVersions == DeleteAll(old(packetLogger.packetsVersions), common + orphans)
    {
      if |common| > 0 {
        detLogger.ProcessDeleteFirstPacketsRequest(masterMbId, |common|);
      }
      var ids := common;
      if |orphans| > 0 {
        ids := ids + orphans;
      }
      assert ids == common + orphans;
      SendSlaveDeletes(slaveMbId, ids);
      return |ids|;
    }

    method SendSlaveDeletes(slaveMbId: MbId, ids: seq<Id>)
      requires Valid()
      modifies slaveDetLogger, packetLogger
      ensures Valid() && SameBut(slaveDetLogger.progressData, old(slaveDetLogger.progressData), slaveMbId)
      ensures slaveDetLogger.Log(slaveMbId) == DropFirst(old(slaveDetLogger.Log(slaveMbId)), |ids|)
      ensures packetLogger.packetsVersions == DeleteAll(old(packetLogger.packetsVersions), ids)
    {
      if |ids| > 0 {
        slaveDetLogger.ProcessDeleteFirstPacketsRequest(slaveMbId, |ids|);
        packetLogger.ProcessDeletePacketsRequest(ids);
      }
    }

    // ---- the environment: the slave pipeline behind the packet logger's replay connection

    // The slave logs both versions of the packets it gets for the first `count` ids of a replay list.
    method SlaveHandles(slaveMbId: MbId, ids: seq<Id>, count: nat)
      requires Valid() && count <= |ids|
      modifies slaveDetLogger
      ensures Valid() && SameBut(slaveDetLogger.progressData, old(slaveDetLogger.progressData), slaveMbId)
      ensures slaveDetLogger.Log(slaveMbId)
           == old(slaveDetLogger.Log(slaveMbId)) + Handled(packetLogger.packetsVersions, ids[..count])
    {
      var i := 0;
      assert ids[..0] == [];
      while i < count
        invariant 0 <= i <= count && Valid()
        invariant SameBut(slaveDetLogger.progressData, old(slaveDetLogger.progressData), slaveMbId)
        invariant slaveDetLogger.Log(slaveMbId)
               == old(slaveDetLogger.Log(slaveMbId)) + Handled(packetLogger.packetsVersions, ids[..i])
      {
        assert ids[..i + 1][..i] == ids[..i];
        SlaveHandlesOne(slaveMbId, ids[i]);
        i := i + 1;
      }
    }

    method SlaveHandlesOne(slaveMbId: MbId, id: Id)
      requires Valid()
      modifies slaveDetLogger
      ensures Valid() && SameBut(slaveDetLogger.progressData, old(slaveDetLogger.progressData), slaveMbId)
      ensures slaveDetLogger.Log(slaveMbId)
           == old(slaveDetLogger.Log(slaveMbId))
              + if Base(id) in packetLogger.packetsVersions then [id, NextVersion(id)] else []
    {
      if Base(id) in packetLogger.packetsVersions {
        slaveDetLogger.ProcessStoreRequest(slaveMbId, id, [], []);
        slaveDetLogger.ProcessStoreRequest(slaveMbId, NextVersion(id), [], []);
      }
    }

    // The slave handles some prefix of a replay list.
    method SlaveTakes(masterMbId: MbId, ids: seq<Id>, atLeast: nat) returns (count: nat)
      requires masterMbId in masterSlaveMapping && Valid() && atLeast <= |ids|
      modifies slaveDetLogger
      ensures Valid()
      ensures SameBut(slaveDetLogger.progressData, old(slaveDetLogger.progressData), masterSlaveMapping[masterMbId])
      ensures atLeast <= count <= |ids|
      ensures LogsOf(masterMbId) == Replayed(old(LogsOf(masterMbId)), ids[..count])
    {
      var n :| atLeast <= n <= |ids|;
      SlaveHandles(masterSlaveMapping[masterMbId], ids, n);
      count := n;
    }

    // ---- rounds

    method ReplayPhase(masterMbId: MbId) returns (total: int, sent: seq<Id>, replayed: set<nat>, h: nat)
      requires Valid() && masterMbId in masterSlaveMapping
      modifies slaveDetLogger
      ensures Valid()
      ensures SameBut(slaveDetLogger.progressData, old(slaveDetLogger.progressData), masterSlaveMapping[masterMbId])
      ensures sent == ToReplay(old(LogsOf(masterMbId))) && total == |sent|
      ensures h <= |sent| && (sent != [] ==> h > 0)
      ensures LogsOf(masterMbId) == Replayed(old(LogsOf(masterMbId)), sent[..h])
    {
      var plan;
      total, plan := Replay(masterMbId, {});
      sent, replayed := plan.toReplay, plan.replayed;
      h := SlaveTakes(masterMbId, sent, if sent == [] then 0 else 1);
    }

    method ClearPhase(masterMbId: MbId, totalReplayed: int, replayed: set<nat>, rest: seq<Id>)
      returns (totalDeleted: int, j: nat)
      requires Valid() && masterMbId in masterSlaveMapping
      modifies detLogger, slaveDetLogger, packetLogger
      ensures Valid()
      ensures SameBut(detLogger.progressData, old(detLogger.progressData), masterMbId)
      ensures SameBut(slaveDetLogger.progressData, old(slaveDetLogger.progressData), masterSlaveMapping[masterMbId])
      ensures j <= |rest|
      ensures LogsOf(masterMbId) == Replayed(Cleared(old(LogsOf(masterMbId))), rest[..j])
      ensures totalDeleted == ClearCount(old(LogsOf(masterMbId)))
    {
      totalDeleted := ClearReplayedPackets(masterMbId, totalReplayed, replayed);
      j := SlaveTakes(masterMbId, rest, 0);
    }

    /** One replay-and-clear round of a master that has a slave. The slave handles a nonempty prefix of a nonempty
        replay list before the clear, and possibly more of the list before the next round. */
    method Round(masterMbId: MbId) returns (hadPackets: bool, h: nat, j: nat)
      requires Valid() && masterMbId in masterSlaveMapping
      modifies detLogger, slaveDetLogger, packetLogger
      ensures Valid()
      ensures SameBut(detLogger.progressData, old(detLogger.progressData), masterMbId)
      ensures SameBut(slaveDetLogger.progressData, old(slaveDetLogger.progressData), masterSlaveMapping[masterMbId])
      ensures RoundChoice(old(LogsOf(masterMbId)), h, j)
      ensures LogsOf(masterMbId) == RoundLogs(old(LogsOf(masterMbId)), h, j)
      ensures hadPackets <==> RoundHasPackets(old(LogsOf(masterMbId)), h)
    {
      var totalReplayed, sent, replayed;
      totalReplayed, sent, replayed, h := ReplayPhase(masterMbId);
      var totalDeleted;
      totalDeleted, j := ClearPhase(masterMbId, totalReplayed, replayed, sent[h..]);
      hadPackets := totalReplayed > 0 || totalDeleted > 0;
    }

    // For a master without a slave both halves report -1 and do nothing.
    method ReplayAndClearPackets(masterMbId: MbId) returns (hadPackets: bool)
      requires Valid()
      modifies detLogger, slaveDetLogger, packetLogger
      ensures Valid()
      ensures masterMbId !in masterSlaveMapping ==>
                !hadPackets && unchanged(detLogger) && unchanged(slaveDetLogger) && unchanged(packetLogger)
      ensures masterMbId in masterSlaveMapping ==>
                && SameBut(detLogger.progressData, old(detLogger.progressData), masterMbId)
                && SameBut(slaveDetLogger.progressData, old(slaveDetLogger.progressData),
                           masterSlaveMapping[masterMbId])
                && exists h, j :: RoundOutcome(old(LogsOf(masterMbId)), h, j, LogsOf(masterMbId), hadPackets)
    {
      if masterMbId in masterSlaveMapping {
        var h, j;
        hadPackets, h, j := Round(masterMbId);
        assert RoundOutcome(old(LogsOf(masterMbId)), h, j, LogsOf(masterMbId), hadPackets);
      } else {
        var totalReplayed, plan := Replay(masterMbId, {});
        var totalDeleted := ClearReplayedPackets(masterMbId, totalReplayed, plan.replayed);
        hadPackets := totalReplayed > 0 || totalDeleted > 0;
      }
    }

    // ---- the drain loop

    // The first `done` packets of bs have been cleared since the packet store was `before`.
    ghost predicate Progressed(masterMbId: MbId, bs: seq<PacketBase>, done: nat, late: nat, before: Packets)
      requires masterMbId in masterSlaveMapping
      reads this, detLogger, slaveDetLogger, packetLogger
    {
      Valid() && PartlyDrained(LogsOf(masterMbId), bs, done, late, before)
    }

    method DrainRoundOf(masterMbId: MbId, ghost bs: seq<PacketBase>, ghost done: nat, ghost late: nat,
                        ghost before: Packets)
      returns (hadPackets: bool, ghost done': nat, ghost late': nat)
      requires masterMbId in masterSlaveMapping && Progressed(masterMbId, bs, done, late, before)
      modifies detLogger, slaveDetLogger, packetLogger
      ensures Progressed(masterMbId, bs, done', late', before)
      ensures SameBut(detLogger.progressData, old(detLogger.progressData), masterMbId)
      ensures SameBut(slaveDetLogger.progressData, old(slaveDetLogger.progressData), masterSlaveMapping[masterMbId])
      ensures if hadPackets then done < done' else done == done' == |bs|
    {
      hide RoundLogs;
      hide RoundHasPackets;
      hide RoundChoice;
      hide PartlyDrained;
      hide SameBut;
      hide ToReplay;
      var h, j;
      hadPackets, h, j := Round(masterMbId);
      DrainStep(old(LogsOf(masterMbId)), bs, done, late, before, h, j);
      done', late' := done + late + h, j;
    }

    /** The stop-master loop ends, with both logs empty, exactly the pairs of the old master taken out of the packet
        logger, and the logs of other middleboxes as they were. Without a slave it ends at once. */
    method DrainMaster(oldMasterMbId: MbId, ghost bs: seq<PacketBase>, ghost k: nat)
      requires Valid() && (oldMasterMbId in masterSlaveMapping ==> Drains(LogsOf(oldMasterMbId), bs, k))
      modifies detLogger, slaveDetLogger, packetLogger
      ensures Valid()
      ensures oldMasterMbId !in masterSlaveMapping ==>
                unchanged(detLogger) && unchanged(slaveDetLogger) && unchanged(packetLogger)
      ensures oldMasterMbId in masterSlaveMapping ==>
                && LogsOf(oldMasterMbId) == Logs([], [], DeleteAll(old(packetLogger.packetsVersions), Pairs(bs)))
                && SameBut(detLogger.progressData, old(detLogger.progressData), oldMasterMbId)
                && SameBut(slaveDetLogger.progressData, old(slaveDetLogger.progressData),
                           masterSlaveMapping[oldMasterMbId])
      ensures oldMasterMbId in masterSlaveMapping ==>
                forall b :: b in bs && Counter(old(packetLogger.packetsVersions)[b]) <= 2 ==>
                    b !in packetLogger.packetsVersions
    {
      if oldMasterMbId !in masterSlaveMapping {
        var _ := ReplayAndClearPackets(oldMasterMbId);
        return;
      }
      ghost var before := packetLogger.packetsVersions;
      ghost var done, late;
      var hasPackets: bool;
      assert bs[0..] == bs;
      hasPackets, done, late := DrainRoundOf(oldMasterMbId, bs, 0, k, before);
      while hasPackets
        invariant Progressed(oldMasterMbId, bs, done, late, before)
        invariant SameBut(detLogger.progressData, old(detLogger.progressData), oldMasterMbId)
        invariant SameBut(slaveDetLogger.progressData, old(slaveDetLogger.progressData),
                          masterSlaveMapping[oldMasterMbId])
        invariant !hasPackets ==> done == |bs|
        decreases |bs| - done, hasPackets
      {
        hasPackets, done, late := DrainRoundOf(oldMasterMbId, bs, done, late, before);
      }
      Drained(LogsOf(oldMasterMbId), bs, done, late, before);
    }

    // The logs a middlebox's round finds after another master was drained of the packets bs.
    ghost function LogsAfterDrain(oldMasterMbId: MbId, bs: seq<PacketBase>, masterMbId: MbId): Logs
      requires masterMbId in masterSlaveMapping
      reads this, detLogger, slaveDetLogger, packetLogger
    {
      var l := LogsOf(masterMbId);
      if oldMasterMbId !in masterSlaveMapping then l
      else if masterMbId == oldMasterMbId then Logs([], [], DeleteAll(l.packets, Pairs(bs)))
      else l.(packets := DeleteAll(l.packets, Pairs(bs)))
    }

    /** A stop-master request with a valid new master drains the old one, runs one round for the new one on what the
        drain leaves, and keeps the old master's logs empty and its packets gone. */
    method ProcessTsaStopMasterRequest(oldMasterMbId: MbId, newMasterMbId: MbId, ghost bs: seq<PacketBase>,
                                       ghost k: nat)
      returns (ok: bool)
      requires Valid() && (oldMasterMbId in masterSlaveMapping ==> Drains(LogsOf(oldMasterMbId), bs, k))
      modifies detLogger, slaveDetLogger, packetLogger
      ensures Valid()
      ensures ok <==> newMasterMbId > 0
      ensures !ok ==> unchanged(detLogger) && unchanged(slaveDetLogger) && unchanged(packetLogger)
      ensures ok && oldMasterMbId in masterSlaveMapping ==>
                LogsOf(oldMasterMbId).master == [] && LogsOf(oldMasterMbId).slave == []
      ensures ok && oldMasterMbId in masterSlaveMapping ==>
                forall b :: b in bs && Counter(old(packetLogger.packetsVersions)[b]) <= 2 ==>
                    b !in packetLogger.packetsVersions
      ensures ok && newMasterMbId in masterSlaveMapping ==>
                exists h, j, had ::
                  RoundOutcome(old(LogsAfterDrain(oldMasterMbId, bs, newMasterMbId)), h, j, LogsOf(newMasterMbId), had)
    {
      if newMasterMbId <= 0 {
        return false;
      }
      ghost var found := if newMasterMbId !in masterSlaveMapping then Logs([], [], map[])
                         else LogsAfterDrain(oldMasterMbId, bs, newMasterMbId);
      DrainMaster(oldMasterMbId, bs, k);
      if newMasterMbId in masterSlaveMapping && oldMasterMbId in masterSlaveMapping && newMasterMbId != oldMasterMbId {
        KeptElsewhere(detLogger.progressData, old(detLogger.progressData), oldMasterMbId, newMasterMbId);
        KeptElsewhere(slaveDetLogger.progressData, old(slaveDetLogger.progressData),
                      masterSlaveMapping[oldMasterMbId], masterSlaveMapping[newMasterMbId]);
      }
      assert newMasterMbId in masterSlaveMapping ==> LogsOf(newMasterMbId) == found;
      RunNewMaster(oldMasterMbId, newMasterMbId);
      return true;
    }

    method RunNewMaster(oldMasterMbId: MbId, newMasterMbId: MbId)
      requires Valid()
      requires oldMasterMbId in masterSlaveMapping ==>
                LogsOf(oldMasterMbId).master == [] && LogsOf(oldMasterMbId).slave == []
      modifies detLogger, slaveDetLogger, packetLogger
      ensures Valid()
      ensures oldMasterMbId in masterSlaveMapping ==>
                LogsOf(oldMasterMbId).master == [] && LogsOf(oldMasterMbId).slave == []
      ensures newMasterMbId in masterSlaveMapping ==>
                exists h, j, had :: RoundOutcome(old(LogsOf(newMasterMbId)), h, j, LogsOf(newMasterMbId), had)
      ensures packetLogger.packetsVersions.Keys <= old(packetLogger.packetsVersions.Keys)
    {
      var had := ReplayAndClearPackets(newMasterMbId);
      if newMasterMbId in masterSlaveMapping {
        RoundShrinks(old(LogsOf(newMasterMbId)), LogsOf(newMasterMbId), had);
        if newMasterMbId == oldMasterMbId {
          EmptyRound(old(LogsOf(oldMasterMbId)), LogsOf(oldMasterMbId));
        } else if oldMasterMbId in masterSlaveMapping {
          KeptElsewhere(detLogger.progressData, old(detLogger.progressData), newMasterMbId, oldMasterMbId);
          KeptElsewhere(slaveDetLogger.progressData, old(slaveDetLogger.progressData),
                        masterSlaveMapping[newMasterMbId], masterSlaveMapping[oldMasterMbId]);
        }
      }
    }
  }

  predicate RoundOutcome(l: Logs, h: nat, j: nat, l': Logs, hadPackets: bool) {
    RoundChoice(l, h, j) && l' == RoundLogs(l, h, j) && (hadPackets <==> RoundHasPackets(l, h))
  }

  predicate PartlyDrained(l: Logs, bs: seq<PacketBase>, done: nat, late: nat, before: Packets) {
    done <= |bs| && Drains(l, bs[done..], late) && l.packets == DeleteAll(before, Pairs(bs[..done]))
  }

  lemma DrainStep(l: Logs, bs: seq<PacketBase>, done: nat, late: nat, before: Packets, h: nat, j: nat)
    requires PartlyDrained(l, bs, done, late, before) && RoundChoice(l, h, j)
    ensures PartlyDrained(RoundLogs(l, h, j), bs, done + late + h, j, before)
    ensures if RoundHasPackets(l, h) then late + h > 0 else done + late + h == done == |bs|
  {
    hide RoundLogs;
    hide RoundHasPackets;
    RoundOfPairs(l, bs[done..], late, h, j);
    AfterRound(l, RoundLogs(l, h, j), bs, done, late + h, j, before);
  }

  lemma AfterRound(l: Logs, l': Logs, bs: seq<PacketBase>, done: nat, n: nat, j: nat, before: Packets)
    requires done + n <= |bs| && Drains(l', bs[done..][n..], j)
    requires l.packets == DeleteAll(before, Pairs(bs[..done]))
    requires l'.packets == DeleteAll(l.packets, Pairs(bs[done..][..n]))
    ensures PartlyDrained(l', bs, done + n, j, before)
  {
    NextPart(before, bs, done, n);
  }

  lemma EmptyRound(l: Logs, l': Logs)
    requires l.master == [] && l.slave == []
    requires exists h, j, had :: RoundOutcome(l, h, j, l', had)
    ensures l'.master == [] && l'.slave == []
  {
    var h, j, had :| RoundOutcome(l, h, j, l', had);
    EmptyDrains(l);
    RoundOfPairs(l, [], 0, h, j);
    DrainsEmpty(l', h, j);
  }

  lemma EmptyDrains(l: Logs)
    requires l.master == [] && l.slave == []
    ensures Drains(l, [], 0)
  {
  }

  lemma DrainsEmpty(l: Logs, h: nat, j: nat)
    requires h <= 0 && j <= 0 && Drains(l, [][h..], j)
    ensures l.master == [] && l.slave == []
  {
  }

  // A round takes packets out of the packet logger and puts none in.
  lemma RoundShrinks(l: Logs, l': Logs, had: bool)
    requires exists h, j :: RoundOutcome(l, h, j, l', had)
    ensures l'.packets.Keys <= l.packets.Keys
    ensures exists h, j, hadPackets :: RoundOutcome(l, h, j, l', hadPackets)
  {
    var h: nat, j: nat :| RoundOutcome(l, h, j, l', had);
    var l1 := Replayed(l, ToReplay(l)[..h]);
    forall b | b in l'.packets ensures b in l.packets {
      DeleteAllRemoves(l1.packets, ToClear(l1), b);
    }
  }

  lemma KeptElsewhere(a: map<MbId, ServerProgress>, b: map<MbId, ServerProgress>, mb: MbId, m: MbId)
    requires SameBut(a, b, mb) && m != mb
    ensures ProgressOf(a, m) == ProgressOf(b, m)
  {
    SameWithout(a, b, mb, m);
  }

  lemma Drained(l: Logs, bs: seq<PacketBase>, done: nat, late: nat, before: Packets)
    requires done == |bs| && PartlyDrained(l, bs, done, late, before)
    ensures l == Logs([], [], DeleteAll(before, Pairs(bs)))
    ensures forall b :: b in bs && b in before && Counter(before[b]) <= 2 ==> b !in l.packets
  {
    assert bs[..done] == bs && bs[done..] == [];
    assert bs[done..][..late] == [];
    forall b | b in bs && b in before && Counter(before[b]) <= 2 ensures b !in DeleteAll(before, Pairs(bs)) {
      ClearedPacketsGo(bs, before, b);
    }
  }

  // Clearing one part after another is clearing them together.
  lemma NextPart(packets: Packets, bs: seq<PacketBase>, done: nat, n: nat)
    requires done + n <= |bs|
    ensures bs[done..][n..] == bs[done + n..]
    ensures DeleteAll(DeleteAll(packets, Pairs(bs[..done])), Pairs(bs[done..][..n]))
         == DeleteAll(packets, Pairs(bs[..done + n]))
  {
    assert bs[..done + n] == bs[..done] + bs[done..][..n];
    PairsConcat(bs[..done], bs[done..][..n]);
    DeleteAllAppend(packets, Pairs(bs[..done]), Pairs(bs[done..][..n]));
  }
}
