/** One replay-and-clear round as a function of the two logs and the packet store, and what a round does to a master
    log that holds a (v1, v2) pair per base while the slave's log is a whole-packet prefix of it. */
module DrainRound {
  import opened PacketIds
  import opened CleanupLists
  import opened PacketStore
  import opened DetLog
  import opened RecoveryProtocol

  datatype Logs = Logs(master: seq<Id>, slave: seq<Id>, packets: Packets)

  // The ids the clear removes from the slave's log and from the packet logger.
  function ToClear(l: Logs): seq<Id> { CollectFor(l.master, l.slave).common + CollectFor(l.master, l.slave).orphans }

  predicate ClearsEverything(l: Logs) { DeletesEverything(l.master, l.slave, CollectFor(l.master, l.slave).common) }

  // A clear with no store in between.
  function Cleared(l: Logs): Logs {
    if ClearsEverything(l) then
      Logs([], [], l.packets)
    else
      Logs(DropFirst(l.master, |CollectFor(l.master, l.slave).common|), DropFirst(l.slave, |ToClear(l)|),
           DeleteAll(l.packets, ToClear(l)))
  }

  function ToReplay(l: Logs): seq<Id> { Missing(FirstVersions(l.master), FirstVersions(l.slave)) }

  // uint64_t
  function NextVersion(id: Id): Id { (id + 1) % 0x1_0000_0000_0000_0000 }

  // What the slave logs for the replayed ids it gets a packet for: the id it receives, then its next version.
  function Handled(packets: Packets, ids: seq<Id>): seq<Id> {
    if ids == [] then []
    else
      var front, last := ids[..|ids| - 1], ids[|ids| - 1];
      Handled(packets, front) + if Base(last) in packets then [last, NextVersion(last)] else []
  }

  // The count a clear reports: the delete-all branch reports nothing.
  function ClearCount(l: Logs): nat { if ClearsEverything(l) then 0 else |ToClear(l)| }

  // ---------------------------------------------------------------- what a clear does

  // Two lists agree on their first k ids and on no more.
  predicate Agree(a: seq<Id>, b: seq<Id>, k: nat) {
    k <= |a| && k <= |b| && a[..k] == b[..k] && (k < |a| && k < |b| ==> a[k] != b[k])
  }

  // The slave's list matches n ids of the reference with its first r: the k that both agree on, and the reference's
  // next id with all that the slave has before it, if it comes at all.
  predicate MatchesPast(reference: seq<Id>, slave: seq<Id>, k: nat, n: nat, r: nat) {
    && Agree(reference, slave, k)
    && if k < |reference| && reference[k] in slave[k..] then
         n == k + 1 && k < r <= |slave| && slave[r - 1] == reference[k] && reference[k] !in slave[k..r - 1]
       else
         n == k && r == k
  }

  ghost predicate Matches(reference: seq<Id>, slave: seq<Id>, n: nat, r: nat) {
    exists k: nat :: MatchesPast(reference, slave, k, n, r)
  }

  // The packets whose counter is covered by one of the ids.
  predicate Covered(packets: Packets, ids: seq<Id>, b: nat)
    requires b in packets
  {
    exists i :: 0 <= i < |ids| && Base(ids[i]) == b && Version(ids[i]) >= Counter(packets[b])
  }

  // n ids of the master's log and r of the slave's are taken, and the packets those cover.
  ghost predicate TakesBoth(l: Logs, after: Logs, n: nat, r: nat) {
    && r <= |l.slave| && (l.master != [] ==> n <= |l.master|)
    && after.master == (if l.master == [] then [] else l.master[n..])
    && after.slave == l.slave[r..]
    && (forall b :: b in after.packets <==> b in l.packets && !Covered(l.packets, l.slave[..r], b))
    && (forall b :: b in after.packets ==> b in l.packets && after.packets[b] == l.packets[b])
  }

  // A clear that matches nothing empties both logs if the master's is short enough, and reports nothing.
  ghost predicate Outcome(l: Logs, after: Logs, total: int, n: nat, r: nat) {
    if n == 0 && |l.master| < 2 * |l.slave| then after == Logs([], [], l.packets) && total == 0
    else TakesBoth(l, after, n, r) && total == r
  }

  /** What a clear makes of two logs and the packet store, and what it reports. */
  ghost predicate ClearOutcome(l: Logs, after: Logs, total: int) {
    var reference := if l.master == [] then l.slave else l.master;
    exists n: nat, r: nat :: Matches(reference, l.slave, n, r) && Outcome(l, after, total, n, r)
  }

  lemma AgreeBelow(a: seq<Id>, b: seq<Id>, k: nat, i: nat)
    requires Agree(a, b, k) && i < k
    ensures a[i] == b[i]
  {
    assert a[..k][i] == b[..k][i];
  }

  lemma NotInPart(ids: seq<Id>, lo: nat, hi: nat, i: nat, id: Id)
    requires lo <= i < hi <= |ids| && id !in ids[lo..hi]
    ensures ids[i] != id
  {
    assert ids[lo..hi][i - lo] == ids[i];
  }

  lemma FirstOnce(ids: seq<Id>, k: nat, r: nat, r': nat, id: Id)
    requires k < r <= |ids| && ids[r - 1] == id && id !in ids[k..r - 1] && k < r' <= |ids| && ids[r' - 1] == id
    ensures r <= r'
  {
    if r' < r {
      NotInPart(ids, k, r - 1, r' - 1, id);
    }
  }

  /** The two numbers are fixed by the lists. */
  lemma MatchesOnce(reference: seq<Id>, slave: seq<Id>, n: nat, r: nat, n': nat, r': nat)
    requires Matches(reference, slave, n, r) && Matches(reference, slave, n', r')
    ensures n == n' && r == r'
  {
    var k: nat :| MatchesPast(reference, slave, k, n, r);
    var k': nat :| MatchesPast(reference, slave, k', n', r');
    if k < k' {
      AgreeBelow(reference, slave, k', k);
    } else if k' < k {
      AgreeBelow(reference, slave, k, k');
    } else if k < |reference| && reference[k] in slave[k..] {
      FirstOnce(slave, k, r, r', reference[k]);
      FirstOnce(slave, k, r', r, reference[k]);
    }
  }

  lemma ReachMatches(reference: seq<Id>, slave: seq<Id>)
    ensures Matches(reference, slave, |CommonIds(reference, slave)|, SlaveReach(reference, slave))
  {
    var k := CommonPrefixLength(reference, slave);
    assert Agree(reference, slave, k);
    if HasOrphans(reference, slave) {
      WithOrphans(reference, slave);
      var j := FirstIndex(reference[k], slave[k..]);
      assert slave[k..k + j] == slave[k..][..j];
    } else {
      WithoutOrphans(reference, slave);
    }
    hide CommonPrefixLength;
    hide FirstIndex;
    hide Agree;
    hide CommonIds;
    hide SlaveReach;
    assert MatchesPast(reference, slave, k, |CommonIds(reference, slave)|, SlaveReach(reference, slave));
  }

  // A list of deletions works like any list of the same ids.
  lemma CoveredAlike(packets: Packets, ids: seq<Id>, others: seq<Id>, b: nat)
    requires b in packets && multiset(ids) == multiset(others)
    ensures Covered(packets, ids, b) <==> Covered(packets, others, b)
  {
    if i :| 0 <= i < |ids| && Base(ids[i]) == b && Version(ids[i]) >= Counter(packets[b]) {
      assert ids[i] in multiset(others);
    }
    if i :| 0 <= i < |others| && Base(others[i]) == b && Version(others[i]) >= Counter(packets[b]) {
      assert others[i] in multiset(ids);
    }
  }

  // What a clear computes from two generated logs.
  lemma ToClearIs(l: Logs)
    requires AllGenerated(l.master) && AllGenerated(l.slave)
    ensures var reference := Reference(l.master, l.slave);
            && |CollectFor(l.master, l.slave).common| == |CommonIds(reference, l.slave)|
            && |CommonIds(reference, l.slave)| <= |reference| && SlaveReach(reference, l.slave) <= |l.slave|
            && |ToClear(l)| == SlaveReach(reference, l.slave)
            && multiset(ToClear(l)) == multiset(l.slave[..SlaveReach(reference, l.slave)])
  {
    CollectedIs(l.master, l.slave);
    CommonAndOrphansAreCounted(Reference(l.master, l.slave), l.slave);
    hide CommonIds;
    hide OrphanIds;
    hide SlaveReach;
    hide CollectFor;
  }

  // The two logs after a regular clear.
  lemma ClearedLogs(l: Logs)
    requires AllGenerated(l.master) && AllGenerated(l.slave) && !ClearsEverything(l)
    ensures var n := |CommonIds(Reference(l.master, l.slave), l.slave)|;
            var r := SlaveReach(Reference(l.master, l.slave), l.slave);
            && r <= |l.slave| && (l.master != [] ==> n <= |l.master|)
            && Cleared(l).master == (if l.master == [] then [] else l.master[n..])
            && Cleared(l).slave == l.slave[r..] && Cleared(l).packets == DeleteAll(l.packets, ToClear(l))
            && ClearCount(l) == r
  {
    ToClearIs(l);
    hide CommonIds;
    hide SlaveReach;
    hide CollectFor;
    hide ToClear;
    hide DeleteAll;
  }

  lemma ClearTakesBoth(l: Logs)
    requires AllGenerated(l.master) && AllGenerated(l.slave) && !ClearsEverything(l)
    ensures var reference := Reference(l.master, l.slave);
            TakesBoth(l, Cleared(l), |CommonIds(reference, l.slave)|, SlaveReach(reference, l.slave))
    ensures ClearCount(l) == SlaveReach(Reference(l.master, l.slave), l.slave)
  {
    ToClearIs(l);
    ClearedLogs(l);
    var r, after := SlaveReach(Reference(l.master, l.slave), l.slave), Cleared(l);
    hide CommonIds;
    hide SlaveReach;
    hide CollectFor;
    hide Cleared;
    hide ClearCount;
    hide ClearsEverything;
    hide Covered;
    forall b
      ensures b in after.packets <==> b in l.packets && !Covered(l.packets, l.slave[..r], b)
      ensures b in after.packets ==> b in l.packets && after.packets[b] == l.packets[b]
    {
      DeletedAre(l.packets, ToClear(l), l.slave[..r], b);
    }
    hide ToClear;
    hide DeleteAll;
  }

  lemma DeletedAre(packets: Packets, ids: seq<Id>, others: seq<Id>, b: nat)
    requires multiset(ids) == multiset(others)
    ensures b in DeleteAll(packets, ids) <==> b in packets && !Covered(packets, others, b)
    ensures b in DeleteAll(packets, ids) ==> DeleteAll(packets, ids)[b] == packets[b]
  {
    DeleteAllRemoves(packets, ids, b);
    if b in packets {
      CoveredAlike(packets, ids, others, b);
    }
    hide DeleteAll;
  }

  lemma EverythingIff(l: Logs)
    requires AllGenerated(l.master) && AllGenerated(l.slave)
    ensures ClearsEverything(l)
            <==> |CommonIds(Reference(l.master, l.slave), l.slave)| == 0 && |l.master| < 2 * |l.slave|
    ensures ClearsEverything(l) ==> Cleared(l) == Logs([], [], l.packets) && ClearCount(l) == 0
  {
    ToClearIs(l);
    hide CommonIds;
    hide CollectFor;
  }

  lemma OutcomeBy(l: Logs, after: Logs, total: int, n: nat, r: nat)
    requires Matches(Reference(l.master, l.slave), l.slave, n, r)
    requires if n == 0 && |l.master| < 2 * |l.slave| then after == Logs([], [], l.packets) && total == 0
             else TakesBoth(l, after, n, r) && total == r
    ensures ClearOutcome(l, after, total)
  {
    hide Matches;
    hide TakesBoth;
    assert Outcome(l, after, total, n, r);
  }

  /** On generated ids a clear has that outcome, in all its branches. */
  lemma ClearHasOutcome(l: Logs)
    requires AllGenerated(l.master) && AllGenerated(l.slave)
    ensures ClearOutcome(l, Cleared(l), ClearCount(l))
  {
    hide *;
    var reference := Reference(l.master, l.slave);
    ReachMatches(reference, l.slave);
    EverythingIff(l);
    if !ClearsEverything(l) {
      ClearTakesBoth(l);
    }
    OutcomeBy(l, Cleared(l), ClearCount(l), |CommonIds(reference, l.slave)|, SlaveReach(reference, l.slave));
  }

  // The logs as the protocol's state has them.
  function LogsIn(s: State): Logs { Logs(s.masterLog, s.slaveLog, s.packets) }

  /** Delivering the requests of the protocol's clear one after the other is the clear. */
  lemma RequestsClear(s: State)
    ensures LogsIn(DeliverAll(s, ClearRequests(s.masterLog, s.slaveLog))) == Cleared(LogsIn(s))
  {
    var l, requests := LogsIn(s), ClearRequests(s.masterLog, s.slaveLog);
    var common := CollectFor(l.master, l.slave).common;
    hide CollectFor;
    hide DeleteAll;
    if ClearsEverything(l) {
      DeliverTwo(s, requests[0], requests[1]);
    } else if ToClear(l) == [] {
      assert requests == [];
      assert DeleteAll(l.packets, []) == l.packets by {
        NoDeletions(l.packets);
      }
    } else if common == [] {
      assert requests == [DeleteFromSlave(|ToClear(l)|), DeletePackets(ToClear(l))];
      DeliverTwo(s, requests[0], requests[1]);
    } else {
      assert requests == [DeleteFromMaster(|common|), DeleteFromSlave(|ToClear(l)|), DeletePackets(ToClear(l))];
      assert requests[1..] == [requests[1], requests[2]];
      DeliverTwo(Deliver(s, requests[0]), requests[1], requests[2]);
    }
  }

  lemma NoDeletions(packets: Packets)
    ensures DeleteAll(packets, []) == packets
  {
  }

  lemma DeliverTwo(s: State, a: Request, b: Request)
    ensures DeliverAll(s, [a, b]) == Deliver(Deliver(s, a), b)
  {
    assert [a, b][1..] == [b] && [b][1..] == [];
    hide Deliver;
    assert DeliverAll(Deliver(s, a), [b]) == DeliverAll(Deliver(Deliver(s, a), b), []);
  }

  // The manager sends what is pending and finishes.
  function Finished(s: State): State
    requires s.manager.Clearing?
    decreases s.manager.pending
  {
    if s.manager.pending == [] then Apply(s, FinishClear) else Finished(Apply(s, SendNextDelete))
  }

  lemma {:induction false} FinishedDelivers(s: State)
    requires s.manager.Clearing?
    ensures Finished(s).manager.Idle? && LogsIn(Finished(s)) == LogsIn(DeliverAll(s, s.manager.pending))
    decreases s.manager.pending
  {
    if s.manager.pending != [] {
      var next := Apply(s, SendNextDelete);
      FinishedDelivers(next);
      DeliverForgetsManager(Deliver(s, s.manager.pending[0]), next.manager, s.manager.pending[1..]);
    }
    hide Deliver;
  }

  lemma {:induction false} DeliverForgetsManager(s: State, manager: Manager, requests: seq<Request>)
    ensures LogsIn(DeliverAll(s.(manager := manager), requests)) == LogsIn(DeliverAll(s, requests))
    decreases requests
  {
    if requests != [] {
      assert Deliver(s.(manager := manager), requests[0]) == Deliver(s, requests[0]).(manager := manager);
      hide Deliver;
      DeliverForgetsManager(Deliver(s, requests[0]), manager, requests[1..]);
    }
  }

  /** The protocol's steps of a clear, with nothing in between, are the clear. */
  lemma ClearIsRun(s: State)
    requires s.manager.Idle?
    ensures var read := Apply(Apply(s, ReadMasterAll), ReadSlaveAll);
            Finished(read).manager.Idle? && LogsIn(Finished(read)) == Cleared(LogsIn(s))
  {
    var read := Apply(Apply(s, ReadMasterAll), ReadSlaveAll);
    FinishedDelivers(read);
    RequestsClear(read);
    hide ClearRequests;
    hide Finished;
    hide DeliverAll;
    hide Cleared;
  }

  /** The list that the protocol's two queries plan is the list replayed. */
  lemma ReplayIsRun(s: State)
    requires s.manager.Idle?
    ensures var planned := Apply(Apply(s, ReadMasterFirst), ReadSlaveFirst);
            && planned.manager == ReplayPlanned(ToReplay(LogsIn(s)))
            && LogsIn(Apply(planned, SendReplay)) == LogsIn(s) && Apply(planned, SendReplay).manager.Idle?
            && forall id :: id in Apply(planned, SendReplay).sent <==> id in s.sent || id in ToReplay(LogsIn(s))
  {
    FirstVersionsAreFirstOccurrences(s.masterLog);
    ReplayListIsMissing(FirstVersions(s.masterLog), FirstVersions(s.slaveLog), {});
    hide FirstVersions;
    hide Missing;
    hide Unprocessed;
  }

  // ---------------------------------------------------------------- logs of pairs

  type PacketBase = b: int | 0 <= b < GENERATED_BASES

  predicate Distinct(bs: seq<PacketBase>) { forall i, j :: 0 <= i < j < |bs| ==> bs[i] != bs[j] }

  function FirstVersion(b: PacketBase): Id { 32 * b + 1 }

  function SecondVersion(b: PacketBase): Id { 32 * b + 2 }

  function Firsts(bs: seq<PacketBase>): (ids: seq<Id>)
    ensures |ids| == |bs|
  {
    if bs == [] then [] else Firsts(bs[..|bs| - 1]) + [FirstVersion(bs[|bs| - 1])]
  }

  // The log of a middlebox that processed the packets bs, two versions each.
  function Pairs(bs: seq<PacketBase>): (ids: seq<Id>)
    ensures |ids| == 2 * |bs|
  {
    if bs == [] then [] else Pairs(bs[..|bs| - 1]) + [FirstVersion(bs[|bs| - 1]), SecondVersion(bs[|bs| - 1])]
  }

  lemma {:induction false} FirstsAre(bs: seq<PacketBase>)
    ensures forall i :: 0 <= i < |bs| ==> Firsts(bs)[i] == FirstVersion(bs[i])
    ensures AllGenerated(Firsts(bs))
  {
    if bs != [] {
      FirstsAre(bs[..|bs| - 1]);
    }
  }

  lemma {:induction false} PairsAre(bs: seq<PacketBase>)
    ensures AllGenerated(Pairs(bs))
    ensures forall i :: 0 <= i < |Pairs(bs)| ==> Base(Pairs(bs)[i]) in bs
  {
    if bs != [] {
      var front, b := bs[..|bs| - 1], bs[|bs| - 1];
      PairsAre(front);
      assert forall x :: x in front ==> x in bs;
      assert Base(FirstVersion(b)) == b && Base(SecondVersion(b)) == b;
    }
  }

  lemma {:induction false} PairsContain(bs: seq<PacketBase>, b: PacketBase) returns (i: nat)
    requires b in bs
    ensures i < |Pairs(bs)| && Pairs(bs)[i] == SecondVersion(b)
  {
    if b == bs[|bs| - 1] {
      i := |Pairs(bs)| - 1;
    } else {
      i := PairsContain(bs[..|bs| - 1], b);
    }
  }

  lemma {:induction false} FirstsConcat(a: seq<PacketBase>, b: seq<PacketBase>)
    ensures Firsts(a + b) == Firsts(a) + Firsts(b)
  {
    if b == [] {
      assert a + b == a;
    } else {
      assert (a + b)[..|a + b| - 1] == a + b[..|b| - 1];
      FirstsConcat(a, b[..|b| - 1]);
    }
  }

  lemma {:induction false} PairsConcat(a: seq<PacketBase>, b: seq<PacketBase>)
    ensures Pairs(a + b) == Pairs(a) + Pairs(b)
  {
    if b == [] {
      assert a + b == a;
    } else {
      assert (a + b)[..|a + b| - 1] == a + b[..|b| - 1];
      PairsConcat(a, b[..|b| - 1]);
    }
  }

  lemma FirstVersionsSnoc(log: seq<Id>, id: Id)
    ensures FirstVersions(log + [id])
         == if Base(id) in BasesOf(log) then FirstVersions(log) else FirstVersions(log) + [id]
  {
    assert (log + [id])[..|log|] == log;
  }

  lemma FirstVersionsOfAppendedPair(log: seq<Id>, x: Id, y: Id)
    requires Base(x) == Base(y) && Base(x) !in BasesOf(log)
    ensures FirstVersions(log + [x, y]) == FirstVersions(log) + [x]
  {
    BasesOfAppend(log, x);
    FirstVersionsSnoc(log, x);
    FirstVersionsSnoc(log + [x], y);
    assert log + [x] + [y] == log + [x, y];
  }

  lemma {:induction false} FirstVersionsOfPairs(bs: seq<PacketBase>)
    requires Distinct(bs)
    ensures FirstVersions(Pairs(bs)) == Firsts(bs)
  {
    if bs != [] {
      var front, b := bs[..|bs| - 1], bs[|bs| - 1];
      FirstVersionsOfPairs(front);
      PairsAre(front);
      FirstVersionsOfAppendedPair(Pairs(front), FirstVersion(b), SecondVersion(b));
    }
  }

  lemma FirstsSplit(bs: seq<PacketBase>, k: nat)
    requires k <= |bs|
    ensures Firsts(bs) == Firsts(bs[..k]) + Firsts(bs[k..])
    ensures Firsts(bs)[k..] == Firsts(bs[k..])
  {
    assert bs == bs[..k] + bs[k..];
    FirstsConcat(bs[..k], bs[k..]);
  }

  lemma MissingSuffix(master: seq<Id>, k: nat)
    requires k <= |master|
    ensures Missing(master, master[..k]) == master[k..]
  {
    MissingSkipsCommonPrefix(master, master[..k], 0);
  }

  /** The replay list is the first versions of the packets the slave has not logged. */
  lemma ReplayOfPairs(bs: seq<PacketBase>, k: nat, packets: Packets)
    requires Distinct(bs) && k <= |bs|
    ensures ToReplay(Logs(Pairs(bs), Pairs(bs[..k]), packets)) == Firsts(bs[k..])
  {
    FirstVersionsOfPairs(bs);
    FirstVersionsOfPairs(bs[..k]);
    FirstsSplit(bs, k);
    assert Firsts(bs)[..k] == Firsts(bs[..k]);
    MissingSuffix(Firsts(bs), k);
  }

  lemma HandledOne(packets: Packets, ids: seq<Id>, b: PacketBase)
    requires b in packets
    ensures Handled(packets, ids + [FirstVersion(b)]) == Handled(packets, ids) + [FirstVersion(b), SecondVersion(b)]
  {
    var all := ids + [FirstVersion(b)];
    assert all[..|all| - 1] == ids;
    assert Base(FirstVersion(b)) == b && NextVersion(FirstVersion(b)) == SecondVersion(b);
  }

  lemma {:induction false} HandledFirsts(packets: Packets, bs: seq<PacketBase>)
    requires forall b :: b in bs ==> b in packets
    ensures Handled(packets, Firsts(bs)) == Pairs(bs)
  {
    if bs != [] {
      var front := bs[..|bs| - 1];
      HandledFirsts(packets, front);
      HandledOne(packets, Firsts(front), bs[|bs| - 1]);
      hide Handled;
    }
  }

  // The master is quiescent and logged a pair per base of bs; the slave has whole packets of the first k of them; the
  // packet logger still holds all of them.
  predicate Drains(l: Logs, bs: seq<PacketBase>, k: nat) {
    && Distinct(bs) && k <= |bs|
    && l.master == Pairs(bs)
    && l.slave == Pairs(bs[..k])
    && forall b :: b in bs ==> b in l.packets
  }

  /** A clear takes the slave's whole prefix out of both logs and leaves the packets behind it alone. */
  lemma ClearOfPairs(bs: seq<PacketBase>, n: nat, packets: Packets)
    requires n <= |bs|
    ensures var l := Logs(Pairs(bs), Pairs(bs[..n]), packets);
            ToClear(l) == Pairs(bs[..n]) && !ClearsEverything(l)
            && Cleared(l) == Logs(Pairs(bs[n..]), [], DeleteAll(packets, Pairs(bs[..n])))
  {
    var m, s := Pairs(bs), Pairs(bs[..n]);
    assert bs == bs[..n] + bs[n..];
    PairsConcat(bs[..n], bs[n..]);
    PairsAre(bs);
    PairsAre(bs[..n]);
    CollectedIs(m, s);
    CommonOfPrefix(Reference(m, s), s);
    assert s + [] == s;
    hide CollectFor;
  }

  lemma ClearKeepsUnhandledPackets(bs: seq<PacketBase>, n: nat, packets: Packets)
    requires Distinct(bs) && n <= |bs|
    requires forall b :: b in bs ==> b in packets
    ensures forall b :: b in bs[n..] ==> b in DeleteAll(packets, Pairs(bs[..n]))
  {
    PairsAre(bs[..n]);
    forall b | b in bs[n..] ensures b in DeleteAll(packets, Pairs(bs[..n])) {
      DeleteAllRemoves(packets, Pairs(bs[..n]), b);
      assert b !in bs[..n];
    }
  }

  // A packet stored in at most two versions goes when its pair is cleared.
  lemma ClearedPacketsGo(bs: seq<PacketBase>, packets: Packets, b: PacketBase)
    requires b in bs
    requires b in packets ==> Counter(packets[b]) <= 2
    ensures b !in DeleteAll(packets, Pairs(bs))
  {
    DeleteAllRemoves(packets, Pairs(bs), b);
    var i := PairsContain(bs, b);
    assert Base(Pairs(bs)[i]) == b && Version(Pairs(bs)[i]) == 2;
  }

  // ---------------------------------------------------------------- one round

  // The slave handles the first h ids of the replay list before the clear and the next j after it.
  predicate RoundChoice(l: Logs, h: nat, j: nat) {
    && h + j <= |ToReplay(l)|
    && (ToReplay(l) != [] ==> h > 0)
  }

  function Replayed(l: Logs, ids: seq<Id>): Logs { l.(slave := l.slave + Handled(l.packets, ids)) }

  function RoundLogs(l: Logs, h: nat, j: nat): Logs
    requires RoundChoice(l, h, j)
  {
    var sent := ToReplay(l);
    Replayed(Cleared(Replayed(l, sent[..h])), sent[h..][..j])
  }

  predicate RoundHasPackets(l: Logs, h: nat)
    requires h <= |ToReplay(l)|
  {
    |ToReplay(l)| > 0 || ClearCount(Replayed(l, ToReplay(l)[..h])) > 0
  }

  // The slave's log after handling the first h packets of what it lacks.
  lemma HandledPart(packets: Packets, bs: seq<PacketBase>, k: nat, h: nat)
    requires k + h <= |bs| && forall b :: b in bs ==> b in packets
    ensures |Firsts(bs[k..])| == |bs| - k
    ensures Pairs(bs[..k]) + Handled(packets, Firsts(bs[k..])[..h]) == Pairs(bs[..k + h])
  {
    hide *;
    var part := bs[k..][..h];
    FirstsSplit(bs[k..], h);
    assert Firsts(bs[k..])[..h] == Firsts(part);
    HandledFirsts(packets, part);
    assert bs[..k + h] == bs[..k] + part;
    PairsConcat(bs[..k], part);
  }

  lemma ReplayStep(l: Logs, bs: seq<PacketBase>, k: nat, h: nat)
    requires Drains(l, bs, k) && k + h <= |bs|
    ensures |Firsts(bs[k..])| == |bs| - k
    ensures Drains(Replayed(l, Firsts(bs[k..])[..h]), bs, k + h)
  {
    HandledPart(l.packets, bs, k, h);
  }

  lemma ClearStep(l: Logs, bs: seq<PacketBase>, n: nat)
    requires Drains(l, bs, n)
    ensures Drains(Cleared(l), bs[n..], 0)
    ensures Cleared(l).packets == DeleteAll(l.packets, Pairs(bs[..n]))
    ensures ClearCount(l) == 2 * n
  {
    ClearOfPairs(bs, n, l.packets);
    ClearKeepsUnhandledPackets(bs, n, l.packets);
    assert bs[n..][..0] == [];
  }

  /** A round keeps the pairing, clears whole packets from the front of both logs, and has something to do exactly
      while the master's log is not empty; then the master's log gets strictly shorter. */
  lemma RoundOfPairs(l: Logs, bs: seq<PacketBase>, k: nat, h: nat, j: nat)
    requires Drains(l, bs, k) && RoundChoice(l, h, j)
    ensures k + h + j <= |bs| && (bs != [] ==> k + h > 0)
    ensures Drains(RoundLogs(l, h, j), bs[k + h..], j)
    ensures RoundLogs(l, h, j).packets == DeleteAll(l.packets, Pairs(bs[..k + h]))
    ensures RoundHasPackets(l, h) <==> bs != []
  {
    hide *;
    ReplayOfDrains(l, bs, k);
    RoundUnfolds(l, bs, k, h, j);
    var l1 := Replayed(l, Firsts(bs[k..])[..h]);
    ReplayStep(l, bs, k, h);
    ClearStep(l1, bs, k + h);
    LateReplayStep(Cleared(l1), bs, k + h, j);
  }

  lemma ReplayOfDrains(l: Logs, bs: seq<PacketBase>, k: nat)
    requires Drains(l, bs, k)
    ensures ToReplay(l) == Firsts(bs[k..])
  {
    ReplayOfPairs(bs, k, l.packets);
  }

  lemma RoundUnfolds(l: Logs, bs: seq<PacketBase>, k: nat, h: nat, j: nat)
    requires Drains(l, bs, k) && RoundChoice(l, h, j) && ToReplay(l) == Firsts(bs[k..])
    ensures |Firsts(bs[k..])| == |bs| - k && k + h + j <= |bs| && (bs != [] ==> k + h > 0)
    ensures var l1 := Replayed(l, Firsts(bs[k..])[..h]);
            && l1.packets == l.packets && j <= |Firsts(bs[k + h..])|
            && RoundLogs(l, h, j) == Replayed(Cleared(l1), Firsts(bs[k + h..])[..j])
            && (RoundHasPackets(l, h) <==> |bs| - k > 0 || ClearCount(l1) > 0)
  {
    RestOfList(bs, k, h);
  }

  // The slave handles j more packets of the rest of a drained list.
  lemma LateReplayStep(l: Logs, bs: seq<PacketBase>, n: nat, j: nat)
    requires n + j <= |bs| && Drains(l, bs[n..], 0)
    ensures j <= |Firsts(bs[n..])| && Drains(Replayed(l, Firsts(bs[n..])[..j]), bs[n..], j)
    ensures Replayed(l, Firsts(bs[n..])[..j]).packets == l.packets
  {
    assert bs[n..][0..] == bs[n..];
    ReplayStep(l, bs[n..], 0, j);
  }

  // What is left of the replay list after its first h ids.
  lemma RestOfList(bs: seq<PacketBase>, k: nat, h: nat)
    requires k + h <= |bs|
    ensures Firsts(bs[k..])[h..] == Firsts(bs[k + h..])
  {
    FirstsSplit(bs[k..], h);
    assert bs[k..][h..] == bs[k + h..];
  }
}
