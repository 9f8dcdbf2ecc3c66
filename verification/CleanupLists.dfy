/** The list algorithms of the cleanup manager: which packets the slave still has to be sent
    (an erase loop over one vector while walking another) and which ids both sides have processed. */
module CleanupLists {
  import opened PacketIds
  import opened SetSizes

  // ---------------------------------------------------------------- replay list

  // The erase loop can step an iterator past the end of its vector; the original's behaviour is then undefined.
  datatype ReplayPlan = Plan(toReplay: seq<Id>, replayed: set<nat>) | IteratorPastEnd

  function Prepend(kept: seq<Id>, plan: ReplayPlan): ReplayPlan {
    match plan
    case Plan(ids, replayed) => Plan(kept + ids, replayed)
    case IteratorPastEnd => IteratorPastEnd
  }

  // The first loop, as a walk over what is left of both vectors.
  function EraseWalk(master: seq<Id>, slave: seq<Id>, replayed: set<nat>): ReplayPlan {
    if master == [] || slave == [] then
      Plan(master, replayed)
    else if master[0] == slave[0] then
      EraseWalk(master[1..], slave[1..], replayed - {Base(master[0])})
    else if Base(master[0]) !in replayed then
      Prepend([master[0]], EraseWalk(master[1..], slave[1..], replayed + {Base(master[0])}))
    else if |master| == 1 then
      IteratorPastEnd
    else
      Prepend([master[1]], EraseWalk(master[2..], slave[1..], replayed))
  }

  function Unprocessed(master: seq<Id>, slave: seq<Id>, replayed: set<nat>): ReplayPlan {
    match EraseWalk(master, slave, replayed)
    case Plan(ids, seen) => Plan(ids, seen + BasesOf(ids))
    case IteratorPastEnd => IteratorPastEnd
  }

  // What the first loop still has to do when its iterators stand at mi and si.
  function WalkFrom(ids: seq<Id>, mi: nat, slave: seq<Id>, si: nat, replayed: set<nat>): ReplayPlan
    requires mi <= |ids| && si <= |slave|
  {
    Prepend(ids[..mi], EraseWalk(ids[mi..], slave[si..], replayed))
  }

  lemma WalkErases(ids: seq<Id>, mi: nat, slave: seq<Id>, si: nat, replayed: set<nat>)
    requires mi < |ids| && si < |slave| && ids[mi] == slave[si]
    ensures WalkFrom(ids, mi, slave, si, replayed)
         == WalkFrom(ids[..mi] + ids[mi + 1..], mi, slave, si + 1, replayed - {Base(ids[mi])})
  {
    var ids' := ids[..mi] + ids[mi + 1..];
    assert ids'[mi..] == ids[mi..][1..] && ids'[..mi] == ids[..mi];
    assert slave[si..][1..] == slave[si + 1..];
  }

  lemma WalkKeeps(ids: seq<Id>, mi: nat, slave: seq<Id>, si: nat, replayed: set<nat>)
    requires mi < |ids| && si < |slave| && ids[mi] != slave[si] && Base(ids[mi]) !in replayed
    ensures WalkFrom(ids, mi, slave, si, replayed)
         == WalkFrom(ids, mi + 1, slave, si + 1, replayed + {Base(ids[mi])})
  {
    assert ids[mi..][1..] == ids[mi + 1..] && ids[..mi + 1] == ids[..mi] + [ids[mi]];
    assert slave[si..][1..] == slave[si + 1..];
    PrependTwice(ids[..mi], [ids[mi]], EraseWalk(ids[mi + 1..], slave[si + 1..], replayed + {Base(ids[mi])}));
  }

  lemma WalkSkips(ids: seq<Id>, mi: nat, slave: seq<Id>, si: nat, replayed: set<nat>)
    requires mi < |ids| && si < |slave| && ids[mi] != slave[si] && Base(ids[mi]) in replayed
    ensures WalkFrom(ids, mi, slave, si, replayed)
         == if mi + 1 == |ids| then IteratorPastEnd
            else WalkFrom(ids[..mi] + ids[mi + 1..], mi + 1, slave, si + 1, replayed)
  {
    if mi + 1 < |ids| {
      var ids' := ids[..mi] + ids[mi + 1..];
      assert ids'[mi + 1..] == ids[mi..][2..] && ids'[..mi + 1] == ids[..mi] + [ids[mi..][1]];
      assert slave[si..][1..] == slave[si + 1..];
      PrependTwice(ids[..mi], [ids[mi + 1]], EraseWalk(ids[mi..][2..], slave[si + 1..], replayed));
    }
  }

  lemma PrependTwice(a: seq<Id>, b: seq<Id>, plan: ReplayPlan)
    ensures Prepend(a, Prepend(b, plan)) == Prepend(a + b, plan)
  {
    if plan.Plan? {
      assert a + (b + plan.toReplay) == (a + b) + plan.toReplay;
    }
  }

  lemma WalkStarts(ids: seq<Id>, slave: seq<Id>, replayed: set<nat>)
    ensures WalkFrom(ids, 0, slave, 0, replayed) == EraseWalk(ids, slave, replayed)
  {
    var plan := EraseWalk(ids, slave, replayed);
    assert ids[0..] == ids && slave[0..] == slave && ids[..0] == [];
    if plan.Plan? {
      assert [] + plan.toReplay == plan.toReplay;
    }
  }

  lemma WalkEnds(ids: seq<Id>, mi: nat, slave: seq<Id>, si: nat, replayed: set<nat>)
    requires mi <= |ids| && si <= |slave| && (mi == |ids| || si == |slave|)
    ensures WalkFrom(ids, mi, slave, si, replayed) == Plan(ids, replayed)
  {
    assert ids[..mi] + ids[mi..] == ids;
  }

  method GetUnprocessedPacketIds(master: seq<Id>, slave: seq<Id>, alreadyReplayed: set<nat>)
    returns (plan: ReplayPlan)
    ensures plan == Unprocessed(master, slave, alreadyReplayed)
  {
    hide EraseWalk;
    hide WalkFrom;
    var ids, replayed := master, alreadyReplayed;
    var mi, si := 0, 0;
    WalkStarts(master, slave, alreadyReplayed);
    while mi < |ids| && si < |slave|
      invariant mi <= |ids| && si <= |slave|
      invariant EraseWalk(master, slave, alreadyReplayed) == WalkFrom(ids, mi, slave, si, replayed)
      decreases |slave| - si
    {
      var packetBase := Base(ids[mi]);
      if ids[mi] == slave[si] {
        WalkErases(ids, mi, slave, si, replayed);
        ids := ids[..mi] + ids[mi + 1..];
        replayed := replayed - {packetBase};
      } else {
        if packetBase !in replayed {
          WalkKeeps(ids, mi, slave, si, replayed);
          replayed := replayed + {packetBase};
        } else {
          WalkSkips(ids, mi, slave, si, replayed);
          ids := ids[..mi] + ids[mi + 1..];
          if mi == |ids| {
            return IteratorPastEnd;
          }
        }
        mi := mi + 1;
      }
      si := si + 1;
    }
    WalkEnds(ids, mi, slave, si, replayed);
    replayed := InsertBases(ids, replayed);
    return Plan(ids, replayed);
  }

  // The second loop: every id left in the vector has its base marked.
  method InsertBases(ids: seq<Id>, alreadyReplayed: set<nat>) returns (replayed: set<nat>)
    ensures replayed == alreadyReplayed + BasesOf(ids)
  {
    replayed := alreadyReplayed;
    var i := 0;
    while i < |ids|
      invariant 0 <= i <= |ids|
      invariant replayed == alreadyReplayed + BasesOf(ids[..i])
    {
      assert ids[..i + 1] == ids[..i] + [ids[i]];
      BasesOfAppend(ids[..i], ids[i]);
      replayed := replayed + {Base(ids[i])};
      i := i + 1;
    }
    assert ids[..i] == ids;
  }

  // The master entries, from position i on, that the slave does not hold at the same position.
  function MissingFrom(master: seq<Id>, slave: seq<Id>, i: nat): seq<Id>
    requires i <= |master|
    decreases |master| - i
  {
    if i == |master| then []
    else if i < |slave| && master[i] == slave[i] then MissingFrom(master, slave, i + 1)
    else [master[i]] + MissingFrom(master, slave, i + 1)
  }

  function Missing(master: seq<Id>, slave: seq<Id>): seq<Id> { MissingFrom(master, slave, 0) }

  lemma {:induction false} EraseWalkIsMissing(master: seq<Id>, slave: seq<Id>, i: nat, replayed: set<nat>)
    requires i <= |master| && DistinctBases(master)
    requires forall j :: i <= j < |master| ==> Base(master[j]) !in replayed
    ensures var walk := EraseWalk(master[i..], if i <= |slave| then slave[i..] else [], replayed);
            walk.Plan? && walk.toReplay == MissingFrom(master, slave, i)
            && walk.replayed <= replayed + BasesOf(walk.toReplay) && replayed <= walk.replayed
    decreases |master| - i
  {
    var m := master[i..];
    if i >= |slave| {
      MissingBeyond(master, slave, i);
    } else if i < |master| {
      assert m[1..] == master[i + 1..] && slave[i..][1..] == slave[i + 1..];
      if master[i] == slave[i] {
        assert replayed - {Base(m[0])} == replayed;
        EraseWalkIsMissing(master, slave, i + 1, replayed);
      } else {
        EraseWalkIsMissing(master, slave, i + 1, replayed + {Base(m[0])});
        BasesOfCons(m[0], MissingFrom(master, slave, i + 1));
      }
    }
  }

  lemma {:induction false} MissingBeyond(master: seq<Id>, slave: seq<Id>, i: nat)
    requires |slave| <= i <= |master|
    ensures MissingFrom(master, slave, i) == master[i..]
    decreases |master| - i
  {
    if i < |master| {
      MissingBeyond(master, slave, i + 1);
    }
  }

  predicate SameAt(master: seq<Id>, slave: seq<Id>, i: nat) { i < |master| && i < |slave| && master[i] == slave[i] }

  // The positions from i on at which the slave does not hold the master's id, in order, with the ids there.
  ghost predicate Lacking(master: seq<Id>, slave: seq<Id>, i: nat, at: seq<nat>, ids: seq<Id>) {
    && |at| == |ids|
    && (forall k :: 0 <= k < |at| ==>
          i <= at[k] < |master| && ids[k] == master[at[k]] && !SameAt(master, slave, at[k]))
    && (forall k, l :: 0 <= k < l < |at| ==> at[k] < at[l])
    && (forall j :: i <= j < |master| && !SameAt(master, slave, j) ==> j in at)
  }

  lemma LackFirst(master: seq<Id>, slave: seq<Id>, i: nat, at: seq<nat>, ids: seq<Id>)
    requires i < |master| && Lacking(master, slave, i + 1, at, ids) && !SameAt(master, slave, i)
    ensures Lacking(master, slave, i, [i] + at, [master[i]] + ids)
  {
    var at', ids' := [i] + at, [master[i]] + ids;
    hide SameAt;
    forall k | 0 <= k < |at'|
      ensures i <= at'[k] < |master| && ids'[k] == master[at'[k]] && !SameAt(master, slave, at'[k])
    {
      if k > 0 {
        assert at'[k] == at[k - 1] && ids'[k] == ids[k - 1];
      }
    }
    forall k, l | 0 <= k < l < |at'| ensures at'[k] < at'[l] {
      assert at'[l] == at[l - 1];
      if k > 0 {
        assert at'[k] == at[k - 1];
      }
    }
    forall j | i <= j < |master| && !SameAt(master, slave, j) ensures j in at' {
      assert j in at' <==> j == i || j in at;
    }
  }

  lemma LackSame(master: seq<Id>, slave: seq<Id>, i: nat, at: seq<nat>, ids: seq<Id>)
    requires i < |master| && Lacking(master, slave, i + 1, at, ids) && SameAt(master, slave, i)
    ensures Lacking(master, slave, i, at, ids)
  {
  }

  lemma {:induction false} MissingPicks(master: seq<Id>, slave: seq<Id>, i: nat) returns (at: seq<nat>)
    requires i <= |master|
    ensures Lacking(master, slave, i, at, MissingFrom(master, slave, i))
    decreases |master| - i
  {
    if i == |master| {
      at := [];
    } else {
      var rest := MissingPicks(master, slave, i + 1);
      if SameAt(master, slave, i) {
        LackSame(master, slave, i, rest, MissingFrom(master, slave, i + 1));
        at := rest;
      } else {
        LackFirst(master, slave, i, rest, MissingFrom(master, slave, i + 1));
        at := [i] + rest;
      }
      hide Lacking;
    }
  }

  /** On a list with distinct bases and a set holding none of them the loop stays inside its vector, returns the
      master entries the slave lacks at their position, in order, and adds exactly their bases to the set. */
  lemma ReplayListIsMissing(master: seq<Id>, slave: seq<Id>, replayed: set<nat>)
    requires DistinctBases(master)
    requires forall j :: 0 <= j < |master| ==> Base(master[j]) !in replayed
    ensures Unprocessed(master, slave, replayed)
         == Plan(Missing(master, slave), replayed + BasesOf(Missing(master, slave)))
    ensures exists at :: Lacking(master, slave, 0, at, Missing(master, slave))
  {
    var at := MissingPicks(master, slave, 0);
    EraseWalkIsMissing(master, slave, 0, replayed);
    assert master[0..] == master && slave[0..] == slave;
  }

  lemma {:induction false} MissingSkipsCommonPrefix(master: seq<Id>, slave: seq<Id>, i: nat)
    requires slave <= master && i <= |slave|
    ensures MissingFrom(master, slave, i) == master[|slave|..]
    decreases |slave| - i
  {
    if i < |slave| {
      assert master[i] == slave[i];
      MissingSkipsCommonPrefix(master, slave, i + 1);
    } else {
      MissingBeyond(master, slave, i);
    }
  }

  /** When the slave's list is a prefix of the master's, what is replayed is the suffix that the slave lacks. */
  lemma ReplayListOfPrefix(master: seq<Id>, slave: seq<Id>)
    requires DistinctBases(master) && slave <= master
    ensures Unprocessed(master, slave, {}) == Plan(master[|slave|..], BasesOf(master[|slave|..]))
  {
    ReplayListIsMissing(master, slave, {});
    MissingSkipsCommonPrefix(master, slave, 0);
  }

  // Without distinct bases the loop can leave its vector: two versions of one base against a slave holding neither.
  lemma DuplicateBasesCanOverrun()
    ensures Unprocessed([33, 34], [65, 66], {}) == IteratorPastEnd
  {
    var rest: seq<Id> := [33, 34][1..];
    assert rest == [34] && [65, 66][1..] == [66];
    assert EraseWalk([34], [66], {1}) == IteratorPastEnd;
    assert {} + {Base(33)} == {1};
    assert EraseWalk([33, 34], [65, 66], {}) == Prepend([33], EraseWalk([34], [66], {1}));
  }

  // ---------------------------------------------------------------- common and orphan ids

  type I32 = x: int | -0x8000_0000 <= x < 0x8000_0000

  const INT_MAX: I32 := 0x7FFF_FFFF

  // Conversion of an int that is compared with a size: a negative limit is a huge one.
  function AsSize(max: I32): nat { if max < 0 then max + 0x1_0000_0000_0000_0000 else max }

  // Conversion of a uint64_t to int, which the set of bases performs on every insert and lookup.
  function NarrowToInt(base: nat): int {
    var low := base % 0x1_0000_0000;
    if low < 0x8000_0000 then low else low - 0x1_0000_0000
  }

  function LimitedInsert(bases: set<int>, max: I32, id: Id): set<int> {
    if |bases| < AsSize(max) then bases + {NarrowToInt(Base(id))} else bases
  }

  predicate Accepts(bases: set<int>, max: I32, id: Id) {
    NarrowToInt(Base(id)) in LimitedInsert(bases, max, id)
  }

  method AddPacket(bases: set<int>, common: seq<Id>, alreadyReplayed: set<nat>, max: I32, packetToAdd: Id)
    returns (added: bool, bases': set<int>, common': seq<Id>, alreadyReplayed': set<nat>)
    ensures added <==> |bases| < AsSize(max) || NarrowToInt(Base(packetToAdd)) in bases
    ensures bases' == if |bases| < AsSize(max) then bases + {NarrowToInt(Base(packetToAdd))} else bases
    ensures common' == if added then common + [packetToAdd] else common
    ensures alreadyReplayed' == if added then alreadyReplayed - {Base(packetToAdd)} else alreadyReplayed
  {
    var packetBase := Base(packetToAdd);
    added, bases', common', alreadyReplayed' := false, bases, common, alreadyReplayed;
    if |bases| < AsSize(max) {
      bases' := bases' + {NarrowToInt(packetBase)};
    }
    if NarrowToInt(packetBase) in bases' {
      common' := common' + [packetToAdd];
      if packetBase in alreadyReplayed' {
        alreadyReplayed' := alreadyReplayed' - {packetBase};
      }
      added := true;
    }
  }

  function FirstIndex(id: Id, ids: seq<Id>): (k: nat)
    ensures k <= |ids|
    ensures k < |ids| ==> ids[k] == id
    ensures forall j :: 0 <= j < k ==> ids[j] != id
  {
    if ids == [] || ids[0] == id then 0 else 1 + FirstIndex(id, ids[1..])
  }

  lemma FirstIndexIs(id: Id, ids: seq<Id>, k: nat)
    requires k <= |ids| && (k < |ids| ==> ids[k] == id)
    requires forall j :: 0 <= j < k ==> ids[j] != id
    ensures FirstIndex(id, ids) == k
  {
  }

  function OrphansBefore(id: Id, slave: seq<Id>): seq<Id> {
    if id in slave then slave[..FirstIndex(id, slave)] else []
  }

  method SetSlaveOrphanPacketIds(packetId: Id, slave: seq<Id>, slaveIter: nat, orphans: seq<Id>)
    returns (orphans': seq<Id>)
    requires slaveIter <= |slave|
    ensures packetId in slave[slaveIter..] ==> orphans' == orphans + OrphansBefore(packetId, slave[slaveIter..])
    ensures packetId !in slave[slaveIter..] ==> orphans' == []
  {
    ghost var rest := slave[slaveIter..];
    orphans' := orphans;
    var si, isFound := slaveIter, false;
    while si < |slave| && !isFound
      invariant slaveIter <= si <= |slave|
      invariant packetId !in rest[..si - slaveIter]
      invariant orphans' == orphans + rest[..si - slaveIter]
      invariant isFound ==> si < |slave| && slave[si] == packetId
      decreases |slave| - si, !isFound
    {
      assert rest[si - slaveIter] == slave[si];
      if slave[si] != packetId {
        assert rest[..si + 1 - slaveIter] == rest[..si - slaveIter] + [slave[si]];
        orphans' := orphans' + [slave[si]];
        si := si + 1;
      } else {
        isFound := true;
      }
    }
    if !isFound {
      assert rest[..si - slaveIter] == rest;
      orphans' := [];
    } else {
      var k := si - slaveIter;
      assert forall j :: 0 <= j < k ==> rest[..k][j] == rest[j];
      FirstIndexIs(packetId, rest, k);
    }
  }

  datatype Collected = Collected(common: seq<Id>, orphans: seq<Id>, replayed: set<nat>)

  // The loop of getCommonProcessedPacketIds under any limit on the number of bases.
  function Collect(master: seq<Id>, slave: seq<Id>, bases: set<int>, max: I32, replayed: set<nat>): Collected {
    if master == [] || slave == [] then
      Collected([], [], replayed)
    else if master[0] == slave[0] then
      if Accepts(bases, max, master[0]) then
        var rest := Collect(master[1..], slave[1..], LimitedInsert(bases, max, master[0]), max,
                            replayed - {Base(master[0])});
        rest.(common := [master[0]] + rest.common)
      else
        Collect(master[1..], slave, bases, max, replayed)
    else
      var orphans := OrphansBefore(master[0], slave);
      if orphans != [] && Accepts(bases, max, master[0]) then
        Collected([master[0]], orphans, replayed - {Base(master[0])})
      else
        Collected([], orphans, replayed)
  }

  // The result `all` is what has been collected so far followed by what `rest` still collects.
  predicate Continues(all: Collected, common: seq<Id>, rest: Collected) {
    all == Collected(common + rest.common, rest.orphans, rest.replayed)
  }

  lemma CollectTakes(all: Collected, common: seq<Id>, m: seq<Id>, s: seq<Id>, bases: set<int>, max: I32,
                     replayed: set<nat>)
    requires m != [] && s != [] && m[0] == s[0]
    requires Continues(all, common, Collect(m, s, bases, max, replayed))
    ensures Accepts(bases, max, m[0]) ==>
              Continues(all, common + [m[0]],
                        Collect(m[1..], s[1..], LimitedInsert(bases, max, m[0]), max, replayed - {Base(m[0])}))
    ensures !Accepts(bases, max, m[0]) ==> Continues(all, common, Collect(m[1..], s, bases, max, replayed))
  {
    if Accepts(bases, max, m[0]) {
      var rest := Collect(m[1..], s[1..], LimitedInsert(bases, max, m[0]), max, replayed - {Base(m[0])});
      assert common + ([m[0]] + rest.common) == (common + [m[0]]) + rest.common;
    }
  }

  lemma CollectStops(all: Collected, common: seq<Id>, m: seq<Id>, s: seq<Id>, bases: set<int>, max: I32,
                     replayed: set<nat>)
    requires m != [] && s != [] && m[0] != s[0]
    requires Continues(all, common, Collect(m, s, bases, max, replayed))
    ensures var orphans := OrphansBefore(m[0], s);
            all == if orphans != [] && Accepts(bases, max, m[0])
                   then Collected(common + [m[0]], orphans, replayed - {Base(m[0])})
                   else Collected(common, orphans, replayed)
  {
    assert common + [] == common;
  }

  method GetCommonProcessedPacketIds(master: seq<Id>, slave: seq<Id>, max: I32, alreadyReplayed: set<nat>)
    returns (r: Collected)
    ensures r == Collect(master, slave, {}, max, alreadyReplayed)
  {
    ghost var all := Collect(master, slave, {}, max, alreadyReplayed);
    var common, orphans, replayed := [], [], alreadyReplayed;
    var bases: set<int> := {};
    var mi, si, added := 0, 0, false;
    assert master[0..] == master && slave[0..] == slave && [] + all.common == all.common;
    while mi < |master| && si < |slave|
      invariant mi <= |master| && si <= |slave|
      invariant orphans == []
      invariant Continues(all, common, Collect(master[mi..], slave[si..], bases, max, replayed))
      decreases |master| - mi
    {
      ghost var m, s := master[mi..], slave[si..];
      assert m[0] == master[mi] && s[0] == slave[si];
      if master[mi] == slave[si] {
        CollectTakes(all, common, m, s, bases, max, replayed);
        assert m[1..] == master[mi + 1..] && s[1..] == slave[si + 1..];
        added, bases, common, replayed := AddPacket(bases, common, replayed, max, slave[si]);
        if added {
          si := si + 1;
        }
      } else {
        CollectStops(all, common, m, s, bases, max, replayed);
        orphans := SetSlaveOrphanPacketIds(master[mi], slave, si, orphans);
        assert orphans == OrphansBefore(master[mi], s);
        if |orphans| > 0 {
          added, bases, common, replayed := AddPacket(bases, common, replayed, max, master[mi]);
        }
        return Collected(common, orphans, replayed);
      }
      mi := mi + 1;
    }
    assert common + [] == common;
    return Collected(common, orphans, replayed);
  }

  // The two lists do not depend on the bases marked.
  lemma {:induction false} CollectForgetsMarks(master: seq<Id>, slave: seq<Id>, bases: set<int>, max: I32, r: set<nat>,
                                               q: set<nat>)
    ensures var c, d := Collect(master, slave, bases, max, r), Collect(master, slave, bases, max, q);
            c.common == d.common && c.orphans == d.orphans
    decreases |master|
  {
    if master != [] && slave != [] && master[0] == slave[0] {
      if Accepts(bases, max, master[0]) {
        CollectForgetsMarks(master[1..], slave[1..], LimitedInsert(bases, max, master[0]), max,
                            r - {Base(master[0])}, q - {Base(master[0])});
      } else {
        CollectForgetsMarks(master[1..], slave, bases, max, r, q);
      }
    }
  }

  // ---- what the two lists are, when the limit never bites

  function CommonPrefixLength(master: seq<Id>, slave: seq<Id>): (k: nat)
    ensures k <= |master| && k <= |slave|
    ensures master[..k] == slave[..k]
    ensures k < |master| && k < |slave| ==> master[k] != slave[k]
  {
    if master == [] || slave == [] || master[0] != slave[0] then 0
    else
      var k := CommonPrefixLength(master[1..], slave[1..]);
      assert master[..k + 1] == [master[0]] + master[1..][..k] && slave[..k + 1] == [slave[0]] + slave[1..][..k];
      k + 1
  }

  predicate HasOrphans(master: seq<Id>, slave: seq<Id>) {
    var k := CommonPrefixLength(master, slave);
    k < |master| && k < |slave| && master[k] in slave[k..]
  }

  function CommonIds(master: seq<Id>, slave: seq<Id>): seq<Id> {
    var k := CommonPrefixLength(master, slave);
    if HasOrphans(master, slave) then master[..k + 1] else master[..k]
  }

  function OrphanIds(master: seq<Id>, slave: seq<Id>): seq<Id> {
    var k := CommonPrefixLength(master, slave);
    if HasOrphans(master, slave) then OrphansBefore(master[k], slave[k..]) else []
  }

  // How many ids of the slave's list the clear removes: up to and including the master's next id.
  function SlaveReach(master: seq<Id>, slave: seq<Id>): nat {
    var k := CommonPrefixLength(master, slave);
    if HasOrphans(master, slave) then k + FirstIndex(master[k], slave[k..]) + 1 else k
  }

  lemma {:induction false} BoundedSetSize(s: set<int>, n: nat)
    requires forall x :: x in s ==> 0 <= x < n
    ensures |s| <= n
  {
    if n > 0 {
      BoundedSetSize(s - {n - 1}, n - 1);
      assert s <= (s - {n - 1}) + {n - 1};
    } else {
      assert forall x :: x !in s;
      assert s == {};
    }
  }

  predicate GeneratedBases(bases: set<int>) { forall b :: b in bases ==> 0 <= b < GENERATED_BASES }

  /** On generated ids the narrowing to int is exact and the limit INT_MAX is never reached: the set is confined to
      the 7 * 2^28 possible bases. */
  lemma GeneratedIdIsAccepted(bases: set<int>, id: Id)
    requires GeneratedBases(bases) && Generated(id)
    ensures NarrowToInt(Base(id)) == Base(id)
    ensures Accepts(bases, INT_MAX, id)
    ensures LimitedInsert(bases, INT_MAX, id) == bases + {Base(id)}
    ensures GeneratedBases(LimitedInsert(bases, INT_MAX, id))
  {
    BoundedSetSize(bases, GENERATED_BASES);
  }

  function NarrowedBases(ids: seq<Id>): set<int> { set i | 0 <= i < |ids| :: NarrowToInt(Base(ids[i])) }

  lemma NarrowedCons(id: Id, ids: seq<Id>)
    ensures NarrowedBases([id] + ids) == {NarrowToInt(Base(id))} + NarrowedBases(ids)
  {
    var all := [id] + ids;
    forall b | b in {NarrowToInt(Base(id))} + NarrowedBases(ids) ensures b in NarrowedBases(all) {
      if b == NarrowToInt(Base(id)) {
        assert all[0] == id;
      } else {
        var i :| 0 <= i < |ids| && b == NarrowToInt(Base(ids[i]));
        assert all[i + 1] == ids[i];
      }
    }
    hide NarrowToInt;
  }

  lemma OneMoreBase(bases: set<int>, max: I32, id: Id, rest: seq<Id>)
    requires |bases| <= AsSize(max) && Accepts(bases, max, id)
    ensures var more := LimitedInsert(bases, max, id);
            |more| <= AsSize(max) && bases + NarrowedBases([id] + rest) == more + NarrowedBases(rest)
  {
    NarrowedCons(id, rest);
    assert LimitedInsert(bases, max, id) == bases + {NarrowToInt(Base(id))};
    hide NarrowedBases;
  }

  lemma NoBases(bases: set<int>)
    ensures bases + NarrowedBases([]) == bases
  {
  }

  /** Whatever the limit, the common ids have no more bases than it allows. */
  lemma {:induction false} CollectWithinLimit(master: seq<Id>, slave: seq<Id>, bases: set<int>, max: I32,
                                              replayed: set<nat>)
    requires |bases| <= AsSize(max)
    ensures |bases + NarrowedBases(Collect(master, slave, bases, max, replayed).common)| <= AsSize(max)
    decreases |master|
  {
    hide NarrowedBases;
    hide LimitedInsert;
    hide Accepts;
    hide AsSize;
    hide OrphansBefore;
    NoBases(bases);
    if master != [] && slave != [] {
      var id, more := master[0], LimitedInsert(bases, max, master[0]);
      if master[0] != slave[0] {
        if Accepts(bases, max, id) {
          OneMoreBase(bases, max, id, []);
          NoBases(more);
          assert [id] + [] == [id];
        }
      } else if Accepts(bases, max, id) {
        var rest := Collect(master[1..], slave[1..], more, max, replayed - {Base(id)}).common;
        OneMoreBase(bases, max, id, rest);
        CollectWithinLimit(master[1..], slave[1..], more, max, replayed - {Base(id)});
      } else {
        CollectWithinLimit(master[1..], slave, bases, max, replayed);
      }
    }
  }

  // Beyond the generator's range the narrowing merges bases: 0 and 2^32 are one element of the set.
  lemma NarrowingCollides(base: nat)
    ensures NarrowToInt(base) == NarrowToInt(base + 0x1_0000_0000)
  {
  }

  lemma {:induction false} CollectIsCommon(master: seq<Id>, slave: seq<Id>, bases: set<int>, replayed: set<nat>)
    requires AllGenerated(master) && GeneratedBases(bases)
    ensures var c := Collect(master, slave, bases, INT_MAX, replayed);
            c.common == CommonIds(master, slave) && c.orphans == OrphanIds(master, slave)
    decreases |master|
  {
    if master != [] && slave != [] {
      GeneratedIdIsAccepted(bases, master[0]);
      if master[0] == slave[0] {
        CollectIsCommon(master[1..], slave[1..], LimitedInsert(bases, INT_MAX, master[0]),
                        replayed - {Base(master[0])});
        CommonStep(master, slave);
      } else {
        assert slave[0..] == slave;
        if master[0] in slave {
          assert FirstIndex(master[0], slave) > 0;
          assert master[..1] == [master[0]];
        }
      }
    }
  }

  // Dropping an equal head from both lists drops it from the common list and leaves the orphans alone.
  lemma CommonStep(master: seq<Id>, slave: seq<Id>)
    requires master != [] && slave != [] && master[0] == slave[0]
    ensures CommonIds(master, slave) == [master[0]] + CommonIds(master[1..], slave[1..])
    ensures OrphanIds(master, slave) == OrphanIds(master[1..], slave[1..])
  {
    var m, t := master[1..], slave[1..];
    var k := CommonPrefixLength(m, t);
    assert CommonPrefixLength(master, slave) == k + 1;
    assert slave[k + 1..] == t[k..];
    assert HasOrphans(master, slave) == HasOrphans(m, t);
    var n := if HasOrphans(m, t) then k + 1 else k;
    assert master[..n + 1] == [master[0]] + m[..n];
  }

  lemma RoomIsAccepted(bases: set<int>, max: I32, id: Id, rest: seq<Id>)
    requires |bases + NarrowedBases([id] + rest)| <= AsSize(max)
    ensures Accepts(bases, max, id)
    ensures |LimitedInsert(bases, max, id) + NarrowedBases(rest)| <= AsSize(max)
  {
    var b := NarrowToInt(Base(id));
    NarrowedCons(id, rest);
    hide NarrowToInt;
    var all := bases + NarrowedBases([id] + rest);
    hide NarrowedBases;
    assert bases <= all && bases + {b} <= all;
    SubsetSize(bases + {b}, all);
    if b !in bases {
      assert |bases + {b}| == |bases| + 1;
    }
    assert LimitedInsert(bases, max, id) + NarrowedBases(rest) == all;
  }

  /** Whatever the ids, a limit that leaves room for the bases of the common ids does not bite. */
  lemma {:induction false} CollectUnderLimit(master: seq<Id>, slave: seq<Id>, bases: set<int>, max: I32,
                                             replayed: set<nat>)
    requires |bases + NarrowedBases(CommonIds(master, slave))| <= AsSize(max)
    ensures var c := Collect(master, slave, bases, max, replayed);
            c.common == CommonIds(master, slave) && c.orphans == OrphanIds(master, slave)
    decreases |master|
  {
    hide NarrowedBases;
    hide LimitedInsert;
    hide Accepts;
    hide AsSize;
    if master != [] && slave != [] {
      var id := master[0];
      if id == slave[0] {
        CommonStep(master, slave);
        RoomIsAccepted(bases, max, id, CommonIds(master[1..], slave[1..]));
        CollectUnderLimit(master[1..], slave[1..], LimitedInsert(bases, max, id), max, replayed - {Base(id)});
        hide CommonIds;
        hide OrphanIds;
      } else {
        assert slave[0..] == slave;
        if id in slave {
          assert FirstIndex(id, slave) > 0;
          assert master[..1] == [id] && [id] + [] == [id];
          RoomIsAccepted(bases, max, id, []);
        }
      }
    }
  }

  /** Count equals content: the common ids are a prefix of the master's list, and the first |common| + |orphan| ids
      of the slave's list are the common and orphan ids in some order. */
  lemma CommonAndOrphansAreCounted(master: seq<Id>, slave: seq<Id>)
    ensures CommonIds(master, slave) <= master
    ensures |CommonIds(master, slave)| + |OrphanIds(master, slave)| == SlaveReach(master, slave) <= |slave|
    ensures multiset(CommonIds(master, slave) + OrphanIds(master, slave))
         == multiset(slave[..SlaveReach(master, slave)])
  {
    hide *;
    var k := CommonPrefixLength(master, slave);
    if HasOrphans(master, slave) {
      WithOrphans(master, slave);
      TakenUpTo(master, slave, k, FirstIndex(master[k], slave[k..]));
    } else {
      WithoutOrphans(master, slave);
      assert slave[..k] + [] == slave[..k];
    }
  }

  lemma WithOrphans(master: seq<Id>, slave: seq<Id>)
    requires HasOrphans(master, slave)
    ensures var k := CommonPrefixLength(master, slave);
            && k < |master| && k < |slave| && master[..k] == slave[..k]
            && var j := FirstIndex(master[k], slave[k..]);
               && k + j < |slave| && slave[k..][j] == master[k]
               && CommonIds(master, slave) == master[..k + 1] && OrphanIds(master, slave) == slave[k..][..j]
               && SlaveReach(master, slave) == k + j + 1
  {
    hide FirstIndex;
    hide CommonPrefixLength;
  }

  lemma WithoutOrphans(master: seq<Id>, slave: seq<Id>)
    requires !HasOrphans(master, slave)
    ensures var k := CommonPrefixLength(master, slave);
            && CommonIds(master, slave) == master[..k] == slave[..k] && OrphanIds(master, slave) == []
            && SlaveReach(master, slave) == k
  {
    hide CommonPrefixLength;
  }

  lemma TakenUpTo(master: seq<Id>, slave: seq<Id>, k: nat, j: nat)
    requires k < |master| && k + j < |slave| && master[..k] == slave[..k] && slave[k..][j] == master[k]
    ensures multiset(master[..k + 1] + slave[k..][..j]) == multiset(slave[..k + j + 1])
  {
    assert slave[k..][..j] == slave[k..k + j];
    assert master[..k + 1] == slave[..k] + [slave[k + j]];
    SwapTail(slave, k, k + j);
  }

  lemma SwapTail(ids: seq<Id>, k: nat, n: nat)
    requires k <= n < |ids|
    ensures multiset(ids[..k] + [ids[n]] + ids[k..n]) == multiset(ids[..n + 1])
  {
    assert ids[..n + 1] == ids[..k] + ids[k..n] + [ids[n]];
  }

  // The common list is empty exactly when the master's first id is nowhere in the slave's list.
  lemma CommonEmptyIff(master: seq<Id>, slave: seq<Id>)
    ensures CommonIds(master, slave) == [] <==> master == [] || master[0] !in slave
    ensures CommonIds(master, slave) == [] ==> OrphanIds(master, slave) == []
  {
    var k := CommonPrefixLength(master, slave);
    assert slave[0..] == slave;
    if k > 0 {
      assert master[..k][0] == slave[..k][0];
    }
  }

  lemma {:induction false} CommonOfPrefix(master: seq<Id>, slave: seq<Id>)
    requires slave <= master
    ensures CommonIds(master, slave) == slave && OrphanIds(master, slave) == []
  {
    var k := CommonPrefixLength(master, slave);
    assert k == |slave|;
    assert slave[..k] == slave;
  }

  lemma CommonOfSelf(ids: seq<Id>)
    ensures CommonIds(ids, ids) == ids && OrphanIds(ids, ids) == []
  {
    CommonOfPrefix(ids, ids);
  }
}
