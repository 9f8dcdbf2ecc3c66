/** The determinant logger: per middlebox, the ids processed so far in order, and the PALs recorded for each id. */
module DetLog {
  import opened PacketIds
  import opened WireTypes

  datatype PacketData = PacketData(gpals: seq<GPal>, spals: seq<SPal>)

  datatype ServerProgress = ServerProgress(packetIds: seq<Id>, index: nat)

  // ---------------------------------------------------------------- first versions

  // The log with every id dropped whose base occurred before.
  function FirstVersions(log: seq<Id>): seq<Id> {
    if log == [] then []
    else
      var front, last := log[..|log| - 1], log[|log| - 1];
      if Base(last) in BasesOf(front) then FirstVersions(front) else FirstVersions(front) + [last]
  }

  predicate FirstOfItsBase(log: seq<Id>, i: nat) {
    i < |log| && forall j :: 0 <= j < i ==> Base(log[j]) != Base(log[i])
  }

  // The positions picked out of a log, in order.
  ghost predicate Picks(log: seq<Id>, at: seq<nat>, ids: seq<Id>) {
    && |at| == |ids|
    && (forall k :: 0 <= k < |at| ==> at[k] < |log| && log[at[k]] == ids[k] && FirstOfItsBase(log, at[k]))
    && (forall k, l :: 0 <= k < l < |at| ==> at[k] < at[l])
    && (forall i :: FirstOfItsBase(log, i) ==> i in at)
  }

  lemma InBasesOf(ids: seq<Id>, i: nat)
    requires i < |ids|
    ensures Base(ids[i]) in BasesOf(ids)
  {
  }

  lemma LastIsFirstOfItsBase(log: seq<Id>)
    requires log != []
    ensures FirstOfItsBase(log, |log| - 1) <==> Base(log[|log| - 1]) !in BasesOf(log[..|log| - 1])
  {
    var front := log[..|log| - 1];
    forall j | 0 <= j < |front| ensures Base(log[j]) in BasesOf(front) {
      InBasesOf(front, j);
    }
  }

  lemma {:induction false} FirstVersionsPick(log: seq<Id>) returns (at: seq<nat>)
    ensures Picks(log, at, FirstVersions(log))
  {
    if log == [] {
      at := [];
    } else {
      var n := |log| - 1;
      var before := FirstVersionsPick(log[..n]);
      LastIsFirstOfItsBase(log);
      at := if FirstOfItsBase(log, n) then before + [n] else before;
      PickLast(log, before, FirstVersions(log[..n]));
    }
  }

  lemma PickLast(log: seq<Id>, at: seq<nat>, ids: seq<Id>)
    requires log != [] && Picks(log[..|log| - 1], at, ids)
    ensures var n := |log| - 1;
            if FirstOfItsBase(log, n) then Picks(log, at + [n], ids + [log[n]]) else Picks(log, at, ids)
  {
    var n := |log| - 1;
    var at' := if FirstOfItsBase(log, n) then at + [n] else at;
    forall i: nat | FirstOfItsBase(log, i) ensures i in at' {
      if i < n {
        assert FirstOfItsBase(log[..n], i);
      } else {
        assert at'[|at|] == n;
      }
    }
    forall k | 0 <= k < |at| ensures at[k] < n && FirstOfItsBase(log, at[k]) {
      assert FirstOfItsBase(log[..n], at[k]);
    }
  }

  /** The first-version query returns the first occurrence of each base, in log order, and nothing else. */
  lemma FirstVersionsAreFirstOccurrences(log: seq<Id>)
    ensures exists at :: Picks(log, at, FirstVersions(log))
    ensures DistinctBases(FirstVersions(log))
  {
    var at := FirstVersionsPick(log);
    var ids := FirstVersions(log);
    forall i, j | 0 <= i < j < |ids| ensures Base(ids[i]) != Base(ids[j]) {
      assert FirstOfItsBase(log, at[j]) && at[i] < at[j];
    }
  }

  // ---------------------------------------------------------------- the server

  function Min(a: nat, b: nat): nat { if a < b then a else b }

  // Deleting the first n ids of a log; n is cut down to the log's length.
  function DropFirst(log: seq<Id>, n: nat): seq<Id> { log[Min(n, |log|)..] }

  function TakeFirst(log: seq<Id>, n: nat): seq<Id> { log[..Min(n, |log|)] }

  function IdSet(ids: seq<Id>): set<Id> { set id | id in ids }

  // A store of an id with its PALs, or a deletion of the ids in front.
  datatype Event = StoreEvent(id: Id, gpals: seq<GPal>, spals: seq<SPal>) | DropEvent(ids: seq<Id>)

  // Every id ever stored for a middlebox, how many of them have been deleted, and all that happened, in order.
  datatype History = History(stored: seq<Id>, deleted: nat, events: seq<Event>)

  predicate Stores(e: Event, id: Id) { e.StoreEvent? && e.id == id }

  predicate Removes(e: Event, id: Id) { e.DropEvent? && id in e.ids }

  // What happened since the id was last removed.
  function Since(events: seq<Event>, id: Id): seq<Event> {
    if events == [] || Removes(events[|events| - 1], id) then []
    else Since(events[..|events| - 1], id) + [events[|events| - 1]]
  }

  // The PALs stored for an id, in store order.
  function GPalsFor(events: seq<Event>, id: Id): seq<GPal> {
    if events == [] then []
    else
      var last := events[|events| - 1];
      GPalsFor(events[..|events| - 1], id) + if Stores(last, id) then last.gpals else []
  }

  function SPalsFor(events: seq<Event>, id: Id): seq<SPal> {
    if events == [] then []
    else
      var last := events[|events| - 1];
      SPalsFor(events[..|events| - 1], id) + if Stores(last, id) then last.spals else []
  }

  function StoredIds(events: seq<Event>): seq<Id> {
    if events == [] then []
    else
      var last := events[|events| - 1];
      StoredIds(events[..|events| - 1]) + if last.StoreEvent? then [last.id] else []
  }

  function RemovedIds(events: seq<Event>): seq<Id> {
    if events == [] then []
    else
      var last := events[|events| - 1];
      RemovedIds(events[..|events| - 1]) + if last.DropEvent? then last.ids else []
  }

  predicate WasStored(events: seq<Event>, id: Id) { exists i :: 0 <= i < |events| && Stores(events[i], id) }

  // An id has a record exactly when it was stored since it was last removed, and the record holds all PALs of these
  // stores.
  predicate RecordIs(pals: PalRecords, events: seq<Event>, id: Id) {
    var since := Since(events, id);
    && (id in pals <==> WasStored(since, id))
    && (id in pals ==> pals[id] == PacketData(GPalsFor(since, id), SPalsFor(since, id)))
  }

  ghost predicate RecordsAre(pals: PalRecords, events: seq<Event>) {
    forall id {:trigger RecordIs(pals, events, id)} :: RecordIs(pals, events, id)
  }

  /** That is the part of the history behind the last removal. */
  lemma {:induction false} SinceIs(events: seq<Event>, id: Id) returns (n: nat)
    ensures n <= |events| && Since(events, id) == events[n..]
    ensures forall i :: n <= i < |events| ==> !Removes(events[i], id)
    ensures n > 0 ==> Removes(events[n - 1], id)
  {
    if events == [] {
      n := 0;
    } else if Removes(events[|events| - 1], id) {
      n := |events|;
    } else {
      var front := events[..|events| - 1];
      n := SinceIs(front, id);
      hide Removes;
      assert events[n..] == front[n..] + [events[|events| - 1]];
      forall i | n <= i < |events| ensures !Removes(events[i], id) {
        assert i < |front| ==> front[i] == events[i];
      }
    }
  }

  lemma StoreKeepsRecords(pals: PalRecords, events: seq<Event>, id: Id, gpals: seq<GPal>, spals: seq<SPal>)
    requires RecordsAre(pals, events)
    ensures RecordsAre(Recorded(pals, id, gpals, spals), events + [StoreEvent(id, gpals, spals)])
  {
    var e := StoreEvent(id, gpals, spals);
    forall other ensures RecordIs(Recorded(pals, id, gpals, spals), events + [e], other) {
      assert RecordIs(pals, events, other);
      StoreKeepsRecord(pals, events, e, other);
    }
  }

  lemma SinceSnoc(events: seq<Event>, e: Event, id: Id)
    ensures Since(events + [e], id) == if Removes(e, id) then [] else Since(events, id) + [e]
    ensures WasStored(events + [e], id) <==> WasStored(events, id) || Stores(e, id)
    ensures GPalsFor(events + [e], id) == GPalsFor(events, id) + if Stores(e, id) then e.gpals else []
    ensures SPalsFor(events + [e], id) == SPalsFor(events, id) + if Stores(e, id) then e.spals else []
  {
    var all := events + [e];
    assert all[..|all| - 1] == events && all[|events|] == e;
    if i :| 0 <= i < |events| && Stores(events[i], id) {
      assert Stores(all[i], id);
    }
    if i :| 0 <= i < |all| && Stores(all[i], id) {
      assert i < |events| ==> Stores(events[i], id);
    }
  }

  lemma StoreKeepsRecord(pals: PalRecords, events: seq<Event>, e: Event, other: Id)
    requires RecordIs(pals, events, other) && e.StoreEvent?
    ensures RecordIs(Recorded(pals, e.id, e.gpals, e.spals), events + [e], other)
  {
    var since := Since(events, other);
    SinceSnoc(events, e, other);
    SinceSnoc(since, e, other);
    if other !in pals {
      NothingStored(since, other);
    }
    hide Since;
    hide GPalsFor;
    hide SPalsFor;
    hide WasStored;
  }

  lemma {:induction false} NothingStored(events: seq<Event>, id: Id)
    requires !WasStored(events, id)
    ensures GPalsFor(events, id) == [] && SPalsFor(events, id) == []
  {
    if events != [] {
      NothingStored(events[..|events| - 1], id);
    }
  }

  lemma DropKeepsRecords(pals: PalRecords, events: seq<Event>, ids: seq<Id>)
    requires RecordsAre(pals, events)
    ensures RecordsAre(pals - IdSet(ids), events + [DropEvent(ids)])
  {
    forall id ensures RecordIs(pals - IdSet(ids), events + [DropEvent(ids)], id) {
      assert RecordIs(pals, events, id);
      DropKeepsRecord(pals, events, ids, id);
    }
  }

  lemma DropKeepsRecord(pals: PalRecords, events: seq<Event>, ids: seq<Id>, id: Id)
    requires RecordIs(pals, events, id)
    ensures RecordIs(pals - IdSet(ids), events + [DropEvent(ids)], id)
  {
    var e, since := DropEvent(ids), Since(events, id);
    SinceSnoc(events, e, id);
    SinceSnoc(since, e, id);
    hide Since;
    hide GPalsFor;
    hide SPalsFor;
    assert !Stores(e, id);
  }

  type PalRecords = map<Id, PacketData>

  function ProgressOf(progressData: map<MbId, ServerProgress>, mb: MbId): ServerProgress {
    if mb in progressData then progressData[mb] else ServerProgress([], 0)
  }

  function PalsOf(detData: map<MbId, PalRecords>, mb: MbId): PalRecords {
    if mb in detData then detData[mb] else map[]
  }

  function HistoryOf(histories: map<MbId, History>, mb: MbId): History {
    if mb in histories then histories[mb] else History([], 0, [])
  }

  // The PALs of one middlebox after more were recorded for an id.
  function Recorded(pals: PalRecords, id: Id, gpals: seq<GPal>, spals: seq<SPal>): PalRecords {
    var before := if id in pals then pals[id] else PacketData([], []);
    pals[id := PacketData(before.gpals + gpals, before.spals + spals)]
  }

  /** The index is the length of the vector and the number of stores minus deletes; the vector is what remains of
      all stores after deletions from the front; ids with PALs still occur in the vector, and have all PALs stored for
      them since they were last removed. */
  ghost predicate Consistent(spd: ServerProgress, history: History, pals: PalRecords) {
    && history.deleted <= |history.stored|
    && spd.packetIds == history.stored[history.deleted..]
    && spd.index == |spd.packetIds| == |history.stored| - history.deleted
    && (forall id :: id in pals ==> id in spd.packetIds)
    && history.stored == StoredIds(history.events)
    && RemovedIds(history.events) == history.stored[..history.deleted]
    && RecordsAre(pals, history.events)
  }

  ghost predicate AllConsistent(progress: map<MbId, ServerProgress>, histories: map<MbId, History>,
                                det: map<MbId, PalRecords>) {
    forall mb {:trigger Consistent(ProgressOf(progress, mb), HistoryOf(histories, mb), PalsOf(det, mb))} ::
      Consistent(ProgressOf(progress, mb), HistoryOf(histories, mb), PalsOf(det, mb))
  }

  function Stored(spd: ServerProgress, id: Id): ServerProgress {
    ServerProgress(spd.packetIds + [id], spd.index + 1)
  }

  lemma StoreKeepsConsistent(spd: ServerProgress, h: History, pals: PalRecords, id: Id, gpals: seq<GPal>,
                             spals: seq<SPal>)
    requires Consistent(spd, h, pals)
    ensures Consistent(Stored(spd, id), Extended(h, id, gpals, spals), Recorded(pals, id, gpals, spals))
  {
    hide RecordsAre;
    StoreKeepsRecords(pals, h.events, id, gpals, spals);
    OneMoreEvent(h.events, StoreEvent(id, gpals, spals));
    hide StoredIds;
    hide RemovedIds;
    assert (h.stored + [id])[..h.deleted] == h.stored[..h.deleted];
  }

  function Extended(h: History, id: Id, gpals: seq<GPal>, spals: seq<SPal>): History {
    History(h.stored + [id], h.deleted, h.events + [StoreEvent(id, gpals, spals)])
  }

  lemma StoreKeepsAll(progress: map<MbId, ServerProgress>, histories: map<MbId, History>, det: map<MbId, PalRecords>,
                      mb: MbId, id: Id, gpals: seq<GPal>, spals: seq<SPal>)
    requires AllConsistent(progress, histories, det)
    ensures AllConsistent(progress[mb := Stored(ProgressOf(progress, mb), id)],
                          histories[mb := Extended(HistoryOf(histories, mb), id, gpals, spals)],
                          det[mb := Recorded(PalsOf(det, mb), id, gpals, spals)])
  {
    var spd, h, pals := ProgressOf(progress, mb), HistoryOf(histories, mb), PalsOf(det, mb);
    hide Consistent;
    assert Consistent(spd, h, pals);
    StoreKeepsConsistent(spd, h, pals, id, gpals, spals);
    UpdateKeepsAll(progress, histories, det, mb, Stored(spd, id), Extended(h, id, gpals, spals),
                   Recorded(pals, id, gpals, spals));
  }

  lemma UpdateKeepsAll(progress: map<MbId, ServerProgress>, histories: map<MbId, History>, det: map<MbId, PalRecords>,
                       mb: MbId, spd: ServerProgress, h: History, pals: PalRecords)
    requires AllConsistent(progress, histories, det) && Consistent(spd, h, pals)
    ensures AllConsistent(progress[mb := spd], histories[mb := h], det[mb := pals])
  {
    OneChangeKeepsAll(progress, histories, det, mb, progress[mb := spd], histories[mb := h], det[mb := pals]);
  }

  function Dropped(spd: ServerProgress, n: nat): ServerProgress
    requires n <= |spd.packetIds| && n <= spd.index
  {
    ServerProgress(spd.packetIds[n..], spd.index - n)
  }

  lemma DropKeepsConsistent(spd: ServerProgress, h: History, pals: PalRecords, n: nat)
    requires Consistent(spd, h, pals) && n <= |spd.packetIds|
    ensures Consistent(Dropped(spd, n), Shortened(h, spd.packetIds[..n]), pals - IdSet(spd.packetIds[..n]))
  {
    hide RecordsAre;
    var ids := spd.packetIds[..n];
    assert spd.packetIds == ids + spd.packetIds[n..];
    DropKeepsRecords(pals, h.events, ids);
    OneMoreEvent(h.events, DropEvent(ids));
    StoredSplit(h.stored, h.deleted, n);
    hide StoredIds;
    hide RemovedIds;
    hide IdSet;
  }

  lemma StoredSplit(stored: seq<Id>, deleted: nat, n: nat)
    requires deleted + n <= |stored|
    ensures stored[..deleted + n] == stored[..deleted] + stored[deleted..][..n]
    ensures stored[deleted..][n..] == stored[deleted + n..]
  {
  }

  lemma OneMoreEvent(events: seq<Event>, e: Event)
    ensures StoredIds(events + [e]) == StoredIds(events) + if e.StoreEvent? then [e.id] else []
    ensures RemovedIds(events + [e]) == RemovedIds(events) + if e.DropEvent? then e.ids else []
  {
    assert (events + [e])[..|events|] == events;
  }

  function Shortened(h: History, ids: seq<Id>): History {
    History(h.stored, h.deleted + |ids|, h.events + [DropEvent(ids)])
  }

  // The detData map after some ids of one middlebox lost their PALs.
  function WithoutPals(det: map<MbId, PalRecords>, mb: MbId, ids: set<Id>): map<MbId, PalRecords> {
    if mb in det then det[mb := det[mb] - ids] else det
  }

  lemma DropKeepsAll(progress: map<MbId, ServerProgress>, histories: map<MbId, History>, det: map<MbId, PalRecords>,
                     mb: MbId, n: nat)
    requires AllConsistent(progress, histories, det)
    requires mb in progress && n <= |progress[mb].packetIds| == progress[mb].index
    ensures AllConsistent(progress[mb := Dropped(progress[mb], n)],
                          histories[mb := Shortened(HistoryOf(histories, mb), progress[mb].packetIds[..n])],
                          WithoutPals(det, mb, IdSet(progress[mb].packetIds[..n])))
  {
    hide Consistent;
    hide WithoutPals;
    hide IdSet;
    hide Dropped;
    hide Shortened;
    var spd, h, pals := ProgressOf(progress, mb), HistoryOf(histories, mb), PalsOf(det, mb);
    assert Consistent(spd, h, pals);
    DropKeepsConsistent(spd, h, pals, n);
    PalsWithout(det, mb, IdSet(spd.packetIds[..n]));
    OneChangeKeepsAll(progress, histories, det, mb, progress[mb := Dropped(spd, n)],
                      histories[mb := Shortened(h, spd.packetIds[..n])],
                      WithoutPals(det, mb, IdSet(spd.packetIds[..n])));
  }

  lemma PalsWithout(det: map<MbId, PalRecords>, mb: MbId, ids: set<Id>)
    ensures PalsOf(WithoutPals(det, mb, ids), mb) == PalsOf(det, mb) - ids
    ensures WithoutPals(det, mb, ids) - {mb} == det - {mb}
  {
  }

  lemma OneChangeKeepsAll(progress: map<MbId, ServerProgress>, histories: map<MbId, History>,
                          det: map<MbId, PalRecords>, mb: MbId, progress': map<MbId, ServerProgress>,
                          histories': map<MbId, History>, det': map<MbId, PalRecords>)
    requires AllConsistent(progress, histories, det)
    requires progress' - {mb} == progress - {mb} && histories' - {mb} == histories - {mb} && det' - {mb} == det - {mb}
    requires Consistent(ProgressOf(progress', mb), HistoryOf(histories', mb), PalsOf(det', mb))
    ensures AllConsistent(progress', histories', det')
  {
    forall m ensures Consistent(ProgressOf(progress', m), HistoryOf(histories', m), PalsOf(det', m)) {
      if m != mb {
        assert Consistent(ProgressOf(progress, m), HistoryOf(histories, m), PalsOf(det, m));
        SameWithout(progress, progress', mb, m);
        SameWithout(histories, histories', mb, m);
        SameWithout(det, det', mb, m);
      }
    }
  }

  lemma SameWithout<V>(a: map<MbId, V>, b: map<MbId, V>, mb: MbId, m: MbId)
    requires a - {mb} == b - {mb} && m != mb
    ensures m in a <==> m in b
    ensures m in a ==> a[m] == b[m]
  {
    assert m in a <==> m in a - {mb};
    assert m in b <==> m in b - {mb};
  }

  lemma IndexIsLength(progress: map<MbId, ServerProgress>, histories: map<MbId, History>, det: map<MbId, PalRecords>,
                      mb: MbId)
    requires AllConsistent(progress, histories, det)
    ensures ProgressOf(progress, mb).index == |ProgressOf(progress, mb).packetIds|
  {
    assert Consistent(ProgressOf(progress, mb), HistoryOf(histories, mb), PalsOf(det, mb));
  }

  class DetLoggerServer {
    var detData: map<MbId, PalRecords>
    var progressData: map<MbId, ServerProgress>
    ghost var histories: map<MbId, History>

    ghost predicate Valid()
      reads this
    {
      AllConsistent(progressData, histories, detData)
    }

    /** Of every middlebox and id the record holds the PALs of all stores since its last removal, in store order. */
    lemma RecordOf(mb: MbId, id: Id)
      requires Valid()
      ensures RecordIs(PalsOf(detData, mb), HistoryOf(histories, mb).events, id)
    {
      assert Consistent(ProgressOf(progressData, mb), HistoryOf(histories, mb), PalsOf(detData, mb));
    }

    ghost function Log(mb: MbId): seq<Id>
      reads this
    {
      ProgressOf(progressData, mb).packetIds
    }

    constructor ()
      ensures Valid() && detData == map[] && progressData == map[] && histories == map[]
    {
      detData, progressData, histories := map[], map[], map[];
    }

    method ProcessStoreRequest(mb: MbId, id: Id, gpals: seq<GPal>, spals: seq<SPal>)
      requires Valid()
      modifies this
      ensures Valid()
      ensures Log(mb) == old(Log(mb)) + [id]
      ensures progressData == old(progressData)[mb := Stored(ProgressOf(old(progressData), mb), id)]
      ensures detData == old(detData)[mb := Recorded(PalsOf(old(detData), mb), id, gpals, spals)]
      ensures histories == old(histories)[mb := Extended(HistoryOf(old(histories), mb), id, gpals, spals)]
      ensures HistoryOf(histories, mb).events
           == HistoryOf(old(histories), mb).events + [StoreEvent(id, gpals, spals)]
    {
      StoreKeepsAll(progressData, histories, detData, mb, id, gpals, spals);
      UpdatePacketData(mb, id, gpals, spals);
      AddPacketId(mb, id);
      histories := histories[mb := Extended(HistoryOf(histories, mb), id, gpals, spals)];
    }

    method UpdatePacketData(mb: MbId, id: Id, gpals: seq<GPal>, spals: seq<SPal>)
      modifies this`detData
      ensures detData == old(detData)[mb := Recorded(PalsOf(old(detData), mb), id, gpals, spals)]
    {
      var mbData: PalRecords := if mb in detData then detData[mb] else map[];
      if id !in mbData {
        mbData := mbData[id := PacketData([], [])];
      }
      var packetData := mbData[id];
      mbData := mbData[id := PacketData(packetData.gpals + gpals, packetData.spals + spals)];
      assert mbData == Recorded(PalsOf(detData, mb), id, gpals, spals);
      detData := detData[mb := mbData];
    }

    method AddPacketId(mb: MbId, id: Id)
      modifies this`progressData
      ensures progressData == old(progressData)[mb := Stored(ProgressOf(old(progressData), mb), id)]
    {
      if mb !in progressData {
        progressData := progressData[mb := ServerProgress([], 0)];
      }
      var spd := progressData[mb];
      progressData := progressData[mb := ServerProgress(spd.packetIds + [id], spd.index + 1)];
    }

    method GetProcessedPacketsForFirstVersion(mb: MbId) returns (ids: seq<Id>)
      requires Valid()
      ensures ids == FirstVersions(Log(mb))
    {
      ids := [];
      if mb !in progressData {
        return;
      }
      assert Consistent(ProgressOf(progressData, mb), HistoryOf(histories, mb), PalsOf(detData, mb));
      var packetIds := progressData[mb].packetIds;
      var processedBases: set<nat> := {};
      var i := 0;
      while i < progressData[mb].index
        invariant 0 <= i <= |packetIds|
        invariant processedBases == BasesOf(packetIds[..i])
        invariant ids == FirstVersions(packetIds[..i])
      {
        var upTo := packetIds[..i + 1];
        assert upTo[..i] == packetIds[..i];
        BasesOfAppend(packetIds[..i], packetIds[i]);
        assert upTo == packetIds[..i] + [packetIds[i]];
        if Base(packetIds[i]) !in processedBases {
          ids := ids + [packetIds[i]];
          processedBases := processedBases + {Base(packetIds[i])};
        }
        i := i + 1;
      }
      assert packetIds[..i] == packetIds;
    }

    method GetProcessedPacketsForAllVersions(mb: MbId) returns (ids: seq<Id>)
      requires Valid()
      ensures ids == Log(mb)
    {
      ids := [];
      if mb !in progressData {
        return;
      }
      assert Consistent(ProgressOf(progressData, mb), HistoryOf(histories, mb), PalsOf(detData, mb));
      var i := 0;
      while i < progressData[mb].index
        invariant 0 <= i <= progressData[mb].index
        invariant ids == progressData[mb].packetIds[..i]
      {
        ids := ids + [progressData[mb].packetIds[i]];
        i := i + 1;
      }
    }

    /** Drops the first n ids of one middlebox together with the PALs recorded for them. */
    method ProcessDeleteFirstPacketsRequest(mb: MbId, n: nat)
      requires Valid()
      modifies this
      ensures Valid()
      ensures Log(mb) == DropFirst(old(Log(mb)), n)
      ensures detData == WithoutPals(old(detData), mb, IdSet(TakeFirst(old(Log(mb)), n)))
      ensures HistoryOf(histories, mb).stored == HistoryOf(old(histories), mb).stored
      ensures progressData - {mb} == old(progressData) - {mb} && histories - {mb} == old(histories) - {mb}
      ensures mb in old(progressData) ==>
                var removed := old(Log(mb))[..if n < |old(Log(mb))| then n else |old(Log(mb))|];
                HistoryOf(histories, mb).events == HistoryOf(old(histories), mb).events + [DropEvent(removed)]
    {
      if mb !in progressData {
        assert IdSet(TakeFirst([], n)) == {};
        NothingToDrop(detData, mb);
        return;
      }
      IndexIsLength(progressData, histories, detData, mb);
      hide AllConsistent;
      hide WithoutPals;
      var total := n;
      if progressData[mb].index < total {
        total := progressData[mb].index;
      }
      EraseFirst(mb, total);
    }

    method EraseFirst(mb: MbId, total: nat)
      requires Valid() && mb in progressData && total <= progressData[mb].index == |progressData[mb].packetIds|
      modifies this
      ensures Valid()
      ensures progressData == old(progressData)[mb := Dropped(old(progressData)[mb], total)]
      ensures detData == WithoutPals(old(detData), mb, IdSet(old(progressData)[mb].packetIds[..total]))
      ensures histories
           == old(histories)[mb := Shortened(HistoryOf(old(histories), mb), old(progressData)[mb].packetIds[..total])]
    {
      DropKeepsAll(progressData, histories, detData, mb, total);
      var spd := progressData[mb];
      DeletePals(mb, spd.packetIds[..total]);
      progressData := progressData[mb := ServerProgress(spd.packetIds[total..], spd.index - total)];
      histories := histories[mb := Shortened(HistoryOf(histories, mb), spd.packetIds[..total])];
    }

    method DeletePals(mb: MbId, ids: seq<Id>)
      modifies this`detData
      ensures detData == WithoutPals(old(detData), mb, IdSet(ids))
    {
      if mb !in detData {
        return;
      }
      var mbData: PalRecords := detData[mb];
      var i := 0;
      while i < |ids|
        invariant 0 <= i <= |ids|
        invariant mbData == old(detData)[mb] - IdSet(ids[..i])
      {
        assert ids[..i + 1] == ids[..i] + [ids[i]];
        if ids[i] in mbData {
          mbData := mbData - {ids[i]};
        }
        i := i + 1;
      }
      assert ids[..i] == ids;
      detData := detData[mb := mbData];
    }
  }

  lemma NothingToDrop(det: map<MbId, PalRecords>, mb: MbId)
    ensures WithoutPals(det, mb, {}) == det
  {
    if mb in det {
      assert det[mb] - {} == det[mb];
    }
  }
}
