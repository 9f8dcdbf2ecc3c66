/** What the packet logger stores: for each base the versions received so far, in arrival order.
    Reconstruction overlays versions in version order; deletion refuses to drop part of a packet. */
module PacketStore {
  import opened PacketIds
  import opened WireTypes

  // The low five bits of an id.
  type VersionNumber = x: int | 0 <= x < 32

  datatype VersionData = VersionData(version: VersionNumber, offset: nat, data: seq<Byte>)

  type Packets = map<nat, seq<VersionData>>

  // The counter kept beside a vector of versions goes up with it and is a uint8_t.
  function Counter(ds: seq<VersionData>): nat { |ds| % 256 }

  function VersionsOf(packets: Packets, base: nat): seq<VersionData> {
    if base in packets then packets[base] else []
  }

  function AddVersion(packets: Packets, id: Id, offset: nat, data: seq<Byte>): Packets {
    packets[Base(id) := VersionsOf(packets, Base(id)) + [VersionData(Version(id), offset, data)]]
  }

  // ---------------------------------------------------------------- deletion

  predicate Deletable(packets: Packets, id: Id) {
    Base(id) in packets && Version(id) >= Counter(packets[Base(id)])
  }

  function Delete(packets: Packets, id: Id): Packets {
    if Deletable(packets, id) then packets - {Base(id)} else packets
  }

  function DeleteAll(packets: Packets, ids: seq<Id>): Packets {
    if ids == [] then packets else DeleteAll(Delete(packets, ids[0]), ids[1..])
  }

  /** A base goes exactly when one of the ids names a version no lower than the counter of its versions; every
      other entry stays as it was. */
  lemma {:induction false} DeleteAllRemoves(packets: Packets, ids: seq<Id>, b: nat)
    ensures b in DeleteAll(packets, ids) <==>
            b in packets && !exists i :: 0 <= i < |ids| && Base(ids[i]) == b && Version(ids[i]) >= Counter(packets[b])
    ensures b in DeleteAll(packets, ids) ==> b in packets && DeleteAll(packets, ids)[b] == packets[b]
  {
    if ids != [] {
      var next, rest := Delete(packets, ids[0]), ids[1..];
      DeleteAllRemoves(next, rest, b);
      if i :| 0 <= i < |rest| && b in packets && Base(rest[i]) == b && Version(rest[i]) >= Counter(packets[b]) {
        assert rest[i] == ids[i + 1];
      }
      if i :| 0 <= i < |ids| && b in packets && Base(ids[i]) == b && Version(ids[i]) >= Counter(packets[b]) {
        assert i > 0 ==> ids[i] == rest[i - 1];
      }
    }
  }

  lemma {:induction false} DeleteAllAppend(packets: Packets, ids: seq<Id>, more: seq<Id>)
    ensures DeleteAll(packets, ids + more) == DeleteAll(DeleteAll(packets, ids), more)
    decreases |ids|
  {
    if ids == [] {
      assert ids + more == more;
    } else {
      assert (ids + more)[1..] == ids[1..] + more;
      DeleteAllAppend(Delete(packets, ids[0]), ids[1..], more);
    }
  }

  // ---------------------------------------------------------------- reconstruction

  function Insert(d: VersionData, sorted: seq<VersionData>): seq<VersionData> {
    if sorted == [] || d.version < sorted[0].version then [d] + sorted else [sorted[0]] + Insert(d, sorted[1..])
  }

  // Stands for std::sort with the version comparator.
  function SortByVersion(ds: seq<VersionData>): seq<VersionData> {
    if ds == [] then [] else Insert(ds[|ds| - 1], SortByVersion(ds[..|ds| - 1]))
  }

  predicate Sorted(ds: seq<VersionData>) {
    forall i, j :: 0 <= i < j < |ds| ==> ds[i].version <= ds[j].version
  }

  lemma {:induction false} InsertKeeps(d: VersionData, ds: seq<VersionData>)
    ensures multiset(Insert(d, ds)) == multiset(ds) + multiset{d}
  {
    if ds != [] && d.version >= ds[0].version {
      InsertKeeps(d, ds[1..]);
      assert ds == [ds[0]] + ds[1..];
    }
  }

  lemma {:induction false} InsertSorts(d: VersionData, ds: seq<VersionData>)
    requires Sorted(ds)
    ensures Sorted(Insert(d, ds))
  {
    if ds != [] && d.version >= ds[0].version {
      var rest := ds[1..];
      InsertSorts(d, rest);
      forall i | 0 <= i < |Insert(d, rest)| ensures ds[0].version <= Insert(d, rest)[i].version {
        InsertedIsIn(d, rest, i);
      }
    }
  }

  lemma InsertedIsIn(d: VersionData, ds: seq<VersionData>, i: nat)
    requires i < |Insert(d, ds)|
    ensures Insert(d, ds)[i] == d || Insert(d, ds)[i] in ds
  {
    InsertKeeps(d, ds);
    assert Insert(d, ds)[i] in multiset(Insert(d, ds));
  }

  lemma {:induction false} SortSorts(ds: seq<VersionData>)
    ensures Sorted(SortByVersion(ds)) && multiset(SortByVersion(ds)) == multiset(ds)
  {
    if ds != [] {
      var front := ds[..|ds| - 1];
      SortSorts(front);
      InsertSorts(ds[|ds| - 1], SortByVersion(front));
      InsertKeeps(ds[|ds| - 1], SortByVersion(front));
      assert ds == front + [ds[|ds| - 1]];
    }
  }

  function Write(buf: seq<Byte>, d: VersionData): (r: seq<Byte>)
    requires d.offset + |d.data| <= |buf|
    ensures |r| == |buf|
  {
    buf[..d.offset] + d.data + buf[d.offset + |d.data|..]
  }

  predicate Fit(ds: seq<VersionData>, size: nat) {
    forall i :: 0 <= i < |ds| ==> ds[i].offset + |ds[i].data| <= size
  }

  function Overlay(buf: seq<Byte>, ds: seq<VersionData>): (r: seq<Byte>)
    requires Fit(ds, |buf|)
    ensures |r| == |buf|
  {
    if ds == [] then buf else Write(Overlay(buf, ds[..|ds| - 1]), ds[|ds| - 1])
  }

  // The versions a request for version v overlays, in overlay order.
  function Overlaid(ds: seq<VersionData>, v: nat): (r: seq<VersionData>) {
    var sorted := SortByVersion(ds);
    sorted[..if v < Counter(sorted) then v else Counter(sorted)]
  }

  lemma OverlaidIs(ds: seq<VersionData>, v: nat)
    ensures |SortByVersion(ds)| == |ds| && Counter(ds) <= |ds|
    ensures Overlaid(ds, v) == SortByVersion(ds)[..if v < Counter(ds) then v else Counter(ds)]
  {
    SortSorts(ds);
    hide SortByVersion;
    SameLength(ds, SortByVersion(ds));
  }

  lemma SameLength(ds: seq<VersionData>, sorted: seq<VersionData>)
    requires multiset(sorted) == multiset(ds)
    ensures |sorted| == |ds|
  {
    assert |sorted| == |multiset(sorted)| == |multiset(ds)| == |ds|;
  }

  predicate Covers(d: VersionData, p: nat) { d.offset <= p < d.offset + |d.data| }

  // Versions 1..n were each stored exactly once, in whatever order.
  predicate Complete(ds: seq<VersionData>) {
    && (forall i :: 0 <= i < |ds| ==> 1 <= ds[i].version <= |ds|)
    && (forall i, j :: 0 <= i < j < |ds| ==> ds[i].version != ds[j].version)
  }

  lemma {:induction false} SortedPlaces(ds: seq<VersionData>, sorted: seq<VersionData>, i: nat)
    requires Complete(ds) && Sorted(sorted) && multiset(sorted) == multiset(ds) && i < |sorted|
    ensures |sorted| == |ds| && sorted[i].version == i + 1
  {
    assert |multiset(sorted)| == |multiset(ds)|;
    StrictlySorted(ds, sorted);
    var low := 0;
    while low < i
      invariant 0 <= low <= i && sorted[low].version >= low + 1
    {
      low := low + 1;
    }
    var high := |sorted| - 1;
    while high > i
      invariant i <= high < |sorted| && sorted[high].version <= high + 1
    {
      high := high - 1;
    }
  }

  lemma StrictlySorted(ds: seq<VersionData>, sorted: seq<VersionData>)
    requires Complete(ds) && Sorted(sorted) && multiset(sorted) == multiset(ds)
    ensures forall i :: 0 <= i < |sorted| ==> 1 <= sorted[i].version <= |ds|
    ensures forall i, j :: 0 <= i < j < |sorted| ==> sorted[i].version < sorted[j].version
  {
    forall i | 0 <= i < |sorted| ensures 1 <= sorted[i].version <= |ds| {
      assert sorted[i] in multiset(sorted) && sorted[i] in ds;
    }
    forall i, j | 0 <= i < j < |sorted| ensures sorted[i].version < sorted[j].version {
      DistinctPositions(ds, sorted, i, j);
    }
  }

  lemma DistinctPositions(ds: seq<VersionData>, sorted: seq<VersionData>, i: nat, j: nat)
    requires Complete(ds) && multiset(sorted) == multiset(ds) && i < j < |sorted|
    ensures sorted[i].version != sorted[j].version
  {
    var a, b := sorted[i], sorted[j];
    var x := Position(ds, sorted, i);
    var y := Position(ds, sorted, j);
    if a == b {
      OccursTwice(sorted, i, j);
      OccursOnce(ds, x);
    }
  }

  lemma Position(ds: seq<VersionData>, sorted: seq<VersionData>, i: nat) returns (x: nat)
    requires multiset(sorted) == multiset(ds) && i < |sorted|
    ensures x < |ds| && ds[x] == sorted[i]
  {
    assert sorted[i] in multiset(sorted);
    assert sorted[i] in ds;
    x :| 0 <= x < |ds| && ds[x] == sorted[i];
  }

  lemma OccursTwice(ds: seq<VersionData>, i: nat, j: nat)
    requires i < j < |ds| && ds[i] == ds[j]
    ensures multiset(ds)[ds[i]] >= 2
  {
    assert ds == ds[..j] + ds[j..];
    assert ds[..j][i] == ds[i] && ds[j..][0] == ds[i];
  }

  lemma OccursOnce(ds: seq<VersionData>, x: nat)
    requires Complete(ds) && x < |ds|
    ensures multiset(ds)[ds[x]] == 1
  {
    assert ds == ds[..x] + [ds[x]] + ds[x + 1..];
    assert ds[x] !in ds[..x] && ds[x] !in ds[x + 1..];
  }

  /** A sorting of a complete set of versions is unique, so the arrival order cannot show. */
  lemma ArrivalOrderDoesNotMatter(ds: seq<VersionData>, es: seq<VersionData>, v: nat)
    requires Complete(ds) && multiset(ds) == multiset(es)
    ensures Overlaid(ds, v) == Overlaid(es, v)
  {
    SortSorts(ds);
    SortSorts(es);
    OneSorting(ds, SortByVersion(ds), SortByVersion(es));
  }

  lemma OneSorting(ds: seq<VersionData>, a: seq<VersionData>, b: seq<VersionData>)
    requires Complete(ds) && Sorted(a) && Sorted(b) && multiset(a) == multiset(ds) && multiset(b) == multiset(ds)
    ensures a == b
  {
    assert |multiset(a)| == |multiset(b)|;
    forall i | 0 <= i < |a| ensures a[i] == b[i] {
      SamePlace(ds, a, b, i);
    }
  }

  lemma SamePlace(ds: seq<VersionData>, a: seq<VersionData>, b: seq<VersionData>, i: nat)
    requires Complete(ds) && Sorted(a) && Sorted(b) && multiset(a) == multiset(ds) && multiset(b) == multiset(ds)
    requires i < |a| && i < |b|
    ensures a[i] == b[i]
  {
    SortedPlaces(ds, a, i);
    SortedPlaces(ds, b, i);
    var x := Position(ds, a, i);
    var y := Position(ds, b, i);
    assert x == y;
  }

  lemma {:induction false} OverlayByte(buf: seq<Byte>, ds: seq<VersionData>, p: nat) returns (k: int)
    requires Fit(ds, |buf|) && p < |buf|
    ensures -1 <= k < |ds|
    ensures forall j :: k < j < |ds| ==> !Covers(ds[j], p)
    ensures k >= 0 ==> Covers(ds[k], p) && Overlay(buf, ds)[p] == ds[k].data[p - ds[k].offset]
    ensures k < 0 ==> Overlay(buf, ds)[p] == buf[p]
  {
    if ds == [] {
      k := -1;
    } else {
      var last, front := ds[|ds| - 1], ds[..|ds| - 1];
      if Covers(last, p) {
        k := |ds| - 1;
      } else {
        k := OverlayByte(buf, front, p);
      }
    }
  }

  // Position p of the packet rebuilt for version v carries the newest version up to v that covers it.
  ghost predicate NewestUpTo(buf: seq<Byte>, ds: seq<VersionData>, v: nat, p: nat, value: Byte)
    requires p < |buf|
  {
    if exists i :: 0 <= i < |ds| && ds[i].version <= v && Covers(ds[i], p) then
      exists i :: 0 <= i < |ds| && ds[i].version <= v && Covers(ds[i], p) && value == ds[i].data[p - ds[i].offset]
               && forall j :: 0 <= j < |ds| && ds[j].version <= v && Covers(ds[j], p) ==> ds[j].version <= ds[i].version
    else
      value == buf[p]
  }

  // The sorting of a complete set holds version i + 1 at place i.
  lemma SortedAre(ds: seq<VersionData>)
    requires Complete(ds)
    ensures var sorted := SortByVersion(ds);
            && |sorted| == |ds| == Counter(ds)
            && (forall i :: 0 <= i < |sorted| ==> sorted[i].version == i + 1 && sorted[i] in ds)
            && (forall d :: d in ds ==> d in sorted)
  {
    SortSorts(ds);
    hide SortByVersion;
    hide Sorted;
    hide Complete;
    var sorted := SortByVersion(ds);
    assert |sorted| == |multiset(sorted)| == |multiset(ds)| == |ds|;
    forall i | 0 <= i < |sorted| ensures sorted[i].version == i + 1 && sorted[i] in ds {
      SortedPlaces(ds, sorted, i);
      assert sorted[i] in multiset(sorted);
    }
    if sorted != [] {
      assert sorted[|sorted| - 1].version == |ds|;
    }
    forall d | d in ds ensures d in sorted {
      assert d in multiset(ds);
    }
  }

  lemma OverlaidAre(ds: seq<VersionData>, v: nat)
    requires Complete(ds)
    ensures |Overlaid(ds, v)| <= v
    ensures forall i :: 0 <= i < |Overlaid(ds, v)| ==> Overlaid(ds, v)[i].version == i + 1 && Overlaid(ds, v)[i] in ds
    ensures forall d :: d in ds && d.version <= v ==>
              1 <= d.version <= |Overlaid(ds, v)| && Overlaid(ds, v)[d.version - 1] == d
  {
    hide *;
    SortedAre(ds);
    OverlaidIs(ds, v);
    var sorted, used := SortByVersion(ds), Overlaid(ds, v);
    forall d | d in ds && d.version <= v ensures 1 <= d.version <= |used| && used[d.version - 1] == d {
      assert d in sorted;
    }
  }

  /** Every byte of the rebuilt packet comes from the highest version up to the requested one that covers it. */
  lemma RebuiltByte(buf: seq<Byte>, ds: seq<VersionData>, v: nat, p: nat)
    requires Complete(ds) && Fit(ds, |buf|) && p < |buf|
    ensures Fit(Overlaid(ds, v), |buf|)
    ensures NewestUpTo(buf, ds, v, p, Overlay(buf, Overlaid(ds, v))[p])
  {
    var used := Overlaid(ds, v);
    OverlaidAre(ds, v);
    OverlaidFits(ds, v, |buf|);
    var k := OverlayByte(buf, used, p);
    LastIsNewest(buf, ds, used, v, p, k, Overlay(buf, used)[p]);
  }

  lemma LastIsNewest(buf: seq<Byte>, ds: seq<VersionData>, used: seq<VersionData>, v: nat, p: nat, k: int, value: Byte)
    requires p < |buf| && |used| <= v && -1 <= k < |used|
    requires forall i :: 0 <= i < |used| ==> used[i].version == i + 1 && used[i] in ds
    requires forall d :: d in ds && d.version <= v ==> 1 <= d.version <= |used| && used[d.version - 1] == d
    requires forall j :: k < j < |used| ==> !Covers(used[j], p)
    requires k >= 0 ==> Covers(used[k], p) && value == used[k].data[p - used[k].offset]
    requires k < 0 ==> value == buf[p]
    ensures NewestUpTo(buf, ds, v, p, value)
  {
    forall j | 0 <= j < |ds| && ds[j].version <= v && Covers(ds[j], p) ensures ds[j].version <= k + 1 {
      assert ds[j] in ds && used[ds[j].version - 1] == ds[j];
    }
    if k >= 0 {
      var i :| 0 <= i < |ds| && ds[i] == used[k];
      assert ds[i].version <= v;
    }
  }

  lemma OverlaidFits(ds: seq<VersionData>, v: nat, size: nat)
    requires Fit(ds, size)
    ensures Fit(Overlaid(ds, v), size)
  {
    hide SortByVersion;
    SortSorts(ds);
    OverlaidIs(ds, v);
    hide Overlaid;
    var sorted := SortByVersion(ds);
    forall i | 0 <= i < |sorted| ensures sorted[i].offset + |sorted[i].data| <= size {
      assert sorted[i] in multiset(sorted) && sorted[i] in ds;
    }
  }

  // ---- from the store requests to the rebuilt packet

  datatype StoreRequest = StoreRequest(id: Id, offset: nat, data: seq<Byte>)

  // What was sent for a base, in order.
  function SentFor(requests: seq<StoreRequest>, b: nat): seq<VersionData> {
    if requests == [] then []
    else
      var last := requests[|requests| - 1];
      SentFor(requests[..|requests| - 1], b)
      + if Base(last.id) == b then [VersionData(Version(last.id), last.offset, last.data)] else []
  }

  // The logger holds for each base what was sent for it, and nothing else.
  ghost predicate HoldsAll(packets: Packets, requests: seq<StoreRequest>) {
    forall b: nat {:trigger SentFor(requests, b)} ::
      && VersionsOf(packets, b) == SentFor(requests, b)
      && (b in packets <==> SentFor(requests, b) != [])
  }

  lemma {:induction false} SentAre(requests: seq<StoreRequest>, b: nat, d: VersionData)
    ensures d in SentFor(requests, b)
            <==> exists i :: && 0 <= i < |requests| && Base(requests[i].id) == b
                             && d == VersionData(Version(requests[i].id), requests[i].offset, requests[i].data)
  {
    if requests != [] {
      var n := |requests| - 1;
      SentAre(requests[..n], b, d);
      hide SentFor;
      hide Base;
      hide Version;
      if i :| 0 <= i < n && Base(requests[..n][i].id) == b
              && d == VersionData(Version(requests[..n][i].id), requests[..n][i].offset, requests[..n][i].data) {
        assert requests[i] == requests[..n][i];
      }
    }
  }

  lemma OneMoreHeld(before: Packets, after: Packets, requests: seq<StoreRequest>, r: StoreRequest)
    requires HoldsAll(before, requests)
    requires VersionsOf(after, Base(r.id))
          == VersionsOf(before, Base(r.id)) + [VersionData(Version(r.id), r.offset, r.data)]
    requires forall b :: b != Base(r.id) ==>
               (b in after <==> b in before) && VersionsOf(after, b) == VersionsOf(before, b)
    ensures HoldsAll(after, requests + [r])
  {
    var all := requests + [r];
    assert all[..|requests|] == requests;
    forall b: nat
      ensures VersionsOf(after, b) == SentFor(all, b) && (b in after <==> SentFor(all, b) != [])
    {
      assert VersionsOf(before, b) == SentFor(requests, b);
    }
  }

  // Request i covers byte p of the packet rebuilt for version v of base b.
  predicate Reaches(requests: seq<StoreRequest>, i: nat, b: nat, v: nat, p: nat) {
    && i < |requests| && Base(requests[i].id) == b && Version(requests[i].id) <= v
    && requests[i].offset <= p < requests[i].offset + |requests[i].data|
  }

  // The byte that was sent there last by version, or what was there when none was sent.
  ghost predicate ComesFromNewest(requests: seq<StoreRequest>, b: nat, v: nat, p: nat, before: Byte, value: Byte) {
    if exists i: nat :: Reaches(requests, i, b, v, p) then
      exists i: nat :: && Reaches(requests, i, b, v, p) && value == requests[i].data[p - requests[i].offset]
                       && forall j: nat :: Reaches(requests, j, b, v, p) ==>
                            Version(requests[j].id) <= Version(requests[i].id)
    else
      value == before
  }

  lemma SentCovers(requests: seq<StoreRequest>, b: nat, v: nat, p: nat, k: nat) returns (i: nat)
    requires k < |SentFor(requests, b)| && SentFor(requests, b)[k].version <= v && Covers(SentFor(requests, b)[k], p)
    ensures Reaches(requests, i, b, v, p) && Version(requests[i].id) == SentFor(requests, b)[k].version
    ensures requests[i].data == SentFor(requests, b)[k].data && requests[i].offset == SentFor(requests, b)[k].offset
  {
    var d := SentFor(requests, b)[k];
    SentAre(requests, b, d);
    i :| 0 <= i < |requests| && Base(requests[i].id) == b
         && d == VersionData(Version(requests[i].id), requests[i].offset, requests[i].data);
  }

  lemma ReachesSent(requests: seq<StoreRequest>, b: nat, v: nat, p: nat, i: nat) returns (k: nat)
    requires Reaches(requests, i, b, v, p)
    ensures k < |SentFor(requests, b)| && Covers(SentFor(requests, b)[k], p)
    ensures SentFor(requests, b)[k].version == Version(requests[i].id) <= v
  {
    var d := VersionData(Version(requests[i].id), requests[i].offset, requests[i].data);
    SentAre(requests, b, d);
    k :| 0 <= k < |SentFor(requests, b)| && SentFor(requests, b)[k] == d;
  }

  // What the newest stored version says of a byte is what the newest request does.
  lemma NewestSent(requests: seq<StoreRequest>, b: nat, v: nat, p: nat, buf: seq<Byte>, value: Byte)
    requires p < |buf| && NewestUpTo(buf, SentFor(requests, b), v, p, value)
    ensures ComesFromNewest(requests, b, v, p, buf[p], value)
  {
    var ds := SentFor(requests, b);
    hide SentFor;
    if i: nat :| Reaches(requests, i, b, v, p) {
      var k := ReachesSent(requests, b, v, p, i);
    }
    if k :| 0 <= k < |ds| && ds[k].version <= v && Covers(ds[k], p) && value == ds[k].data[p - ds[k].offset]
            && (forall j :: 0 <= j < |ds| && ds[j].version <= v && Covers(ds[j], p) ==>
                  ds[j].version <= ds[k].version) {
      var i := SentCovers(requests, b, v, p, k);
      forall j: nat | Reaches(requests, j, b, v, p) ensures Version(requests[j].id) <= Version(requests[i].id) {
        var l := ReachesSent(requests, b, v, p, j);
      }
    }
  }

  /** If versions 1 to n of a packet were sent once each, in whatever order and mixed with other packets, then every
      byte of the packet rebuilt for version v is that of the highest version up to v that was sent for it. */
  lemma SentIsRebuilt(requests: seq<StoreRequest>, b: nat, v: nat, buf: seq<Byte>, p: nat)
    requires Complete(SentFor(requests, b)) && Fit(SentFor(requests, b), |buf|) && p < |buf|
    ensures Fit(Overlaid(SentFor(requests, b), v), |buf|)
    ensures ComesFromNewest(requests, b, v, p, buf[p], Overlay(buf, Overlaid(SentFor(requests, b), v))[p])
  {
    hide *;
    RebuiltByte(buf, SentFor(requests, b), v, p);
    NewestSent(requests, b, v, p, buf, Overlay(buf, Overlaid(SentFor(requests, b), v))[p]);
  }

  // ---- when versions are missing

  // How many of the stored versions are at most v.
  function CountUpTo(ds: seq<VersionData>, v: nat): (n: nat)
    ensures n <= |ds|
  {
    if ds == [] then 0 else (if ds[0].version <= v then 1 else 0) + CountUpTo(ds[1..], v)
  }

  lemma {:induction false} CountOfInsert(d: VersionData, ds: seq<VersionData>, v: nat)
    ensures CountUpTo(Insert(d, ds), v) == CountUpTo([d], v) + CountUpTo(ds, v)
  {
    if ds != [] && d.version >= ds[0].version {
      CountOfInsert(d, ds[1..], v);
    }
  }

  lemma {:induction false} CountOfAppend(ds: seq<VersionData>, d: VersionData, v: nat)
    ensures CountUpTo(ds + [d], v) == CountUpTo(ds, v) + CountUpTo([d], v)
  {
    if ds == [] {
      assert ds + [d] == [d];
    } else {
      assert (ds + [d])[1..] == ds[1..] + [d];
      CountOfAppend(ds[1..], d, v);
    }
  }

  lemma {:induction false} CountOfSort(ds: seq<VersionData>, v: nat)
    ensures CountUpTo(SortByVersion(ds), v) == CountUpTo(ds, v)
  {
    hide CountUpTo;
    if ds != [] {
      var front, d := ds[..|ds| - 1], ds[|ds| - 1];
      CountOfSort(front, v);
      CountOfInsert(d, SortByVersion(front), v);
      CountOfAppend(front, d, v);
      assert ds == front + [d];
    }
  }

  lemma {:induction false} CountOfSorted(ds: seq<VersionData>, v: nat, i: nat)
    requires Sorted(ds) && i < |ds|
    ensures ds[i].version <= v <==> i < CountUpTo(ds, v)
  {
    var rest := ds[1..];
    if i > 0 {
      CountOfSorted(rest, v, i - 1);
    } else if rest != [] {
      CountOfSorted(rest, v, 0);
    }
  }

  /** A request mixes in no version newer than the one asked for exactly when enough versions up to it are stored: as
      many as its number says, or as the counter does. */
  lemma NoNewerVersionIff(ds: seq<VersionData>, v: nat)
    ensures (forall i :: 0 <= i < |Overlaid(ds, v)| ==> Overlaid(ds, v)[i].version <= v)
            <==> CountUpTo(ds, v) >= v || CountUpTo(ds, v) >= Counter(ds)
  {
    hide *;
    SortSorts(ds);
    CountOfSort(ds, v);
    OverlaidIs(ds, v);
    PrefixUpToIff(SortByVersion(ds), v, if v < Counter(ds) then v else Counter(ds));
  }

  lemma PrefixUpToIff(sorted: seq<VersionData>, v: nat, n: nat)
    requires Sorted(sorted) && n <= |sorted|
    ensures (forall i :: 0 <= i < n ==> sorted[i].version <= v) <==> n <= CountUpTo(sorted, v)
  {
    forall i | 0 <= i < |sorted| ensures sorted[i].version <= v <==> i < CountUpTo(sorted, v) {
      CountOfSorted(sorted, v, i);
    }
    hide *;
    if CountUpTo(sorted, v) < n {
      assert sorted[CountUpTo(sorted, v)].version > v;
    }
  }

  /** Versions 1 and 3 of a packet were stored and version 2 was not: asked for version 2, the logger answers with the
      data of version 3. */
  lemma VersionGapMixesNewer(base: nat, old_: Byte, new_: Byte, buf: seq<Byte>)
    requires base < 0x800_0000_0000_0000 && |buf| == 1
    ensures var stored := AddVersion(AddVersion(map[], 32 * base + 1, 0, [old_]), 32 * base + 3, 0, [new_]);
            && base in stored && CountUpTo(stored[base], 2) == 1
            && Fit(Overlaid(stored[base], 2), 1) && Overlay(buf, Overlaid(stored[base], 2)) == [new_]
  {
    hide *;
    StoredPair(base, old_, new_);
    GapOverlay(VersionData(1, 0, [old_]), VersionData(3, 0, [new_]), new_, buf);
  }

  lemma StoredPair(base: nat, old_: Byte, new_: Byte)
    requires base < 0x800_0000_0000_0000
    ensures var stored := AddVersion(AddVersion(map[], 32 * base + 1, 0, [old_]), 32 * base + 3, 0, [new_]);
            base in stored && stored[base] == [VersionData(1, 0, [old_]), VersionData(3, 0, [new_])]
  {
    assert Base(32 * base + 1) == base == Base(32 * base + 3);
    assert Version(32 * base + 1) == 1 && Version(32 * base + 3) == 3;
    hide Base;
    hide Version;
  }

  lemma GapOverlay(d: VersionData, e: VersionData, value: Byte, buf: seq<Byte>)
    requires d.version == 1 && e.version == 3 && d.offset == e.offset == 0 && |d.data| == 1 && e.data == [value]
    requires |buf| == 1
    ensures CountUpTo([d, e], 2) == 1
    ensures Fit(Overlaid([d, e], 2), 1) && Overlay(buf, Overlaid([d, e], 2)) == [value]
  {
    SortedPair(d, e);
    assert [d, e][1..] == [e] && [e][1..] == [];
    OverlaidPair(d, e);
    hide SortByVersion;
    hide Overlaid;
    OverlayPair(d, e, buf);
    hide Overlay;
    assert Write(Write(buf, d), e) == [value];
  }

  lemma OverlaidPair(d: VersionData, e: VersionData)
    requires SortByVersion([d, e]) == [d, e]
    ensures Overlaid([d, e], 2) == [d, e]
  {
  }

  lemma OverlayPair(d: VersionData, e: VersionData, buf: seq<Byte>)
    requires Fit([d, e], |buf|)
    ensures d.offset + |d.data| <= |buf| && e.offset + |e.data| <= |buf|
    ensures Overlay(buf, [d, e]) == Write(Write(buf, d), e)
  {
    hide Write;
    var none: seq<VersionData> := [];
    assert [d, e][0] == d && [d, e][1] == e;
    OverlayLast(buf, none, d);
    assert none + [d] == [d];
    OverlayLast(buf, [d], e);
    assert [d] + [e] == [d, e];
    hide Overlay;
  }

  lemma OverlayLast(buf: seq<Byte>, ds: seq<VersionData>, d: VersionData)
    requires Fit(ds, |buf|) && d.offset + |d.data| <= |buf|
    ensures Fit(ds + [d], |buf|) && Overlay(buf, ds + [d]) == Write(Overlay(buf, ds), d)
  {
    hide Write;
    assert (ds + [d])[..|ds|] == ds;
  }

  lemma SortedPair(d: VersionData, e: VersionData)
    requires d.version < e.version
    ensures SortByVersion([d, e]) == [d, e]
  {
    assert [d, e][..1] == [d] && [d][..0] == [];
    assert SortByVersion([d]) == Insert(d, []) == [d];
    assert Insert(e, [d]) == [d] + Insert(e, [d][1..]);
  }

  // ---------------------------------------------------------------- reported length

  function Max(a: nat, b: nat): nat { if a < b then b else a }

  function ReportedLength(ds: seq<VersionData>): nat {
    if ds == [] then 0 else Max(ReportedLength(ds[..|ds| - 1]), |ds[|ds| - 1].data|)
  }

  // One past the last byte written.
  function Extent(ds: seq<VersionData>): nat {
    if ds == [] then 0 else Max(Extent(ds[..|ds| - 1]), ds[|ds| - 1].offset + |ds[|ds| - 1].data|)
  }

  /** The reported length never exceeds what was written, and equals it exactly when some version starts at
      offset 0 and reaches the end. */
  lemma {:induction false} ReportedLengthExact(ds: seq<VersionData>)
    ensures ReportedLength(ds) <= Extent(ds)
    ensures ds != [] ==>
              (ReportedLength(ds) == Extent(ds) <==>
               exists i :: 0 <= i < |ds| && ds[i].offset == 0 && |ds[i].data| == Extent(ds))
  {
    if ds != [] {
      LengthBounds(ds);
    }
  }

  lemma {:induction false} LengthBounds(ds: seq<VersionData>)
    requires ds != []
    ensures forall i :: 0 <= i < |ds| ==>
              |ds[i].data| <= ReportedLength(ds) && ds[i].offset + |ds[i].data| <= Extent(ds)
    ensures exists i :: 0 <= i < |ds| && |ds[i].data| == ReportedLength(ds)
    ensures ReportedLength(ds) <= Extent(ds)
  {
    var n := |ds| - 1;
    if n == 0 {
      assert ds[..n] == [] && |ds[0].data| == ReportedLength(ds);
    } else {
      var front := ds[..n];
      LengthBounds(front);
      var i :| 0 <= i < |front| && |front[i].data| == ReportedLength(front);
      assert |ds[i].data| == ReportedLength(ds) || |ds[n].data| == ReportedLength(ds);
      forall j | 0 <= j < |ds|
        ensures |ds[j].data| <= ReportedLength(ds) && ds[j].offset + |ds[j].data| <= Extent(ds)
      {
        assert j < n ==> ds[j] == front[j];
      }
    }
  }

  // In particular when every offset is 0, which is all that the two senders ever store.
  lemma ZeroOffsetsReportExtent(ds: seq<VersionData>)
    requires forall i :: 0 <= i < |ds| ==> ds[i].offset == 0
    ensures ReportedLength(ds) == Extent(ds)
  {
  }
}
