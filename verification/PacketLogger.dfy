/** The packet logger server: one map from packet base to the versions stored for it, updated in place. */
module PacketLogger {
  import opened PacketIds
  import opened PacketStore
  import opened WireTypes

  class PacketLoggerServer {
    var packetsVersions: Packets

    constructor ()
      ensures packetsVersions == map[]
    {
      packetsVersions := map[];
    }

    method ProcessStoreRequest(id: Id, offset: nat, data: seq<Byte>)
      modifies this
      ensures packetsVersions == AddVersion(old(packetsVersions), id, offset, data)
      ensures VersionsOf(packetsVersions, Base(id))
           == old(VersionsOf(packetsVersions, Base(id))) + [VersionData(Version(id), offset, data)]
      ensures Base(id) in packetsVersions && packetsVersions - {Base(id)} == old(packetsVersions) - {Base(id)}
    {
      var base := Base(id);
      if base !in packetsVersions {
        packetsVersions := packetsVersions[base := []];
      }
      packetsVersions := packetsVersions[base := packetsVersions[base] + [VersionData(Version(id), offset, data)]];
    }

    /** Overlays the versions up to the requested one, in version order, onto the caller's buffer. */
    method GetPacket(id: Id, buf: array<Byte>) returns (found: bool, length: nat)
      requires Fit(Overlaid(VersionsOf(packetsVersions, Base(id)), Version(id)), buf.Length)
      modifies buf
      ensures found <==> Base(id) in packetsVersions
      ensures found ==>
                var used := Overlaid(packetsVersions[Base(id)], Version(id));
                Fit(used, buf.Length) && buf[..] == Overlay(old(buf[..]), used) && length == ReportedLength(used)
      ensures !found ==> buf[..] == old(buf[..]) && length == 0
    {
      length := 0;
      if Base(id) !in packetsVersions {
        return false, 0;
      }
      var versions := SortByVersion(packetsVersions[Base(id)]);
      var count := Counter(versions);
      if Version(id) < count {
        count := Version(id);
      }
      assert versions[..count] == Overlaid(packetsVersions[Base(id)], Version(id));
      length := CopyVersions(versions, count, buf);
      return true, length;
    }

    method CopyVersions(versions: seq<VersionData>, count: nat, buf: array<Byte>) returns (length: nat)
      requires count <= |versions| && Fit(versions[..count], buf.Length)
      modifies buf
      ensures buf[..] == Overlay(old(buf[..]), versions[..count])
      ensures length == ReportedLength(versions[..count])
    {
      ghost var before := buf[..];
      length := 0;
      var i := 0;
      while i < count
        invariant 0 <= i <= count
        invariant Fit(versions[..i], |before|) && buf[..] == Overlay(before, versions[..i])
        invariant length == ReportedLength(versions[..i])
      {
        var spvd := versions[i];
        assert versions[..i + 1][..i] == versions[..i];
        assert versions[..count][i] == spvd;
        CopyIn(buf, spvd);
        length := Max(length, |spvd.data|);
        i := i + 1;
      }
    }

    // memcpy(retVal + offset, data, size)
    method CopyIn(buf: array<Byte>, d: VersionData)
      requires d.offset + |d.data| <= buf.Length
      modifies buf
      ensures buf[..] == Write(old(buf[..]), d)
    {
      var i := 0;
      while i < |d.data|
        invariant 0 <= i <= |d.data|
        invariant forall p :: 0 <= p < buf.Length ==>
                    buf[p] == if d.offset <= p < d.offset + i then d.data[p - d.offset] else old(buf[..])[p]
      {
        buf[d.offset + i] := d.data[i];
        i := i + 1;
      }
    }

    /** Refuses, and changes nothing, exactly when the base's counter is above the id's version number. */
    method DeletePacket(id: Id) returns (ok: bool)
      modifies this
      ensures ok <==> old(Base(id) in packetsVersions ==> Counter(packetsVersions[Base(id)]) <= Version(id))
      ensures packetsVersions == Delete(old(packetsVersions), id)
    {
      if Base(id) !in packetsVersions {
        return true;
      }
      if Version(id) < Counter(packetsVersions[Base(id)]) {
        return false;
      }
      packetsVersions := packetsVersions - {Base(id)};
      return true;
    }

    method ProcessDeletePacketsRequest(ids: seq<Id>)
      modifies this
      ensures packetsVersions == DeleteAll(old(packetsVersions), ids)
    {
      var i := 0;
      assert ids[0..] == ids;
      while i < |ids|
        invariant 0 <= i <= |ids|
        invariant DeleteAll(packetsVersions, ids[i..]) == DeleteAll(old(packetsVersions), ids)
      {
        assert ids[i..][1..] == ids[i + 1..];
        var _ := DeletePacket(ids[i]);
        i := i + 1;
      }
    }

    /** After a list of store requests to an empty logger each base holds what was sent for it, in order. */
    method StoreAll(requests: seq<StoreRequest>)
      requires packetsVersions == map[]
      modifies this
      ensures HoldsAll(packetsVersions, requests)
    {
      var i := 0;
      while i < |requests|
        invariant 0 <= i <= |requests| && HoldsAll(packetsVersions, requests[..i])
      {
        ghost var before := packetsVersions;
        ProcessStoreRequest(requests[i].id, requests[i].offset, requests[i].data);
        Elsewhere(before, packetsVersions, Base(requests[i].id));
        OneMoreHeld(before, packetsVersions, requests[..i], requests[i]);
        assert requests[..i + 1] == requests[..i] + [requests[i]];
        i := i + 1;
      }
      assert requests[..i] == requests;
    }

    /** Stored in any order, a packet is rebuilt from what was sent for it. */
    method StoreAndGet(requests: seq<StoreRequest>, id: Id, buf: array<Byte>) returns (found: bool, length: nat)
      requires packetsVersions == map[]
      requires Complete(SentFor(requests, Base(id))) && Fit(SentFor(requests, Base(id)), buf.Length)
      modifies this, buf
      ensures found <==> exists i :: 0 <= i < |requests| && Base(requests[i].id) == Base(id)
      ensures forall p :: 0 <= p < buf.Length ==>
                ComesFromNewest(requests, Base(id), Version(id), p, old(buf[..])[p], buf[p])
    {
      StoreAll(requests);
      var b := Base(id);
      assert VersionsOf(packetsVersions, b) == SentFor(requests, b);
      OverlaidFits(SentFor(requests, b), Version(id), buf.Length);
      AnySent(requests, b);
      ghost var before := buf[..];
      found, length := GetPacket(id, buf);
      forall p | 0 <= p < buf.Length ensures ComesFromNewest(requests, b, Version(id), p, before[p], buf[p]) {
        SentIsRebuilt(requests, b, Version(id), before, p);
        NoneSent(requests, b, Version(id), p, before);
      }
    }
  }

  lemma Elsewhere(before: Packets, after: Packets, base: nat)
    requires after - {base} == before - {base}
    ensures forall b :: b != base ==> (b in after <==> b in before) && VersionsOf(after, b) == VersionsOf(before, b)
  {
    forall b | b != base ensures (b in after <==> b in before) && (b in after ==> after[b] == before[b]) {
      assert b in after <==> b in after - {base};
      assert b in before <==> b in before - {base};
    }
  }

  lemma AnySent(requests: seq<StoreRequest>, b: nat)
    ensures SentFor(requests, b) != [] <==> exists i :: 0 <= i < |requests| && Base(requests[i].id) == b
  {
    if SentFor(requests, b) != [] {
      SentAre(requests, b, SentFor(requests, b)[0]);
    }
    if i :| 0 <= i < |requests| && Base(requests[i].id) == b {
      SentAre(requests, b, VersionData(Version(requests[i].id), requests[i].offset, requests[i].data));
    }
  }

  // A packet of which nothing was sent leaves the buffer alone.
  lemma NoneSent(requests: seq<StoreRequest>, b: nat, v: nat, p: nat, buf: seq<Byte>)
    requires p < |buf|
    ensures SentFor(requests, b) == [] ==> ComesFromNewest(requests, b, v, p, buf[p], buf[p])
  {
    AnySent(requests, b);
  }
}
