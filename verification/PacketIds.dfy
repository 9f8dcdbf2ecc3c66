/** Packet identifiers: the 31 high-order bits that name a packet (its base) followed by the
    5 low-order bits that name a version of it. */
module PacketIds {
  import opened WireTypes

  type Id = U64

  // Producers are numbered 1..6 and sequence numbers have 28 bits, so a generated id is below 7 * 2^33.
  const GENERATED_BASES := 7 * 0x1000_0000

  function Base(id: Id): nat { id / 32 }

  function Version(id: Id): nat { id % 32 }

  predicate Generated(id: Id) { Base(id) < GENERATED_BASES }

  predicate AllGenerated(ids: seq<Id>) { forall i :: 0 <= i < |ids| ==> Generated(ids[i]) }

  function BasesOf(ids: seq<Id>): set<nat> { set i | 0 <= i < |ids| :: Base(ids[i]) }

  predicate DistinctBases(ids: seq<Id>) {
    forall i, j :: 0 <= i < j < |ids| ==> Base(ids[i]) != Base(ids[j])
  }

  lemma BasesOfAppend(ids: seq<Id>, id: Id)
    ensures BasesOf(ids + [id]) == BasesOf(ids) + {Base(id)}
  {
    var all := ids + [id];
    forall b | b in BasesOf(ids) + {Base(id)} ensures b in BasesOf(all) {
      if b == Base(id) {
        assert all[|ids|] == id;
      } else {
        var i :| 0 <= i < |ids| && b == Base(ids[i]);
        assert all[i] == ids[i];
      }
    }
  }

  lemma BasesOfCons(id: Id, ids: seq<Id>)
    ensures BasesOf([id] + ids) == {Base(id)} + BasesOf(ids)
  {
    var all := [id] + ids;
    forall b | b in {Base(id)} + BasesOf(ids) ensures b in BasesOf(all) {
      if b == Base(id) {
        assert all[0] == id;
      } else {
        var i :| 0 <= i < |ids| && b == Base(ids[i]);
        assert all[i + 1] == ids[i];
      }
    }
  }
}
