/** Packet ids on the wire: three vlan tags pushed behind the first tag of a frame, read back, and bumped in place. */
module TagStack {
  import opened PacketIds
  import opened Powers
  import opened SequenceGenerator
  import opened WireTypes

  type Frame = seq<Byte>

  // ETHERTYPE_8021Q, in network order.
  const PROTO_HI: Byte := 0x81
  const PROTO_LO: Byte := 0x00

  // A 16-bit number stored in network order.
  function Word(f: Frame, at: nat): nat
    requires at + 2 <= |f|
  {
    f[at] as int * 256 + f[at + 1]
  }

  predicate IsTag(f: Frame, at: nat)
    requires at + 4 <= |f|
  {
    f[at] == PROTO_HI && f[at + 1] == PROTO_LO
  }

  // ---------------------------------------------------------------- pushing

  function Tag(tci: nat): (f: Frame)
    ensures |f| == 4
  {
    [PROTO_HI, PROTO_LO, tci % 65536 / 256, tci % 256]
  }

  // The tag goes behind byte 15, that is behind a tag the frame already has; vlan id 0 is not pushed.
  function Pushed(f: Frame, tci: nat): Frame
    requires |f| >= 16
  {
    if tci % 4096 == 0 then f else f[..16] + Tag(tci) + f[16..]
  }

  function Stamped(f: Frame, inner: nat, middle: nat, outer: nat): Frame
    requires |f| >= 16
  {
    Pushed(Pushed(Pushed(f, inner), middle), outer)
  }

  // ---------------------------------------------------------------- reading

  function VlanByLevel(f: Frame, level: nat): nat
    requires level <= 3 ==> 4 * level + 16 <= |f|
  {
    if level > 3 then 0 else if IsTag(f, 4 * level + 12) then Word(f, 4 * level + 14) else 0
  }

  // The id read at a level offset; 0 when a tag is missing or zero.
  function WireId(f: Frame, offset: nat): nat
    requires forall level :: offset <= level <= offset + 2 && level <= 3 ==> 4 * level + 16 <= |f|
  {
    var inner, middle, outer := VlanByLevel(f, offset + 2), VlanByLevel(f, offset + 1), VlanByLevel(f, offset);
    if inner > 0 && middle > 0 && outer > 0 then Unified(inner, middle, outer) else 0
  }

  // ---------------------------------------------------------------- bumping

  // The bump always edits the tag at byte 16.
  function Bumped(f: Frame): Frame
    requires |f| >= 20
  {
    if IsTag(f, 16) then f[..16] + Tag(Word(f, 18) + 1) + f[20..] else f
  }

  function BumpedTimes(f: Frame, k: nat): (g: Frame)
    requires |f| >= 20
    ensures |g| == |f|
  {
    if k == 0 then f else Bumped(BumpedTimes(f, k - 1))
  }

  // ---------------------------------------------------------------- the packet

  class Packet {
    // The frame lies at the end of the buffer, behind some headroom.
    var buffer: array<Byte>
    var data: nat

    // PACKID_ANNO, 64 bits
    var packIdAnno: nat

    ghost predicate Valid()
      reads this
    {
      data <= buffer.Length
    }

    ghost function Frame(): Frame
      requires Valid()
      reads this, buffer
    {
      buffer[data..]
    }

    constructor (frame: seq<Byte>, headroom: nat)
      ensures Valid() && fresh(buffer) && Frame() == frame && data == headroom && packIdAnno == 0
    {
      buffer := new Byte[headroom + |frame|](i =>
        if headroom <= i < headroom + |frame| then frame[i - headroom] else 0);
      data, packIdAnno := headroom, 0;
      new;
      assert buffer[data..] == frame;
    }

    // Makes room in front of the frame. Its four new bytes hold anything.
    method Push(n: nat)
      requires Valid()
      modifies this
      ensures Valid() && n <= |Frame()| && Frame()[n..] == old(Frame()) && packIdAnno == old(packIdAnno)
      ensures fresh(buffer) || buffer == old(buffer)
    {
      if data < n {
        var from, was := buffer, data;
        var grown := new Byte[n + from.Length](i => 0);
        for i := 0 to from.Length
          modifies grown
          invariant forall j :: 0 <= j < i ==> grown[n + j] == from[j]
        {
          grown[n + i] := from[i];
        }
        buffer, data := grown, n + was;
        assert buffer[data..] == from[was..];
      }
      data := data - n;
      assert buffer[data..][n..] == buffer[data + n..];
    }

    /** Four bytes are added in front and 16 moved up, so the new tag takes bytes 16 to 19. */
    method PushVlanLayer(tci: nat)
      requires Valid() && |Frame()| >= 16
      modifies this, buffer
      ensures Valid() && Frame() == Pushed(old(Frame()), tci) && packIdAnno == old(packIdAnno)
      ensures fresh(buffer) || buffer == old(buffer)
      ensures tci % 4096 == 0 ==> Frame() == old(Frame())
      ensures tci % 4096 != 0 ==>
                && |Frame()| == |old(Frame())| + 4
                && Frame()[..16] == old(Frame())[..16] && Frame()[20..] == old(Frame())[16..]
                && Frame()[16] == 0x81 && Frame()[17] == 0x00
                && Frame()[18] as int * 256 + Frame()[19] == tci % 65536
    {
      PushedIs(Frame(), tci);
      if tci % 4096 == 0 {
        return;
      }
      ghost var f := Frame();
      Push(4);
      MoveUp();
      ghost var g := Frame();
      SetTag(tci);
      PushedParts(f, g, tci);
      hide Pushed;
      hide Tag;
    }

    // memmove of the 16 bytes that stand four bytes further on
    method MoveUp()
      requires Valid() && |Frame()| >= 20
      modifies buffer
      ensures Frame()[..16] == old(Frame())[4..20] && Frame()[16..] == old(Frame())[16..]
    {
      ghost var b := buffer[..];
      for k := 0 to 16
        invariant forall j :: data <= j < data + k ==> buffer[j] == b[j + 4]
        invariant forall j :: data + k <= j < buffer.Length ==> buffer[j] == b[j]
      {
        buffer[data + k] := buffer[data + k + 4];
      }
      MovedParts(b, buffer[..], data);
      assert Frame() == buffer[..][data..] && old(Frame()) == b[data..];
    }

    method SetTag(tci: nat)
      requires Valid() && |Frame()| >= 20
      modifies buffer
      ensures Frame() == old(Frame())[..16] + Tag(tci) + old(Frame())[20..]
    {
      buffer[data + 16], buffer[data + 17] := PROTO_HI, PROTO_LO;
      buffer[data + 18], buffer[data + 19] := tci % 65536 / 256, tci % 256;
    }

    /** Reads three tags and leaves the id in the annotation. */
    method SetIdFromWire(vlanLevelOffset: nat)
      requires Valid()
      requires forall level :: vlanLevelOffset <= level <= vlanLevelOffset + 2 && level <= 3 ==>
                4 * level + 16 <= |Frame()|
      modifies this`packIdAnno
      ensures Valid() && Frame() == old(Frame()) && packIdAnno == WireId(Frame(), vlanLevelOffset)
    {
      var innerLevel := vlanLevelOffset + 2;
      var innerVlan := ExtractVlanByLevel(innerLevel);
      var middleVlan := ExtractVlanByLevel(innerLevel - 1);
      var outerVlan := ExtractVlanByLevel(innerLevel - 2);
      packIdAnno := if innerVlan > 0 && middleVlan > 0 && outerVlan > 0
                    then Unified(innerVlan, middleVlan, outerVlan) else 0;
    }

    method ExtractVlanByLevel(level: nat) returns (tci: nat)
      requires Valid() && (level <= 3 ==> 4 * level + 16 <= |Frame()|)
      ensures tci == VlanByLevel(Frame(), level)
      ensures level > 3 ==> tci == 0
      ensures level <= 3 ==>
                var at := 12 + 4 * level;
                tci == if Frame()[at] == 0x81 && Frame()[at + 1] == 0x00
                       then Frame()[at + 2] as int * 256 + Frame()[at + 3] else 0
    {
      if level > 3 {
        return 0;
      }
      var at := data + 4 * level + 12;
      if buffer[at] == PROTO_HI && buffer[at + 1] == PROTO_LO {
        return buffer[at + 2] as int * 256 + buffer[at + 3];
      }
      return 0;
    }

    /** Adds one to the tag at byte 16, if there is one, and to the annotation in any case. */
    method IncreaseVersionNumber()
      requires Valid() && |Frame()| >= 20
      modifies this`packIdAnno, buffer
      ensures Valid() && Frame() == Bumped(old(Frame()))
      ensures old(Frame())[16] == 0x81 && old(Frame())[17] == 0x00 ==>
                && |Frame()| == |old(Frame())|
                && Frame()[..18] == old(Frame())[..18] && Frame()[20..] == old(Frame())[20..]
                && Frame()[18] as int * 256 + Frame()[19]
                   == (old(Frame())[18] as int * 256 + old(Frame())[19] + 1) % 65536
      ensures !(old(Frame())[16] == 0x81 && old(Frame())[17] == 0x00) ==> Frame() == old(Frame())
      ensures packIdAnno == (old(packIdAnno) + 1) % 0x1_0000_0000_0000_0000
    {
      BumpedIs(Frame());
      hide Tag;
      var at := data + 16;
      if buffer[at] == PROTO_HI && buffer[at + 1] == PROTO_LO {
        SetTag(buffer[at + 2] as int * 256 + buffer[at + 3] + 1);
      }
      packIdAnno := (packIdAnno + 1) % 0x1_0000_0000_0000_0000;
    }
  }

  lemma MovedParts(b: seq<Byte>, c: seq<Byte>, data: nat)
    requires data + 20 <= |b| == |c|
    requires forall j :: data <= j < data + 16 ==> c[j] == b[j + 4]
    requires forall j :: data + 16 <= j < |b| ==> c[j] == b[j]
    ensures c[data..][..16] == b[data..][4..20] && c[data..][16..] == b[data..][16..]
  {
    forall i | 0 <= i < 16 ensures c[data..][i] == b[data..][4 + i] {
      assert c[data + i] == b[data + i + 4];
    }
  }

  lemma BumpedIs(f: Frame)
    requires |f| >= 20
    ensures var g := Bumped(f);
            if f[16] == 0x81 && f[17] == 0x00 then
              && |g| == |f| && g[..18] == f[..18] && g[20..] == f[20..]
              && g[18] as int * 256 + g[19] == (f[18] as int * 256 + f[19] + 1) % 65536
            else g == f
  {
    var v := f[18] as int * 256 + f[19] + 1;
    TagWord(v);
    hide Word;
    assert IsTag(f, 16) ==> Word(f, 18) + 1 == v by {
      WordIs(f, 18);
    }
    if IsTag(f, 16) {
      assert f[..18] == f[..16] + f[16..18] && f[16..18] == [PROTO_HI, PROTO_LO];
    }
  }

  lemma WordIs(f: Frame, at: nat)
    requires at + 2 <= |f|
    ensures Word(f, at) == f[at] as int * 256 + f[at + 1]
  {
  }

  lemma TagWord(v: nat)
    ensures Tag(v)[0] == PROTO_HI && Tag(v)[1] == PROTO_LO
    ensures Tag(v)[2] as int * 256 + Tag(v)[3] == v % 65536
  {
    assert v % 65536 / 256 * 256 + v % 256 == v % 65536;
  }

  lemma PushedIs(f: Frame, tci: nat)
    requires |f| >= 16
    ensures var g := Pushed(f, tci);
            if tci % 4096 == 0 then g == f
            else
              && |g| == |f| + 4 && g[..16] == f[..16] && g[20..] == f[16..] && g[16] == 0x81 && g[17] == 0x00
              && g[18] as int * 256 + g[19] == tci % 65536
  {
    assert tci % 65536 / 256 * 256 + tci % 256 == tci % 65536;
  }

  lemma PushedParts(f: Frame, g: Frame, tci: nat)
    requires |f| >= 16 && |g| == |f| + 4 && g[..16] == f[..16] && g[16..] == f[12..] && tci % 4096 != 0
    ensures g[..16] + Tag(tci) + g[20..] == Pushed(f, tci)
  {
    assert g[20..] == g[16..][4..] == f[16..];
  }

  /** The encapsulating element takes the next id and stamps the frame with it, innermost tag first. */
  method Encapsulate(generator: PushPacketId, p: Packet)
    requires generator.Valid() && p.Valid() && |p.Frame()| >= 16
    modifies generator, p, p.buffer
    ensures generator.Valid() && generator.calls == old(generator.calls) + 1
    ensures p.Valid()
    ensures var v := Nth(old(generator.calls));
            && p.Frame() == Stamped(old(p.Frame()), InnerVlan(generator.producerId, v), MiddleVlan(v), OuterVlan(v))
            && p.packIdAnno == IdOf(generator.producerId, v)
  {
    var nextSeqNum := generator.GetNexSeqNum();
    var innerVlan := InnerVlan(generator.producerId, nextSeqNum);
    var middleVlan, outerVlan := MiddleVlan(nextSeqNum), OuterVlan(nextSeqNum);
    var unified := Unified(innerVlan, middleVlan, outerVlan);
    p.PushVlanLayer(innerVlan);
    p.PushVlanLayer(middleVlan);
    p.PushVlanLayer(outerVlan);
    p.packIdAnno := unified;
  }

  // ---------------------------------------------------------------- round trips

  // A frame with three tags behind its first 16 bytes.
  function Tagged(head: Frame, outer: nat, middle: nat, inner: nat, rest: Frame): (f: Frame)
    requires |head| == 16
    ensures |f| == 28 + |rest|
  {
    head + Tag(outer) + Tag(middle) + Tag(inner) + rest
  }

  lemma StampedIs(f: Frame, inner: nat, middle: nat, outer: nat)
    requires |f| >= 16 && 0 < inner < 4096 && 0 < middle < 4096 && 0 < outer < 4096
    ensures Stamped(f, inner, middle, outer) == Tagged(f[..16], outer, middle, inner, f[16..])
  {
    assert Pushed(f, inner) == f[..16] + Tag(inner) + f[16..];
    PushBehind(f[..16], Tag(inner) + f[16..], middle);
    PushBehind(f[..16], Tag(middle) + (Tag(inner) + f[16..]), outer);
    assert f[..16] + Tag(inner) + f[16..] == f[..16] + (Tag(inner) + f[16..]);
  }

  lemma PushBehind(head: Frame, rest: Frame, tci: nat)
    requires |head| == 16 && 0 < tci < 4096
    ensures Pushed(head + rest, tci) == head + (Tag(tci) + rest)
  {
    assert (head + rest)[..16] == head && (head + rest)[16..] == rest;
  }

  lemma TagHolds(f: Frame, at: nat, before: Frame, tci: nat, after: Frame)
    requires f == before + Tag(tci) + after && |before| == at
    ensures IsTag(f, at) && Word(f, at + 2) == tci % 65536
  {
    WordSplit(tci % 65536, tci);
    assert f[at + 2] == tci % 65536 / 256 && f[at + 3] == tci % 256;
  }

  lemma WordSplit(w: nat, tci: nat)
    requires w == tci % 65536
    ensures w / 256 * 256 + tci % 256 == w
  {
    assert tci == tci / 65536 * 65536 + w;
  }

  lemma TagsRead(head: Frame, outer: nat, middle: nat, inner: nat, rest: Frame)
    requires |head| == 16 && middle < 65536 && inner < 65536
    ensures var f := Tagged(head, outer, middle, inner, rest);
            && IsTag(f, 16) && Word(f, 18) == outer % 65536
            && VlanByLevel(f, 1) == outer % 65536 && VlanByLevel(f, 2) == middle && VlanByLevel(f, 3) == inner
  {
    hide Tag;
    hide IsTag;
    hide Word;
    var f := Tagged(head, outer, middle, inner, rest);
    assert f == head + Tag(outer) + (Tag(middle) + Tag(inner) + rest);
    TagHolds(f, 16, head, outer, Tag(middle) + Tag(inner) + rest);
    assert f == (head + Tag(outer)) + Tag(middle) + (Tag(inner) + rest);
    TagHolds(f, 20, head + Tag(outer), middle, Tag(inner) + rest);
    TagHolds(f, 24, head + Tag(outer) + Tag(middle), inner, rest);
  }

  function StampedWith(f: Frame, producerId: nat, seqNum: nat): Frame
    requires |f| >= 16
  {
    Stamped(f, InnerVlan(producerId, seqNum), MiddleVlan(seqNum), OuterVlan(seqNum))
  }

  /** A stamped frame is the frame with twelve bytes put in behind its first sixteen, and reading it at level offset 1
      gives the id back. */
  lemma StampThenRead(f: Frame, producerId: nat, seqNum: nat)
    requires |f| >= 16 && 1 <= producerId <= 6 && seqNum < MAX_SEQ_NUM && IsValidSeqNum(seqNum)
    ensures var g := StampedWith(f, producerId, seqNum);
            && |g| == |f| + 12 && g[..16] == f[..16] && g[28..] == f[16..]
            && WireId(g, 1) == IdOf(producerId, seqNum) == producerId * 0x2_0000_0000 + seqNum * 32 + 1
  {
    hide InnerVlan;
    hide MiddleVlan;
    hide OuterVlan;
    hide Unified;
    hide VlanByLevel;
    hide IsValidSeqNum;
    IdIsConcatenation(producerId, seqNum);
    var inner, middle, outer := InnerVlan(producerId, seqNum), MiddleVlan(seqNum), OuterVlan(seqNum);
    StampedIs(f, inner, middle, outer);
    TagsRead(f[..16], outer, middle, inner, f[16..]);
  }

  /** Read at any other offset the stamp is missed: from offset 2 on always, at offset 0 unless the frame had a tag. */
  lemma OtherOffsetsReadNothing(f: Frame, producerId: nat, seqNum: nat, offset: nat)
    requires |f| >= 16 && 1 <= producerId <= 6 && seqNum < MAX_SEQ_NUM && IsValidSeqNum(seqNum) && offset != 1
    requires offset == 0 ==> !IsTag(f, 12)
    ensures |StampedWith(f, producerId, seqNum)| == |f| + 12 && WireId(StampedWith(f, producerId, seqNum), offset) == 0
  {
    StampThenRead(f, producerId, seqNum);
    hide IsValidSeqNum;
    hide IdOf;
    hide Unified;
    hide StampedWith;
    var g := StampedWith(f, producerId, seqNum);
    assert g[12] == g[..16][12] == f[12] && g[13] == g[..16][13] == f[13];
  }

  // ---- bumps

  lemma BumpTagged(head: Frame, outer: nat, middle: nat, inner: nat, rest: Frame)
    requires |head| == 16 && middle < 65536 && inner < 65536
    ensures Bumped(Tagged(head, outer, middle, inner, rest)) == Tagged(head, outer + 1, middle, inner, rest)
  {
    TagsRead(head, outer, middle, inner, rest);
    SameTag(outer);
    hide VlanByLevel;
    hide IsTag;
    hide Tag;
    var f := Tagged(head, outer, middle, inner, rest);
    assert f[..16] == head && f[20..] == Tag(middle) + Tag(inner) + rest;
  }

  lemma SameTag(outer: nat)
    ensures Tag(outer % 65536 + 1) == Tag(outer + 1)
  {
    Shifted(outer / 65536, outer % 65536 + 1);
  }

  lemma Shifted(q: nat, x: nat)
    ensures (q * 65536 + x) % 65536 == x % 65536
    ensures (q * 65536 + x) % 256 == x % 256
  {
    SameWord(q * 65536 + x, q + x / 65536, x % 65536);
    SameByte(q * 65536 + x, q * 256 + x / 256, x % 256);
  }

  lemma SameWord(v: nat, q: nat, r: nat)
    requires v == 65536 * q + r && r < 65536
    ensures v % 65536 == r
  {
  }

  lemma SameByte(v: nat, q: nat, r: nat)
    requires v == 256 * q + r && r < 256
    ensures v % 256 == r
  {
  }

  lemma {:induction false} BumpsTagged(head: Frame, outer: nat, middle: nat, inner: nat, rest: Frame, k: nat)
    requires |head| == 16 && middle < 65536 && inner < 65536
    ensures BumpedTimes(Tagged(head, outer, middle, inner, rest), k) == Tagged(head, outer + k, middle, inner, rest)
  {
    hide Tagged;
    hide Bumped;
    if k > 0 {
      BumpsTagged(head, outer, middle, inner, rest, k - 1);
      BumpTagged(head, outer + k - 1, middle, inner, rest);
    }
  }

  /** Through 30 bumps, and no further, the frame carries the id that the annotation counts up to, with the base it was
      stamped with. Nothing but the tag at byte 16 changes on the way. */
  lemma BumpsAgreeIff(f: Frame, producerId: nat, seqNum: nat, k: nat)
    requires |f| >= 16 && 1 <= producerId <= 6 && seqNum < MAX_SEQ_NUM && IsValidSeqNum(seqNum)
    ensures |StampedWith(f, producerId, seqNum)| == |f| + 12
    ensures var id, g := IdOf(producerId, seqNum), BumpedTimes(StampedWith(f, producerId, seqNum), k);
            && (WireId(g, 1) == id + k && (id + k) / 32 == id / 32 <==> k <= 30)
            && (k <= 30 ==> id + k < 0x1_0000_0000_0000_0000)
            && (k <= 30 ==> g[..16] == f[..16] && g[20..] == StampedWith(f, producerId, seqNum)[20..])
  {
    StampThenRead(f, producerId, seqNum);
    hide IsValidSeqNum;
    hide IdOf;
    hide WireId;
    hide StampedWith;
    BaseThrough(producerId, seqNum, IdOf(producerId, seqNum), k);
    if k <= 30 {
      BumpedReads(f, producerId, seqNum, k);
    }
  }

  lemma BaseThrough(producerId: nat, seqNum: nat, id: nat, k: nat)
    requires producerId <= 6 && seqNum < MAX_SEQ_NUM && id == producerId * 0x2_0000_0000 + seqNum * 32 + 1
    ensures (id + k) / 32 == id / 32 <==> k <= 30
    ensures id + 30 < 0x1_0000_0000_0000_0000
  {
    var base := producerId * 0x1000_0000 + seqNum;
    assert id == base * 32 + 1;
  }

  lemma BumpedReads(f: Frame, producerId: nat, seqNum: nat, k: nat)
    requires |f| >= 16 && 1 <= producerId <= 6 && seqNum < MAX_SEQ_NUM && IsValidSeqNum(seqNum) && k <= 30
    ensures |StampedWith(f, producerId, seqNum)| == |f| + 12
    ensures var id, s := IdOf(producerId, seqNum), StampedWith(f, producerId, seqNum);
            var g := BumpedTimes(s, k);
            && WireId(g, 1) == id + k
            && VlanByLevel(g, 1) == OuterVlan(seqNum) + k
            && VlanByLevel(g, 2) == MiddleVlan(seqNum) && VlanByLevel(g, 3) == InnerVlan(producerId, seqNum)
            && g[..16] == f[..16] && g[20..] == s[20..]
  {
    hide *;
    var inner, middle, outer := InnerVlan(producerId, seqNum), MiddleVlan(seqNum), OuterVlan(seqNum);
    StampThenRead(f, producerId, seqNum);
    IdIsConcatenation(producerId, seqNum);
    StampedWithIs(f, producerId, seqNum);
    BumpsTagged(f[..16], outer, middle, inner, f[16..], k);
    TagsRead(f[..16], outer + k, middle, inner, f[16..]);
    TaggedReads(f[..16], outer + k, middle, inner, f[16..]);
    TaggedParts(f[..16], outer + k, outer, middle, inner, f[16..]);
    IdOfTags(producerId, seqNum);
    UnifiedIs(inner, middle, outer);
    UnifiedIs(inner, middle, outer + k);
  }

  lemma TaggedParts(head: Frame, x: nat, y: nat, middle: nat, inner: nat, rest: Frame)
    requires |head| == 16
    ensures Tagged(head, x, middle, inner, rest)[..16] == head
    ensures Tagged(head, x, middle, inner, rest)[20..] == Tagged(head, y, middle, inner, rest)[20..]
  {
    hide Tag;
  }

  /** While the version is at most 30 all three tags have usable vlan ids. Version 31 makes the outer one reserved
      exactly when the low seven bits of the sequence number are all ones. */
  lemma VlanIdsStayUsable(f: Frame, producerId: nat, seqNum: nat, k: nat)
    requires |f| >= 16 && 1 <= producerId <= 6 && seqNum < MAX_SEQ_NUM && IsValidSeqNum(seqNum) && k <= 30
    ensures |StampedWith(f, producerId, seqNum)| == |f| + 12
    ensures var g := BumpedTimes(StampedWith(f, producerId, seqNum), k);
            && 1 <= VlanByLevel(g, 2) <= 4094 && 1 <= VlanByLevel(g, 3) <= 4094
            && (1 <= VlanByLevel(g, 1) <= 4094 <==> !(k == 30 && seqNum % 128 == 127))
  {
    BumpedReads(f, producerId, seqNum, k);
    IdIsConcatenation(producerId, seqNum);
    OuterIs(seqNum);
    hide IsValidSeqNum;
    hide VlanByLevel;
    hide StampedWith;
  }

  // ---- any number of bumps

  // Or-ing a word into two shifted tags touches the lower one with the bits above its twelfth.
  lemma UnifiedOfWord(inner: nat, middle: nat, w: nat)
    requires middle < 4096 && w < 65536
    ensures Unified(inner, middle, w) == (inner * 4096 + BitOr(middle, w / 4096)) * 4096 + w % 4096
  {
    hide BitOr;
    TagWidths();
    var both := inner * 4096 + middle;
    assert both * 4096 == inner * 16777216 + middle * 4096;
    OrConcatenates(inner, middle * 4096, 24);
    OrSplits(both, w / 4096, w % 4096, 12);
    assert w == w / 4096 * 4096 + w % 4096;
    OrBelow(inner, middle, w / 4096, 12);
  }

  lemma {:induction false} OrSplits(a: nat, b: nat, low: nat, k: nat)
    requires low < Pow2(k)
    ensures BitOr(a * Pow2(k), b * Pow2(k) + low) == BitOr(a, b) * Pow2(k) + low
  {
    hide BitOr;
    if k > 0 {
      OrSplits(a, b, low / 2, k - 1);
      OrDoubles(a * Pow2(k - 1), b * Pow2(k - 1) + low / 2, low % 2);
      ShiftDoubles(a, k);
      ShiftDoubles(b, k);
      ShiftDoubles(BitOr(a, b), k);
    }
  }

  lemma {:induction false} OrBelow(a: nat, x: nat, y: nat, k: nat)
    requires x < Pow2(k) && y < Pow2(k)
    ensures BitOr(a * Pow2(k) + x, y) == a * Pow2(k) + BitOr(x, y)
  {
    hide BitOr;
    if k == 0 {
      OrZero(a);
      OrZero(x);
    } else {
      OrBelow(a, x / 2, y / 2, k - 1);
      ShiftDoubles(a, k);
      OrHalves(a * Pow2(k - 1) + x / 2, x % 2, y / 2, y % 2);
      OrHalves(x / 2, x % 2, y / 2, y % 2);
      assert 2 * (x / 2) + x % 2 == x && 2 * (y / 2) + y % 2 == y;
    }
  }

  lemma OrHalves(a: nat, p: nat, b: nat, q: nat)
    requires p < 2 && q < 2
    ensures BitOr(2 * a + p, 2 * b + q) == 2 * BitOr(a, b) + if p == 1 || q == 1 then 1 else 0
  {
  }

  lemma {:induction false} OrAtMostSum(a: nat, b: nat)
    ensures BitOr(a, b) <= a + b
  {
    if a != 0 && b != 0 {
      OrAtMostSum(a / 2, b / 2);
    }
  }

  /** For any number of bumps, the frame carries the id the annotation counts to exactly when the tag at byte 16 has not
      wrapped and the bits carried out of its low twelve meet only zeros in the middle tag. */
  lemma WireAgreesIff(f: Frame, producerId: nat, seqNum: nat, k: nat)
    requires |f| >= 16 && 1 <= producerId <= 6 && seqNum < MAX_SEQ_NUM && IsValidSeqNum(seqNum)
    ensures |StampedWith(f, producerId, seqNum)| == |f| + 12
    ensures var tci, middle := seqNum % 128 * 32 + 1 + k, seqNum / 128 % 4096;
            WireId(BumpedTimes(StampedWith(f, producerId, seqNum), k), 1) == IdOf(producerId, seqNum) + k
            <==> tci < 65536 && BitOr(middle, tci / 4096) == middle + tci / 4096
  {
    hide *;
    var inner, middle, outer := InnerVlan(producerId, seqNum), MiddleVlan(seqNum), OuterVlan(seqNum);
    StampThenRead(f, producerId, seqNum);
    IdIsConcatenation(producerId, seqNum);
    MiddleIs(seqNum);
    OuterIs(seqNum);
    StampedWithIs(f, producerId, seqNum);
    BumpsTagged(f[..16], outer, middle, inner, f[16..], k);
    TaggedReads(f[..16], outer + k, middle, inner, f[16..]);
    IdOfTags(producerId, seqNum);
    UnifiedIs(inner, middle, outer);
    var w := (outer + k) % 65536;
    UnifiedOfWord(inner, middle, w);
    OrAtMostSum(middle, w / 4096);
    AgreesIff(inner, middle, outer + k, w, BitOr(middle, w / 4096));
  }

  lemma StampedWithIs(f: Frame, producerId: nat, seqNum: nat)
    requires |f| >= 16 && 1 <= producerId <= 6 && seqNum < MAX_SEQ_NUM && IsValidSeqNum(seqNum)
    ensures StampedWith(f, producerId, seqNum)
         == Tagged(f[..16], OuterVlan(seqNum), MiddleVlan(seqNum), InnerVlan(producerId, seqNum), f[16..])
  {
    IdIsConcatenation(producerId, seqNum);
    StampedIs(f, InnerVlan(producerId, seqNum), MiddleVlan(seqNum), OuterVlan(seqNum));
    hide Stamped;
    hide Tagged;
    hide InnerVlan;
    hide MiddleVlan;
    hide OuterVlan;
  }

  lemma IdOfTags(producerId: nat, seqNum: nat)
    ensures IdOf(producerId, seqNum) == Unified(InnerVlan(producerId, seqNum), MiddleVlan(seqNum), OuterVlan(seqNum))
  {
    hide Unified;
  }

  lemma TaggedReads(head: Frame, outer: nat, middle: nat, inner: nat, rest: Frame)
    requires |head| == 16 && 0 < middle < 65536 && 0 < inner < 65536
    ensures WireId(Tagged(head, outer, middle, inner, rest), 1)
         == if outer % 65536 == 0 then 0 else Unified(inner, middle, outer % 65536)
  {
    TagsRead(head, outer, middle, inner, rest);
    hide VlanByLevel;
    hide Unified;
    hide Tagged;
  }

  lemma AgreesIff(inner: nat, middle: nat, tci: nat, w: nat, or_: nat)
    requires w == tci % 65536 && or_ <= middle + w / 4096 && tci > 0
    ensures var wire := if w == 0 then 0 else (inner * 4096 + or_) * 4096 + w % 4096;
            wire == inner * 16777216 + middle * 4096 + tci <==> tci < 65536 && or_ == middle + tci / 4096
  {
    var h, low := w / 4096, w % 4096;
    assert w == h * 4096 + low;
    assert (inner * 4096 + or_) * 4096 == inner * 16777216 + or_ * 4096;
  }
}
