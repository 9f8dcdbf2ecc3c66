/** The replay request: middlebox, port, a 16-byte address field and the ids to replay. The delete request is the bare
    list of ids. */
module ReplayCodec {
  import opened PacketIds
  import opened WireTypes
  import opened ByteBuffers

  const MAX_ADDRESS_LEN := 16

  // 2 + 2 + 1 + 16 bytes stand before the ids; the decoder subtracts 20.
  const HEADER := 21
  const SUBTRACTED := 20

  // int, as a length
  type Length = x: int | 0 <= x < 0x8000_0000

  // char[16]
  type Address = s: seq<Byte> | |s| == 16 witness seq(16, i => 0)

  datatype ReplayPackets = ReplayPackets(mbId: U16, port: U16, address: Address, addressLen: Byte, packetIds: seq<Id>)

  // What the decoder makes of a message. A longer address than its 16-byte field is copied past the end of it.
  datatype Reading = Request(packets: ReplayPackets) | AddressOverrun

  // ---------------------------------------------------------------- ids

  function WithIds(b: seq<Byte>, at: nat, ids: seq<Id>): (r: seq<Byte>)
    requires at + 8 * |ids| <= |b|
    ensures |r| == |b|
  {
    if ids == [] then b
    else Over(WithIds(b, at, ids[..|ids| - 1]), at + 8 * (|ids| - 1), LE(ids[|ids| - 1], 8))
  }

  function IdAt(b: seq<Byte>, at: nat): Id
    requires at + 8 <= |b|
  {
    ValueFits(b[at..at + 8]);
    Widths();
    Value(b[at..at + 8])
  }

  function ReadIds(b: seq<Byte>, at: nat, n: nat): seq<Id>
    requires at + 8 * n <= |b|
  {
    seq(n, i requires 0 <= i < n => IdAt(b, at + 8 * i))
  }

  lemma {:induction false} IdsElsewhere(b: seq<Byte>, at: nat, ids: seq<Id>, lo: nat, hi: nat)
    requires at + 8 * |ids| <= |b| && lo <= hi <= |b| && (hi <= at || at + 8 * |ids| <= lo)
    ensures WithIds(b, at, ids)[lo..hi] == b[lo..hi]
  {
    hide Over;
    if ids != [] {
      var front, last := ids[..|ids| - 1], ids[|ids| - 1];
      IdsElsewhere(b, at, front, lo, hi);
      ReadElsewhere(WithIds(b, at, front), at + 8 * |front|, LE(last, 8), lo, hi);
    }
  }

  lemma {:induction false} IdSlot(b: seq<Byte>, at: nat, ids: seq<Id>, i: nat)
    requires at + 8 * |ids| <= |b| && i < |ids|
    ensures IdAt(WithIds(b, at, ids), at + 8 * i) == ids[i]
  {
    hide Over;
    hide LE;
    hide Value;
    var front, last := ids[..|ids| - 1], ids[|ids| - 1];
    var end := at + 8 * |front|;
    if i == |ids| - 1 {
      ReadBack(WithIds(b, at, front), end, LE(last, 8));
      Widths();
      ValueOfLE(last, 8);
    } else {
      IdSlot(b, at, front, i);
      ReadElsewhere(WithIds(b, at, front), end, LE(last, 8), at + 8 * i, at + 8 * i + 8);
    }
  }

  /** Ids written one after the other are read back, whatever the buffer held. */
  lemma IdsRoundTrip(b: seq<Byte>, at: nat, ids: seq<Id>)
    requires at + 8 * |ids| <= |b|
    ensures ReadIds(WithIds(b, at, ids), at, |ids|) == ids
  {
    hide WithIds;
    hide IdAt;
    forall i | 0 <= i < |ids| ensures IdAt(WithIds(b, at, ids), at + 8 * i) == ids[i] {
      IdSlot(b, at, ids, i);
    }
  }

  method PutIds(buf: array<Byte>, at: nat, ids: seq<Id>)
    requires at + 8 * |ids| <= buf.Length
    modifies buf
    ensures buf[..] == WithIds(old(buf[..]), at, ids)
  {
    hide Over;
    for i := 0 to |ids|
      invariant buf[..] == WithIds(old(buf[..]), at, ids[..i])
    {
      assert ids[..i + 1][..i] == ids[..i];
      Put(buf, at + 8 * i, ids[i], 8);
    }
    assert ids[..|ids|] == ids;
  }

  method GetIds(buf: array<Byte>, at: nat, n: int) returns (ids: seq<Id>)
    requires at <= buf.Length && at + 8 * n <= buf.Length
    ensures ids == ReadIds(buf[..], at, if n > 0 then n else 0)
  {
    hide Value;
    ids := [];
    var i := 0;
    while i < n
      invariant 0 <= i && (i <= n || i == 0)
      invariant ids == ReadIds(buf[..], at, i)
    {
      Widths();
      var id := Get(buf, at + 8 * i, 8);
      assert buf[at + 8 * i..at + 8 * i + 8] == buf[..][at + 8 * i..at + 8 * i + 8];
      ids := ids + [id];
      i := i + 1;
    }
  }

  // ---------------------------------------------------------------- the replay request

  // The address field is written for the address's length only; the rest of it keeps what the buffer held.
  function Encoded(b: seq<Byte>, r: ReplayPackets): (e: seq<Byte>)
    requires r.addressLen <= MAX_ADDRESS_LEN && HEADER + 8 * |r.packetIds| <= |b|
    ensures |e| == |b|
  {
    WithIds(WithHeader(b, r), HEADER, r.packetIds)
  }

  function WithHeader(b: seq<Byte>, r: ReplayPackets): (e: seq<Byte>)
    requires r.addressLen <= MAX_ADDRESS_LEN && HEADER <= |b|
    ensures |e| == |b|
  {
    Over(Over(b, 0, LE(r.mbId, 2) + LE(r.port, 2) + LE(r.addressLen, 1)), 5, r.address[..r.addressLen])
  }

  // An int divided by a size_t is divided as 64 unsigned bits, and the quotient is made an int again.
  function Quotient(vectorLen: int): int {
    var q := vectorLen % 0x1_0000_0000_0000_0000 / 8 % 0x1_0000_0000;
    if q < 0x8000_0000 then q else q - 0x1_0000_0000
  }

  // Every id the announced length leaves room for, by the decoder's count.
  function IdCount(msgLen: Length): nat {
    if msgLen < SUBTRACTED then 0 else (msgLen - SUBTRACTED) / 8
  }

  /** A message too short for the part subtracted gives a negative number of passes, not a large one. */
  lemma QuotientIsCount(msgLen: Length)
    ensures msgLen < SUBTRACTED ==> Quotient(msgLen - SUBTRACTED) < 0
    ensures msgLen >= SUBTRACTED ==> Quotient(msgLen - SUBTRACTED) == IdCount(msgLen)
  {
    var v := msgLen - SUBTRACTED;
    if v < 0 {
      assert v % 0x1_0000_0000_0000_0000 == v + 0x1_0000_0000_0000_0000;
    }
  }

  function Decoded(b: seq<Byte>, msgLen: Length): Reading
    requires HEADER + 8 * IdCount(msgLen) <= |b|
  {
    ValueFits(b[0..2]);
    ValueFits(b[2..4]);
    ValueFits(b[4..5]);
    Widths();
    var len := Value(b[4..5]);
    if len > MAX_ADDRESS_LEN then AddressOverrun
    else Request(ReplayPackets(Value(b[0..2]), Value(b[2..4]), b[5..5 + len] + seq(16 - len, i => 0), len,
                               ReadIds(b, HEADER, IdCount(msgLen))))
  }

  predicate ZeroPadded(r: ReplayPackets) {
    r.addressLen <= MAX_ADDRESS_LEN && forall i :: r.addressLen <= i < MAX_ADDRESS_LEN ==> r.address[i] == 0
  }

  /** The count comes out right although the decoder takes the header for a byte shorter than it is. */
  lemma CountIsExact(n: nat)
    requires HEADER + 8 * n < 0x8000_0000
    ensures IdCount(HEADER + 8 * n) == n
  {
    assert HEADER + 8 * n - SUBTRACTED == 8 * n + 1;
  }

  /** For a length of another shape it can come out too large: the decoder reads beyond the message exactly when the
      message is shorter than a header or ends one byte short of a whole id. */
  lemma ReadsBeyondIff(msgLen: Length)
    ensures HEADER + 8 * IdCount(msgLen) > msgLen <==> msgLen < HEADER || (msgLen - HEADER) % 8 == 7
  {
    var k := msgLen - HEADER;
    assert k + 1 == 8 * ((k + 1) / 8) + (k + 1) % 8;
  }

  lemma HeaderReads(b: seq<Byte>, r: ReplayPackets)
    requires r.addressLen <= MAX_ADDRESS_LEN && HEADER <= |b|
    ensures var e := WithHeader(b, r);
            && e[0..2] == LE(r.mbId, 2) && e[2..4] == LE(r.port, 2) && e[4..5] == LE(r.addressLen, 1)
            && e[5..5 + r.addressLen] == r.address[..r.addressLen]
  {
    hide LE;
    hide Over;
    var words := LE(r.mbId, 2) + LE(r.port, 2) + LE(r.addressLen, 1);
    var h := Over(b, 0, words);
    var address := r.address[..r.addressLen];
    ReadBack(b, 0, words);
    ReadBack(h, 5, address);
    ReadElsewhere(h, 5, address, 0, 2);
    ReadElsewhere(h, 5, address, 2, 4);
    ReadElsewhere(h, 5, address, 4, 5);
    assert h[0..5] == words;
    assert h[0..2] == h[0..5][0..2] && h[2..4] == h[0..5][2..4] && h[4..5] == h[0..5][4..5];
  }

  lemma EncodedReads(b: seq<Byte>, r: ReplayPackets)
    requires r.addressLen <= MAX_ADDRESS_LEN && HEADER + 8 * |r.packetIds| <= |b|
    ensures var e := Encoded(b, r);
            && e[0..2] == LE(r.mbId, 2) && e[2..4] == LE(r.port, 2) && e[4..5] == LE(r.addressLen, 1)
            && e[5..5 + r.addressLen] == r.address[..r.addressLen]
            && ReadIds(e, HEADER, |r.packetIds|) == r.packetIds
  {
    hide LE;
    hide Over;
    hide WithHeader;
    hide WithIds;
    hide ReadIds;
    var h := WithHeader(b, r);
    HeaderReads(b, r);
    IdsElsewhere(h, HEADER, r.packetIds, 0, 2);
    IdsElsewhere(h, HEADER, r.packetIds, 2, 4);
    IdsElsewhere(h, HEADER, r.packetIds, 4, 5);
    IdsElsewhere(h, HEADER, r.packetIds, 5, 5 + r.addressLen);
    IdsRoundTrip(h, HEADER, r.packetIds);
  }

  /** The request survives the trip exactly when its address is padded with zeros, whatever the buffer held. */
  lemma RoundTripIff(b: seq<Byte>, r: ReplayPackets)
    requires r.addressLen <= MAX_ADDRESS_LEN && HEADER + 8 * |r.packetIds| <= |b| < 0x8000_0000
    ensures var n := HEADER + 8 * |r.packetIds|;
            && IdCount(n) == |r.packetIds|
            && (Decoded(Encoded(b, r), n) == Request(r) <==> ZeroPadded(r))
  {
    hide LE;
    hide Encoded;
    hide ReadIds;
    hide Value;
    CountIsExact(|r.packetIds|);
    EncodedReads(b, r);
    Widths();
    ValueOfLE(r.mbId, 2);
    ValueOfLE(r.port, 2);
    ValueOfLE(r.addressLen, 1);
    var padded := r.address[..r.addressLen] + seq(16 - r.addressLen, i => 0);
    if ZeroPadded(r) {
      assert padded == r.address;
    } else {
      var i :| r.addressLen <= i < MAX_ADDRESS_LEN && r.address[i] != 0;
      assert padded[i] == 0;
    }
  }

  /** Nothing is written past the announced length. */
  lemma WritesStayInside(b: seq<Byte>, r: ReplayPackets)
    requires r.addressLen <= MAX_ADDRESS_LEN && HEADER + 8 * |r.packetIds| <= |b|
    ensures var n := HEADER + 8 * |r.packetIds|; Encoded(b, r)[n..] == b[n..]
  {
    hide WithIds;
    var n, h := HEADER + 8 * |r.packetIds|, WithHeader(b, r);
    IdsElsewhere(h, HEADER, r.packetIds, n, |b|);
    HeaderStaysInside(b, r);
    hide *;
    assert h[n..] == h[HEADER..][8 * |r.packetIds|..] && b[n..] == b[HEADER..][8 * |r.packetIds|..];
    assert h[n..] == h[n..|b|];
    assert WithIds(h, HEADER, r.packetIds)[n..] == WithIds(h, HEADER, r.packetIds)[n..|b|];
  }

  lemma HeaderStaysInside(b: seq<Byte>, r: ReplayPackets)
    requires r.addressLen <= MAX_ADDRESS_LEN && HEADER <= |b|
    ensures WithHeader(b, r)[HEADER..] == b[HEADER..]
  {
    hide LE;
  }

  // ---- the layout byte by byte

  // Ids of eight bytes each, from some offset on.
  predicate IdsLaidOut(b: seq<Byte>, at: nat, ids: seq<Id>) {
    at + 8 * |ids| <= |b| && forall i :: 0 <= i < |ids| ==> Word8At(b, at + 8 * i, ids[i])
  }

  // Middlebox, port, the length of the address and the address itself stand in front, the ids from byte 21 on.
  predicate FrontLaidOut(b: seq<Byte>, r: ReplayPackets) {
    && 21 <= |b| && r.addressLen <= 16
    && Word2At(b, 0, r.mbId) && Word2At(b, 2, r.port) && b[4] == r.addressLen
    && b[5..5 + r.addressLen] == r.address[..r.addressLen]
  }

  lemma IdAtIff(b: seq<Byte>, at: nat, id: Id)
    requires at + 8 <= |b|
    ensures Word8At(b, at, id) <==> IdAt(b, at) == id
  {
    hide Value;
    Word8Is(b, at, id);
    hide Word8At;
  }

  lemma ReadIsLaidOut(b: seq<Byte>, at: nat, n: nat)
    requires at + 8 * n <= |b|
    ensures IdsLaidOut(b, at, ReadIds(b, at, n)) && |ReadIds(b, at, n)| == n
  {
    hide IdAt;
    hide Word8At;
    forall i | 0 <= i < n ensures Word8At(b, at + 8 * i, ReadIds(b, at, n)[i]) {
      IdAtIff(b, at + 8 * i, IdAt(b, at + 8 * i));
    }
  }

  lemma WrittenIdsLaidOut(b: seq<Byte>, at: nat, ids: seq<Id>)
    requires at + 8 * |ids| <= |b|
    ensures IdsLaidOut(WithIds(b, at, ids), at, ids)
  {
    hide *;
    IdsRoundTrip(b, at, ids);
    WithIdsLength(b, at, ids);
    ReadIsLaidOut(WithIds(b, at, ids), at, |ids|);
  }

  lemma WithIdsLength(b: seq<Byte>, at: nat, ids: seq<Id>)
    requires at + 8 * |ids| <= |b|
    ensures |WithIds(b, at, ids)| == |b|
  {
  }

  lemma ByteValue(b: seq<Byte>, i: nat)
    requires i < |b|
    ensures Value(b[i..i + 1]) == b[i]
  {
    assert b[i..i + 1][1..] == [];
  }

  /** A request is written with that layout. */
  lemma EncodedIsLaidOut(b: seq<Byte>, r: ReplayPackets)
    requires r.addressLen <= MAX_ADDRESS_LEN && HEADER + 8 * |r.packetIds| <= |b|
    ensures FrontLaidOut(Encoded(b, r), r) && IdsLaidOut(Encoded(b, r), 21, r.packetIds)
  {
    var e := Encoded(b, r);
    EncodedReads(b, r);
    Widths();
    ValueOfLE(r.addressLen, 1);
    ByteValue(e, 4);
    WrittenWords(e, 0, r.mbId);
    WrittenWords(e, 2, r.port);
    ReadIsLaidOut(e, 21, |r.packetIds|);
    hide LE;
    hide Value;
    hide Encoded;
    hide ReadIds;
    hide Word2At;
    hide IdsLaidOut;
  }

  // What is read from a buffer and an announced length.
  predicate ReadAs(b: seq<Byte>, msgLen: Length, r: Reading) {
    if |b| < 21 || b[4] > 16 then r == AddressOverrun
    else
      && r.Request? && FrontLaidOut(b, r.packets) && IdsLaidOut(b, 21, r.packets.packetIds)
      && |r.packets.packetIds| == (if msgLen < 20 then 0 else (msgLen - 20) / 8)
      && forall i :: r.packets.addressLen <= i < 16 ==> r.packets.address[i] == 0
  }

  lemma DecodedIsRead(b: seq<Byte>, msgLen: Length)
    requires HEADER + 8 * IdCount(msgLen) <= |b|
    ensures ReadAs(b, msgLen, Decoded(b, msgLen))
  {
    var len := Value(b[4..5]);
    ByteValue(b, 4);
    if len <= 16 {
      var r := Decoded(b, msgLen).packets;
      Word2Is(b, 0, r.mbId);
      Word2Is(b, 2, r.port);
      ReadIsLaidOut(b, 21, IdCount(msgLen));
      hide ReadIds;
      hide Word2At;
      hide IdsLaidOut;
      assert r.address[..r.addressLen] == b[5..5 + r.addressLen];
    }
    hide Value;
  }

  /** The clean-up manager's side. */
  method SerializeReplayPacketsByIds(r: ReplayPackets, buf: array<Byte>) returns (len: nat)
    requires r.addressLen <= MAX_ADDRESS_LEN && HEADER + 8 * |r.packetIds| <= buf.Length
    modifies buf
    ensures buf[..] == Encoded(old(buf[..]), r) && len == HEADER + 8 * |r.packetIds|
    ensures FrontLaidOut(buf[..], r) && IdsLaidOut(buf[..], 21, r.packetIds) && len == 21 + 8 * |r.packetIds|
  {
    EncodedIsLaidOut(buf[..], r);
    hide FrontLaidOut;
    hide IdsLaidOut;
    PutHeader(r, buf);
    PutIds(buf, HEADER, r.packetIds);
    len := 2 * 2 + 1 + MAX_ADDRESS_LEN + |r.packetIds| * 8;
  }

  method PutHeader(r: ReplayPackets, buf: array<Byte>)
    requires r.addressLen <= MAX_ADDRESS_LEN && HEADER <= buf.Length
    modifies buf
    ensures buf[..] == WithHeader(old(buf[..]), r)
  {
    hide LE;
    ghost var b := buf[..];
    Put(buf, 0, r.mbId, 2);
    Put(buf, 2, r.port, 2);
    Put(buf, 4, r.addressLen, 1);
    OverTwice(b, 0, LE(r.mbId, 2), LE(r.port, 2));
    OverTwice(b, 0, LE(r.mbId, 2) + LE(r.port, 2), LE(r.addressLen, 1));
    CopyAddress(r, buf);
  }

  method CopyAddress(r: ReplayPackets, buf: array<Byte>)
    requires r.addressLen <= MAX_ADDRESS_LEN && HEADER <= buf.Length
    modifies buf
    ensures buf[..] == Over(old(buf[..]), 5, r.address[..r.addressLen])
  {
    forall i | 0 <= i < r.addressLen {
      buf[5 + i] := r.address[i];
    }
  }

  /** The packet logger's side, for a message of any length. What its count takes in beyond the message is read from the
      buffer behind it. */
  method DeserializeClientReplayRequest(buf: array<Byte>, msgLen: Length) returns (r: Reading)
    requires HEADER + 8 * IdCount(msgLen) <= buf.Length
    ensures r == Decoded(buf[..], msgLen) && ReadAs(buf[..], msgLen, r)
  {
    DecodedIsRead(buf[..], msgLen);
    hide ReadAs;
    hide Value;
    hide ReadIds;
    Widths();
    assert buf[0..2] == buf[..][0..2] && buf[2..4] == buf[..][2..4] && buf[4..5] == buf[..][4..5];
    var mbId := Get(buf, 0, 2);
    var port := Get(buf, 2, 2);
    var addressLen := Get(buf, 4, 1);
    if addressLen > MAX_ADDRESS_LEN {
      return AddressOverrun;
    }
    var address := buf[5..5 + addressLen] + seq(16 - addressLen, i => 0);
    QuotientIsCount(msgLen);
    var totalNumOfPacketIdsToReplay := Quotient(msgLen - SUBTRACTED);
    var packetIds := GetIds(buf, HEADER, totalNumOfPacketIdsToReplay);
    r := Request(ReplayPackets(mbId, port, address, addressLen, packetIds));
  }

  // ---------------------------------------------------------------- the delete request

  method SerializeDeletePacketsByIds(ids: seq<Id>, buf: array<Byte>) returns (len: nat)
    requires 8 * |ids| <= buf.Length
    modifies buf
    ensures buf[..] == WithIds(old(buf[..]), 0, ids) && len == 8 * |ids| && IdsLaidOut(buf[..], 0, ids)
  {
    WrittenIdsLaidOut(buf[..], 0, ids);
    hide IdsLaidOut;
    PutIds(buf, 0, ids);
    len := |ids| * 8;
  }

  method DeserializeClientDeletePacketsRequest(buf: array<Byte>, msgLen: nat) returns (ids: seq<Id>)
    requires msgLen <= buf.Length
    ensures ids == ReadIds(buf[..], 0, msgLen / 8)
    ensures |ids| == msgLen / 8 && IdsLaidOut(buf[..], 0, ids)
  {
    ReadIsLaidOut(buf[..], 0, msgLen / 8);
    hide IdsLaidOut;
    ids := GetIds(buf, 0, msgLen / 8);
  }

  /** A delete request arrives with the ids it was sent for, whatever the buffer held. */
  method SendDeletePackets(ids: seq<Id>, buf: array<Byte>) returns (received: seq<Id>)
    requires 8 * |ids| <= buf.Length
    modifies buf
    ensures received == ids
  {
    IdsRoundTrip(buf[..], 0, ids);
    var msgLen := SerializeDeletePacketsByIds(ids, buf);
    hide ReadIds;
    hide WithIds;
    received := DeserializeClientDeletePacketsRequest(buf, msgLen);
  }
}
