/** The PAL message: middlebox, packet, and two counted lists of fixed-size slots, written over a buffer in place. */
module PalsCodec {
  import opened WireTypes
  import opened ByteBuffers

  const PALS_SIZE := 10

  // What a PAL manager holds: the live slots of its two lists.
  datatype Pals = Pals(mbId: U16, packetId: U64, gpals: seq<GPal>, spals: seq<SPal>)

  predicate Fits(m: Pals) { |m.gpals| <= PALS_SIZE && |m.spals| <= PALS_SIZE }

  // ---------------------------------------------------------------- the layout

  // sizeof(gpal) and sizeof(spal); the compiler puts the second field of an spal at offset 4, the encoder at offset 2.
  const GPAL_SIZE := 52
  const SPAL_SIZE := 8

  function Length(m: Pals): nat { 14 + GPAL_SIZE * |m.gpals| + SPAL_SIZE * |m.spals| }

  function GPalBytes(g: GPal): (s: seq<Byte>)
    ensures |s| == GPAL_SIZE
  {
    LE(g.varId, 2) + g.val
  }

  // Six of the eight bytes of a slot.
  function SPalBytes(p: SPal): (s: seq<Byte>)
    ensures |s| == 6
  {
    LE(p.varId, 2) + LE(p.seqNum, 4)
  }

  // A buffer after a list of slots was written from some offset on.
  function WithGPals(b: seq<Byte>, at: nat, gs: seq<GPal>): (r: seq<Byte>)
    requires at + GPAL_SIZE * |gs| <= |b|
    ensures |r| == |b|
  {
    if gs == [] then b
    else Over(WithGPals(b, at, gs[..|gs| - 1]), at + GPAL_SIZE * (|gs| - 1), GPalBytes(gs[|gs| - 1]))
  }

  function WithSPals(b: seq<Byte>, at: nat, ps: seq<SPal>): (r: seq<Byte>)
    requires at + SPAL_SIZE * |ps| <= |b|
    ensures |r| == |b|
  {
    if ps == [] then b
    else Over(WithSPals(b, at, ps[..|ps| - 1]), at + SPAL_SIZE * (|ps| - 1), SPalBytes(ps[|ps| - 1]))
  }

  function WithHead(b: seq<Byte>, m: Pals): (r: seq<Byte>)
    requires |b| >= 12
    ensures |r| == |b|
  {
    Over(Over(Over(b, 0, LE(m.mbId, 2)), 2, LE(m.packetId, 8)), 10, LE(|m.gpals|, 2))
  }

  function SCountAt(m: Pals): nat { 12 + GPAL_SIZE * |m.gpals| }

  function Serialized(b: seq<Byte>, m: Pals): (r: seq<Byte>)
    requires Length(m) <= |b|
    ensures |r| == |b|
  {
    var head := WithGPals(WithHead(b, m), 12, m.gpals);
    WithSPals(Over(head, SCountAt(m), LE(|m.spals|, 2)), SCountAt(m) + 2, m.spals)
  }

  // ---------------------------------------------------------------- reading

  function GPalAt(b: seq<Byte>, at: nat): GPal
    requires at + GPAL_SIZE <= |b|
  {
    ValueFits(b[at..at + 2]);
    Widths();
    GPal(Value(b[at..at + 2]), b[at + 2..at + 52])
  }

  function SPalAt(b: seq<Byte>, at: nat): SPal
    requires at + 6 <= |b|
  {
    ValueFits(b[at..at + 2]);
    ValueFits(b[at + 2..at + 6]);
    Widths();
    SPal(Value(b[at..at + 2]), Value(b[at + 2..at + 6]))
  }

  // A message whose counts keep to the size of the lists and that lies inside the buffer.
  predicate WellSized(b: seq<Byte>) {
    && |b| >= 14 && Value(b[10..12]) <= PALS_SIZE
    && var g := Value(b[10..12]);
       && 14 + GPAL_SIZE * g <= |b|
       && Value(b[12 + GPAL_SIZE * g..14 + GPAL_SIZE * g]) <= PALS_SIZE
       && 14 + GPAL_SIZE * g + SPAL_SIZE * Value(b[12 + GPAL_SIZE * g..14 + GPAL_SIZE * g]) <= |b|
  }

  function ReadGPals(b: seq<Byte>, at: nat, n: nat): seq<GPal>
    requires at + GPAL_SIZE * n <= |b|
  {
    seq(n, i requires 0 <= i < n => GPalAt(b, at + GPAL_SIZE * i))
  }

  function ReadSPals(b: seq<Byte>, at: nat, n: nat): seq<SPal>
    requires at + SPAL_SIZE * n <= |b|
  {
    seq(n, i requires 0 <= i < n => SPalAt(b, at + SPAL_SIZE * i))
  }

  function Deserialized(b: seq<Byte>): Pals
    requires WellSized(b)
  {
    ValueFits(b[0..2]);
    ValueFits(b[2..10]);
    Widths();
    var g := Value(b[10..12]);
    var s := Value(b[12 + GPAL_SIZE * g..14 + GPAL_SIZE * g]);
    Pals(Value(b[0..2]), Value(b[2..10]), ReadGPals(b, 12, g), ReadSPals(b, 14 + GPAL_SIZE * g, s))
  }

  // ---------------------------------------------------------------- round trip

  lemma {:induction false} GPalsElsewhere(b: seq<Byte>, at: nat, gs: seq<GPal>, lo: nat, hi: nat)
    requires at + GPAL_SIZE * |gs| <= |b| && lo <= hi <= |b| && (hi <= at || at + GPAL_SIZE * |gs| <= lo)
    ensures WithGPals(b, at, gs)[lo..hi] == b[lo..hi]
  {
    hide Over;
    if gs != [] {
      var front, last := gs[..|gs| - 1], gs[|gs| - 1];
      GPalsElsewhere(b, at, front, lo, hi);
      ReadElsewhere(WithGPals(b, at, front), at + GPAL_SIZE * |front|, GPalBytes(last), lo, hi);
    }
  }

  lemma {:induction false} SPalsElsewhere(b: seq<Byte>, at: nat, ps: seq<SPal>, lo: nat, hi: nat)
    requires at + SPAL_SIZE * |ps| <= |b| && lo <= hi <= |b| && (hi <= at || at + SPAL_SIZE * |ps| <= lo)
    ensures WithSPals(b, at, ps)[lo..hi] == b[lo..hi]
  {
    hide Over;
    if ps != [] {
      var front, last := ps[..|ps| - 1], ps[|ps| - 1];
      SPalsElsewhere(b, at, front, lo, hi);
      ReadElsewhere(WithSPals(b, at, front), at + SPAL_SIZE * |front|, SPalBytes(last), lo, hi);
    }
  }

  lemma {:induction false} GPalSlot(b: seq<Byte>, at: nat, gs: seq<GPal>, i: nat)
    requires at + GPAL_SIZE * |gs| <= |b| && i < |gs|
    ensures var lo := at + GPAL_SIZE * i; WithGPals(b, at, gs)[lo..lo + GPAL_SIZE] == GPalBytes(gs[i])
  {
    hide Over;
    hide GPalBytes;
    var front, last := gs[..|gs| - 1], gs[|gs| - 1];
    var end := at + GPAL_SIZE * |front|;
    if i == |gs| - 1 {
      ReadBack(WithGPals(b, at, front), end, GPalBytes(last));
    } else {
      GPalSlot(b, at, front, i);
      ReadElsewhere(WithGPals(b, at, front), end, GPalBytes(last), at + GPAL_SIZE * i, at + GPAL_SIZE * i + GPAL_SIZE);
    }
  }

  lemma {:induction false} SPalSlot(b: seq<Byte>, at: nat, ps: seq<SPal>, i: nat)
    requires at + SPAL_SIZE * |ps| <= |b| && i < |ps|
    ensures var lo := at + SPAL_SIZE * i; WithSPals(b, at, ps)[lo..lo + 6] == SPalBytes(ps[i])
    ensures var lo := at + SPAL_SIZE * i; WithSPals(b, at, ps)[lo + 6..lo + 8] == b[lo + 6..lo + 8]
  {
    hide Over;
    hide SPalBytes;
    var front, last := ps[..|ps| - 1], ps[|ps| - 1];
    var end, lo := at + SPAL_SIZE * |front|, at + SPAL_SIZE * i;
    if i == |ps| - 1 {
      ReadBack(WithSPals(b, at, front), end, SPalBytes(last));
      ReadElsewhere(WithSPals(b, at, front), end, SPalBytes(last), lo + 6, lo + 8);
      SPalsElsewhere(b, at, front, lo + 6, lo + 8);
    } else {
      SPalSlot(b, at, front, i);
      ReadElsewhere(WithSPals(b, at, front), end, SPalBytes(last), lo, lo + 6);
      ReadElsewhere(WithSPals(b, at, front), end, SPalBytes(last), lo + 6, lo + 8);
    }
  }

  lemma GPalReads(b: seq<Byte>, at: nat, g: GPal)
    requires at + GPAL_SIZE <= |b| && b[at..at + GPAL_SIZE] == GPalBytes(g)
    ensures GPalAt(b, at) == g
  {
    hide LE;
    hide Value;
    Widths();
    ValueOfLE(g.varId, 2);
    assert b[at..at + 2] == b[at..at + GPAL_SIZE][..2];
    assert b[at + 2..at + 52] == b[at..at + GPAL_SIZE][2..];
  }

  lemma SPalReads(b: seq<Byte>, at: nat, p: SPal)
    requires at + 6 <= |b| && b[at..at + 6] == SPalBytes(p)
    ensures SPalAt(b, at) == p
  {
    hide LE;
    hide Value;
    Widths();
    ValueOfLE(p.varId, 2);
    ValueOfLE(p.seqNum, 4);
    assert b[at..at + 2] == b[at..at + 6][..2];
    assert b[at + 2..at + 6] == b[at..at + 6][2..];
  }

  // The three words in front survive the lists.
  lemma HeadReads(b: seq<Byte>, m: Pals)
    requires |b| >= 12
    ensures var r := WithHead(b, m);
            r[0..2] == LE(m.mbId, 2) && r[2..10] == LE(m.packetId, 8) && r[10..12] == LE(|m.gpals|, 2)
  {
    hide LE;
  }

  lemma PartsRead(b: seq<Byte>, m: Pals)
    requires Length(m) <= |b|
    ensures var r := Serialized(b, m);
            && r[0..2] == LE(m.mbId, 2) && r[2..10] == LE(m.packetId, 8) && r[10..12] == LE(|m.gpals|, 2)
            && r[SCountAt(m)..SCountAt(m) + 2] == LE(|m.spals|, 2)
  {
    hide Over;
    hide LE;
    hide WithHead;
    hide WithGPals;
    hide WithSPals;
    HeadReads(b, m);
    var h := WithHead(b, m);
    var g := WithGPals(h, 12, m.gpals);
    var c := Over(g, SCountAt(m), LE(|m.spals|, 2));
    HeadSurvives(h, g, c, m, 0, 2);
    HeadSurvives(h, g, c, m, 2, 10);
    HeadSurvives(h, g, c, m, 10, 12);
    ReadBack(g, SCountAt(m), LE(|m.spals|, 2));
    SPalsElsewhere(c, SCountAt(m) + 2, m.spals, SCountAt(m), SCountAt(m) + 2);
  }

  lemma HeadSurvives(h: seq<Byte>, g: seq<Byte>, c: seq<Byte>, m: Pals, lo: nat, hi: nat)
    requires Length(m) <= |h| && lo <= hi <= 12
    requires g == WithGPals(h, 12, m.gpals) && c == Over(g, SCountAt(m), LE(|m.spals|, 2))
    ensures WithSPals(c, SCountAt(m) + 2, m.spals)[lo..hi] == h[lo..hi]
  {
    GPalsElsewhere(h, 12, m.gpals, lo, hi);
    ReadElsewhere(g, SCountAt(m), LE(|m.spals|, 2), lo, hi);
    SPalsElsewhere(c, SCountAt(m) + 2, m.spals, lo, hi);
  }

  lemma SlotsRead(b: seq<Byte>, m: Pals)
    requires Length(m) <= |b|
    ensures ReadGPals(Serialized(b, m), 12, |m.gpals|) == m.gpals
    ensures ReadSPals(Serialized(b, m), SCountAt(m) + 2, |m.spals|) == m.spals
  {
    hide Over;
    hide LE;
    hide WithHead;
    hide GPalAt;
    hide SPalAt;
    hide GPalBytes;
    hide SPalBytes;
    hide WithGPals;
    hide WithSPals;
    var h := WithHead(b, m);
    var g := WithGPals(h, 12, m.gpals);
    var c := Over(g, SCountAt(m), LE(|m.spals|, 2));
    var r := WithSPals(c, SCountAt(m) + 2, m.spals);
    forall i | 0 <= i < |m.gpals| ensures GPalAt(r, 12 + GPAL_SIZE * i) == m.gpals[i] {
      var lo := 12 + GPAL_SIZE * i;
      GPalSlot(h, 12, m.gpals, i);
      ReadElsewhere(g, SCountAt(m), LE(|m.spals|, 2), lo, lo + GPAL_SIZE);
      SPalsElsewhere(c, SCountAt(m) + 2, m.spals, lo, lo + GPAL_SIZE);
      GPalReads(r, lo, m.gpals[i]);
    }
    forall i | 0 <= i < |m.spals| ensures SPalAt(r, SCountAt(m) + 2 + SPAL_SIZE * i) == m.spals[i] {
      SPalSlot(c, SCountAt(m) + 2, m.spals, i);
      SPalReads(r, SCountAt(m) + 2 + SPAL_SIZE * i, m.spals[i]);
    }
  }

  /** Whatever the buffer held, reading what was written gives the PALs back. */
  lemma RoundTrip(b: seq<Byte>, m: Pals)
    requires Length(m) <= |b| && Fits(m)
    ensures WellSized(Serialized(b, m)) && Deserialized(Serialized(b, m)) == m
  {
    hide Serialized;
    hide LE;
    hide ReadGPals;
    hide ReadSPals;
    PartsRead(b, m);
    SlotsRead(b, m);
    Widths();
    ValueOfLE(m.mbId, 2);
    ValueOfLE(m.packetId, 8);
    ValueOfLE(|m.gpals|, 2);
    ValueOfLE(|m.spals|, 2);
  }

  // ---- the layout byte by byte

  predicate GPalLaidOut(b: seq<Byte>, at: nat, g: GPal) {
    Word2At(b, at, g.varId) && at + 52 <= |b| && b[at + 2..at + 52] == g.val
  }

  predicate SPalLaidOut(b: seq<Byte>, at: nat, p: SPal) { Word2At(b, at, p.varId) && Word4At(b, at + 2, p.seqNum) }

  // Middlebox, packet, the number of gpals, the gpals in slots of 52 bytes, the number of spals, and the spals in
  // slots of 8.
  predicate LaidOut(b: seq<Byte>, m: Pals) {
    && Fits(m) && 14 + 52 * |m.gpals| + 8 * |m.spals| <= |b|
    && Word2At(b, 0, m.mbId) && Word8At(b, 2, m.packetId) && Word2At(b, 10, |m.gpals|)
    && (forall i :: 0 <= i < |m.gpals| ==> GPalLaidOut(b, 12 + 52 * i, m.gpals[i]))
    && Word2At(b, 12 + 52 * |m.gpals|, |m.spals|)
    && (forall i :: 0 <= i < |m.spals| ==> SPalLaidOut(b, 14 + 52 * |m.gpals| + 8 * i, m.spals[i]))
  }

  lemma GPalAtIff(b: seq<Byte>, at: nat, g: GPal)
    requires at + GPAL_SIZE <= |b|
    ensures GPalLaidOut(b, at, g) <==> GPalAt(b, at) == g
  {
    hide Value;
    hide Word2At;
    Word2Is(b, at, g.varId);
  }

  lemma SPalAtIff(b: seq<Byte>, at: nat, p: SPal)
    requires at + 6 <= |b|
    ensures SPalLaidOut(b, at, p) <==> SPalAt(b, at) == p
  {
    hide Value;
    hide Word2At;
    hide Word4At;
    Word2Is(b, at, p.varId);
    Word4Is(b, at + 2, p.seqNum);
  }

  lemma SlotsLaidOut(b: seq<Byte>, m: Pals)
    requires Length(m) <= |b|
    requires ReadGPals(b, 12, |m.gpals|) == m.gpals && ReadSPals(b, SCountAt(m) + 2, |m.spals|) == m.spals
    ensures forall i :: 0 <= i < |m.gpals| ==> GPalLaidOut(b, 12 + 52 * i, m.gpals[i])
    ensures forall i :: 0 <= i < |m.spals| ==> SPalLaidOut(b, 14 + 52 * |m.gpals| + 8 * i, m.spals[i])
  {
    hide GPalAt;
    hide SPalAt;
    hide GPalLaidOut;
    hide SPalLaidOut;
    forall i | 0 <= i < |m.gpals| ensures GPalLaidOut(b, 12 + 52 * i, m.gpals[i]) {
      assert ReadGPals(b, 12, |m.gpals|)[i] == GPalAt(b, 12 + 52 * i);
      GPalAtIff(b, 12 + 52 * i, m.gpals[i]);
    }
    forall i | 0 <= i < |m.spals| ensures SPalLaidOut(b, 14 + 52 * |m.gpals| + 8 * i, m.spals[i]) {
      assert ReadSPals(b, SCountAt(m) + 2, |m.spals|)[i] == SPalAt(b, 14 + 52 * |m.gpals| + 8 * i);
      SPalAtIff(b, 14 + 52 * |m.gpals| + 8 * i, m.spals[i]);
    }
  }

  /** What is written has that layout. */
  lemma SerializedIsLaidOut(b: seq<Byte>, m: Pals)
    requires Length(m) <= |b| && Fits(m)
    ensures LaidOut(Serialized(b, m), m)
  {
    hide *;
    var r := Serialized(b, m);
    PartsRead(b, m);
    SlotsRead(b, m);
    Sizes(m);
    SlotsLaidOut(r, m);
    WrittenWords(r, 0, m.mbId);
    WrittenWords(r, 2, m.packetId);
    WrittenWords(r, 10, |m.gpals|);
    WrittenWords(r, 12 + 52 * |m.gpals|, |m.spals|);
    LaidOutBy(r, m);
  }

  lemma Sizes(m: Pals)
    ensures Length(m) == 14 + 52 * |m.gpals| + 8 * |m.spals| && SCountAt(m) == 12 + 52 * |m.gpals|
    ensures Fits(m) ==> |m.gpals| <= 10 && |m.spals| <= 10
  {
  }

  lemma LaidOutBy(b: seq<Byte>, m: Pals)
    requires Fits(m) && 14 + 52 * |m.gpals| + 8 * |m.spals| <= |b|
    requires Word2At(b, 0, m.mbId) && Word8At(b, 2, m.packetId) && Word2At(b, 10, |m.gpals|)
    requires forall i :: 0 <= i < |m.gpals| ==> GPalLaidOut(b, 12 + 52 * i, m.gpals[i])
    requires Word2At(b, 12 + 52 * |m.gpals|, |m.spals|)
    requires forall i :: 0 <= i < |m.spals| ==> SPalLaidOut(b, 14 + 52 * |m.gpals| + 8 * i, m.spals[i])
    ensures LaidOut(b, m)
  {
    hide Word2At;
    hide Word8At;
    hide GPalLaidOut;
    hide SPalLaidOut;
  }

  /** Any buffer with that layout is read as the PALs it holds. */
  lemma LaidOutIsRead(b: seq<Byte>, m: Pals)
    requires LaidOut(b, m)
    ensures WellSized(b) && Deserialized(b) == m
  {
    hide Value;
    hide Word2At;
    hide Word8At;
    hide GPalLaidOut;
    hide SPalLaidOut;
    hide GPalAt;
    hide SPalAt;
    var g, s := |m.gpals|, |m.spals|;
    Word2Is(b, 0, m.mbId);
    Word8Is(b, 2, m.packetId);
    Word2Is(b, 10, g);
    Word2Is(b, 12 + 52 * g, s);
    forall i | 0 <= i < g ensures GPalAt(b, 12 + 52 * i) == m.gpals[i] {
      GPalAtIff(b, 12 + 52 * i, m.gpals[i]);
    }
    forall i | 0 <= i < s ensures SPalAt(b, 14 + 52 * g + 8 * i) == m.spals[i] {
      SPalAtIff(b, 14 + 52 * g + 8 * i, m.spals[i]);
    }
    assert ReadGPals(b, 12, g) == m.gpals && ReadSPals(b, 14 + 52 * g, s) == m.spals;
  }

  /** Nothing is written past the announced length, nor into the last two bytes of an spal's slot. */
  lemma WritesStayInside(b: seq<Byte>, m: Pals, i: nat)
    requires Length(m) <= |b|
    ensures Serialized(b, m)[Length(m)..] == b[Length(m)..]
    ensures i < |m.spals| ==>
              var lo := SCountAt(m) + 2 + SPAL_SIZE * i; Serialized(b, m)[lo + 6..lo + 8] == b[lo + 6..lo + 8]
  {
    hide Over;
    hide LE;
    hide WithGPals;
    hide WithSPals;
    SameFrom(b, m, Length(m), |b|);
    SPalsElsewhere(CountWritten(b, m), SCountAt(m) + 2, m.spals, Length(m), |b|);
    assert Serialized(b, m)[Length(m)..] == Serialized(b, m)[Length(m)..|b|] == b[Length(m)..|b|] == b[Length(m)..];
    if i < |m.spals| {
      var lo := SCountAt(m) + 2 + SPAL_SIZE * i;
      SPalSlot(CountWritten(b, m), SCountAt(m) + 2, m.spals, i);
      SameFrom(b, m, lo + 6, lo + 8);
    }
  }

  function CountWritten(b: seq<Byte>, m: Pals): (r: seq<Byte>)
    requires Length(m) <= |b|
    ensures |r| == |b| && Serialized(b, m) == WithSPals(r, SCountAt(m) + 2, m.spals)
  {
    Over(WithGPals(WithHead(b, m), 12, m.gpals), SCountAt(m), LE(|m.spals|, 2))
  }

  lemma SameFrom(b: seq<Byte>, m: Pals, lo: nat, hi: nat)
    requires Length(m) <= |b| && SCountAt(m) + 2 <= lo <= hi <= |b|
    ensures CountWritten(b, m)[lo..hi] == b[lo..hi]
  {
    hide LE;
    var h := WithHead(b, m);
    ReadElsewhere(b, 0, LE(m.mbId, 2), lo, hi);
    ReadElsewhere(Over(b, 0, LE(m.mbId, 2)), 2, LE(m.packetId, 8), lo, hi);
    ReadElsewhere(Over(Over(b, 0, LE(m.mbId, 2)), 2, LE(m.packetId, 8)), 10, LE(|m.gpals|, 2), lo, hi);
    hide Over;
    GPalsElsewhere(h, 12, m.gpals, lo, hi);
    ReadElsewhere(WithGPals(h, 12, m.gpals), SCountAt(m), LE(|m.spals|, 2), lo, hi);
  }

  // ---------------------------------------------------------------- the manager

  class PALSManager {
    var middleboxId: U16
    var packetId: U64
    var gpalIndex: nat
    var spalIndex: nat
    const gpalList: array<GPal>
    const spalList: array<SPal>

    ghost predicate Valid()
      reads this
    {
      gpalList.Length == PALS_SIZE && spalList.Length == PALS_SIZE && gpalIndex <= PALS_SIZE && spalIndex <= PALS_SIZE
    }

    ghost function Contents(): (m: Pals)
      requires Valid()
      reads this, gpalList, spalList
      ensures Fits(m)
    {
      Pals(middleboxId, packetId, gpalList[..gpalIndex], spalList[..spalIndex])
    }

    constructor (mbId: U16, packId: U64)
      ensures Valid() && fresh(gpalList) && fresh(spalList) && Contents() == Pals(mbId, packId, [], [])
    {
      middleboxId, packetId, gpalIndex, spalIndex := mbId, packId, 0, 0;
      gpalList := new GPal[PALS_SIZE](i => GPal(0, seq(50, j => 0)));
      spalList := new SPal[PALS_SIZE](i => SPal(0, 0));
    }

    // A full list has no room for another PAL.
    method AddGPal(g: GPal)
      requires Valid() && gpalIndex < PALS_SIZE
      modifies this`gpalIndex, gpalList
      ensures Valid() && Contents() == old(Contents()).(gpals := old(Contents()).gpals + [g])
    {
      gpalList[gpalIndex] := g;
      gpalIndex := gpalIndex + 1;
    }

    method AddSPal(p: SPal)
      requires Valid() && spalIndex < PALS_SIZE
      modifies this`spalIndex, spalList
      ensures Valid() && Contents() == old(Contents()).(spals := old(Contents()).spals + [p])
    {
      spalList[spalIndex] := p;
      spalIndex := spalIndex + 1;
    }

    /** Writes the PALs over the front of the buffer and announces how many bytes they take. */
    method Serialize(buf: array<Byte>) returns (len: U16)
      requires Valid() && Length(Contents()) <= buf.Length
      modifies buf
      ensures Contents() == old(Contents())
      ensures buf[..] == Serialized(old(buf[..]), Contents()) && len == Length(Contents())
      ensures LaidOut(buf[..], Contents()) && len == 14 + 52 * |Contents().gpals| + 8 * |Contents().spals|
    {
      SerializedIsLaidOut(buf[..], Contents());
      Sizes(Contents());
      hide *;
      len := WriteAll(buf);
    }

    method WriteAll(buf: array<Byte>) returns (len: U16)
      requires Valid() && Length(Contents()) <= buf.Length
      modifies buf
      ensures Contents() == old(Contents())
      ensures buf[..] == Serialized(old(buf[..]), Contents()) && len == Length(Contents())
    {
      hide Over;
      hide LE;
      hide WithGPals;
      hide WithSPals;
      Put(buf, 0, middleboxId, 2);
      Put(buf, 2, packetId, 8);
      var r := SerializeGPals(buf, 10);
      SerializeSPals(buf, r);
      len := GetSerializationLength();
    }

    method GetSerializationLength() returns (len: U16)
      requires Valid()
      ensures len == Length(Contents())
    {
      len := 2;
      len := len + 8;
      len := len + 2;
      len := len + gpalIndex * GPAL_SIZE;
      len := len + 2;
      len := len + spalIndex * SPAL_SIZE;
    }

    method SerializeGPals(buf: array<Byte>, at: nat) returns (end: nat)
      requires Valid() && at + 2 + GPAL_SIZE * gpalIndex <= buf.Length
      modifies buf
      ensures Contents() == old(Contents()) && end == at + 2 + GPAL_SIZE * gpalIndex
      ensures buf[..] == WithGPals(Over(old(buf[..]), at, LE(gpalIndex, 2)), at + 2, Contents().gpals)
    {
      hide Over;
      Put(buf, at, gpalIndex, 2);
      end := at + 2;
      ghost var start := buf[..];
      for i := 0 to gpalIndex
        invariant end == at + 2 + GPAL_SIZE * i
        invariant buf[..] == WithGPals(start, at + 2, gpalList[..i])
      {
        assert gpalList[..i + 1][..i] == gpalList[..i];
        SerializeGPal(gpalList[i], buf, end);
        end := end + GPAL_SIZE;
      }
    }

    method SerializeSPals(buf: array<Byte>, at: nat)
      requires Valid() && at + 2 + SPAL_SIZE * spalIndex <= buf.Length
      modifies buf
      ensures Contents() == old(Contents())
      ensures buf[..] == WithSPals(Over(old(buf[..]), at, LE(spalIndex, 2)), at + 2, Contents().spals)
    {
      hide Over;
      Put(buf, at, spalIndex, 2);
      var end := at + 2;
      ghost var start := buf[..];
      for i := 0 to spalIndex
        invariant end == at + 2 + SPAL_SIZE * i
        invariant buf[..] == WithSPals(start, at + 2, spalList[..i])
      {
        assert spalList[..i + 1][..i] == spalList[..i];
        SerializeSPal(spalList[i], buf, end);
        end := end + SPAL_SIZE;
      }
    }

    /** Takes over the PALs of a message. Slots past the announced counts keep what they held. */
    method Deserialize(buf: array<Byte>)
      requires Valid() && WellSized(buf[..])
      modifies this, gpalList, spalList
      ensures Valid() && Contents() == Deserialized(buf[..])
      ensures forall m :: LaidOut(buf[..], m) ==> Contents() == m
      ensures gpalList[gpalIndex..] == old(gpalList[..])[gpalIndex..]
      ensures spalList[spalIndex..] == old(spalList[..])[spalIndex..]
    {
      hide Value;
      Widths();
      ghost var b := buf[..];
      var mb := Get(buf, 0, 2);
      var pk := Get(buf, 2, 8);
      assert buf[0..2] == b[0..2] && buf[2..10] == b[2..10];
      middleboxId, packetId := mb, pk;
      var r := DeserializeGPals(buf, 10);
      DeserializeSPals(buf, r);
      forall m | LaidOut(buf[..], m) ensures Contents() == m {
        LaidOutIsRead(buf[..], m);
        hide LaidOut;
      }
    }

    method DeserializeGPals(buf: array<Byte>, at: nat) returns (end: nat)
      requires Valid() && at + 2 <= buf.Length && Value(buf[..][at..at + 2]) <= PALS_SIZE
      requires at + 2 + GPAL_SIZE * Value(buf[..][at..at + 2]) <= buf.Length
      modifies this`gpalIndex, gpalList
      ensures Valid() && gpalIndex == Value(buf[..][at..at + 2]) && end == at + 2 + GPAL_SIZE * gpalIndex
      ensures gpalList[..gpalIndex] == ReadGPals(buf[..], at + 2, gpalIndex)
      ensures gpalList[gpalIndex..] == old(gpalList[..])[gpalIndex..]
    {
      hide Value;
      hide GPalAt;
      assert buf[at..at + 2] == buf[..][at..at + 2];
      gpalIndex := Get(buf, at, 2);
      end := at + 2;
      for i := 0 to gpalIndex
        modifies gpalList
        invariant end == at + 2 + GPAL_SIZE * i
        invariant forall j :: 0 <= j < i ==> gpalList[j] == GPalAt(buf[..], at + 2 + GPAL_SIZE * j)
        invariant forall j :: i <= j < PALS_SIZE ==> gpalList[j] == old(gpalList[j])
      {
        gpalList[i] := DeserializeGPal(buf, end);
        end := end + GPAL_SIZE;
      }
    }

    method DeserializeSPals(buf: array<Byte>, at: nat)
      requires Valid() && at + 2 <= buf.Length && Value(buf[..][at..at + 2]) <= PALS_SIZE
      requires at + 2 + SPAL_SIZE * Value(buf[..][at..at + 2]) <= buf.Length
      modifies this`spalIndex, spalList
      ensures Valid() && spalIndex == Value(buf[..][at..at + 2])
      ensures spalList[..spalIndex] == ReadSPals(buf[..], at + 2, spalIndex)
      ensures spalList[spalIndex..] == old(spalList[..])[spalIndex..]
    {
      hide Value;
      hide SPalAt;
      assert buf[at..at + 2] == buf[..][at..at + 2];
      spalIndex := Get(buf, at, 2);
      var end := at + 2;
      for i := 0 to spalIndex
        modifies spalList
        invariant end == at + 2 + SPAL_SIZE * i
        invariant forall j :: 0 <= j < i ==> spalList[j] == SPalAt(buf[..], at + 2 + SPAL_SIZE * j)
        invariant forall j :: i <= j < PALS_SIZE ==> spalList[j] == old(spalList[j])
      {
        spalList[i] := DeserializeSPal(buf, end);
        end := end + SPAL_SIZE;
      }
    }
  }

  // ---- single slots

  method SerializeGPal(g: GPal, buf: array<Byte>, at: nat)
    requires at + GPAL_SIZE <= buf.Length
    modifies buf
    ensures buf[..] == Over(old(buf[..]), at, GPalBytes(g))
  {
    hide LE;
    Put(buf, at, g.varId, 2);
    OverTwice(old(buf[..]), at, LE(g.varId, 2), g.val);
    ghost var start := buf[..];
    for i := 0 to GPAL_VAL_SIZE
      invariant forall j :: at + 2 <= j < at + 2 + i ==> buf[j] == g.val[j - at - 2]
      invariant forall j :: 0 <= j < buf.Length && !(at + 2 <= j < at + 2 + i) ==> buf[j] == start[j]
    {
      buf[at + 2 + i] := g.val[i];
    }
    assert buf[..] == Over(start, at + 2, g.val);
  }

  method SerializeSPal(p: SPal, buf: array<Byte>, at: nat)
    requires at + 6 <= buf.Length
    modifies buf
    ensures buf[..] == Over(old(buf[..]), at, SPalBytes(p))
  {
    Put(buf, at, p.varId, 2);
    Put(buf, at + 2, p.seqNum, 4);
    OverTwice(old(buf[..]), at, LE(p.varId, 2), LE(p.seqNum, 4));
  }

  method DeserializeGPal(buf: array<Byte>, at: nat) returns (g: GPal)
    requires at + GPAL_SIZE <= buf.Length
    ensures g == GPalAt(buf[..], at)
  {
    hide Value;
    Widths();
    var varId := Get(buf, at, 2);
    assert buf[at..at + 2] == buf[..][at..at + 2];
    var val: seq<Byte> := [];
    for i := 0 to GPAL_VAL_SIZE
      invariant val == buf[..][at + 2..at + 2 + i]
    {
      val := val + [buf[at + 2 + i]];
    }
    g := GPal(varId, val);
  }

  method DeserializeSPal(buf: array<Byte>, at: nat) returns (p: SPal)
    requires at + 6 <= buf.Length
    ensures p == SPalAt(buf[..], at)
  {
    hide Value;
    Widths();
    var varId := Get(buf, at, 2);
    var seqNum := Get(buf, at + 2, 4);
    assert buf[at..at + 2] == buf[..][at..at + 2] && buf[at + 2..at + 6] == buf[..][at + 2..at + 6];
    p := SPal(varId, seqNum);
  }

  /** PALs that are added to one manager, written to a buffer and taken over by another arrive as they were. */
  method SendPals(mbId: U16, packId: U64, gpals: seq<GPal>, spals: seq<SPal>, buf: array<Byte>)
    returns (received: PALSManager)
    requires Fits(Pals(mbId, packId, gpals, spals)) && Length(Pals(mbId, packId, gpals, spals)) <= buf.Length
    modifies buf
    ensures fresh(received) && received.Valid() && received.Contents() == Pals(mbId, packId, gpals, spals)
  {
    var sender := Filled(mbId, packId, gpals, spals);
    ghost var before := buf[..];
    var _ := sender.Serialize(buf);
    RoundTrip(before, Pals(mbId, packId, gpals, spals));
    received := new PALSManager(0, 0);
    hide Serialized;
    hide Deserialized;
    received.Deserialize(buf);
  }

  method Filled(mbId: U16, packId: U64, gpals: seq<GPal>, spals: seq<SPal>) returns (m: PALSManager)
    requires Fits(Pals(mbId, packId, gpals, spals))
    ensures fresh(m) && m.Valid() && m.Contents() == Pals(mbId, packId, gpals, spals)
  {
    m := new PALSManager(mbId, packId);
    for i := 0 to |gpals|
      invariant fresh(m) && m.Valid() && fresh(m.gpalList) && fresh(m.spalList)
      invariant m.Contents() == Pals(mbId, packId, gpals[..i], [])
    {
      m.AddGPal(gpals[i]);
      assert gpals[..i + 1] == gpals[..i] + [gpals[i]];
    }
    assert gpals[..|gpals|] == gpals;
    for i := 0 to |spals|
      invariant fresh(m) && m.Valid() && fresh(m.spalList)
      invariant m.Contents() == Pals(mbId, packId, gpals, spals[..i])
    {
      m.AddSPal(spals[i]);
      assert spals[..i + 1] == spals[..i] + [spals[i]];
    }
    assert spals[..|spals|] == spals;
  }
}
