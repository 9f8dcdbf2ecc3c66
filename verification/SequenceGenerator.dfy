/** The allocator of packet ids: a 28-bit counter that passes over the numbers whose middle 12 bits would make a
    reserved vlan id (section 9.6 of IEEE Std 802.1Q-2014), cut into three 12-bit tags and put together again. */
module SequenceGenerator {
  import opened PacketIds
  import opened Powers

  const MAX_SEQ_NUM := 268435456
  const FIRST_SEQ_NUM := 128

  // 4094 usable middle tags of 128 numbers each, below every one of the 512 inner prefixes.
  const BLOCK := 524032
  const PERIOD := 268304384

  // ---------------------------------------------------------------- bits

  function BitOr(a: nat, b: nat): nat {
    if a == 0 then b
    else if b == 0 then a
    else 2 * BitOr(a / 2, b / 2) + if a % 2 == 1 || b % 2 == 1 then 1 else 0
  }

  lemma OrDoubles(a: nat, b: nat, bit: nat)
    requires bit < 2
    ensures BitOr(2 * a, 2 * b + bit) == 2 * BitOr(a, b) + bit
  {
  }

  /** Or-ing a number into the zero bits below a shifted one concatenates the two. */
  lemma {:induction false} OrConcatenates(hi: nat, lo: nat, k: nat)
    requires lo < Pow2(k)
    ensures BitOr(hi * Pow2(k), lo) == hi * Pow2(k) + lo
  {
    if k == 0 {
      OrZero(hi);
    } else {
      hide BitOr;
      var half := hi * Pow2(k - 1);
      OrConcatenates(hi, lo / 2, k - 1);
      OrDoubles(half, lo / 2, lo % 2);
      ShiftDoubles(hi, k);
    }
  }

  lemma OrZero(a: nat)
    ensures BitOr(a, 0) == a
  {
  }

  lemma ShiftDoubles(hi: nat, k: nat)
    requires k > 0
    ensures hi * Pow2(k) == 2 * (hi * Pow2(k - 1))
  {
    var p := Pow2(k - 1);
    assert Pow2(k) == 2 * p;
  }

  lemma TagWidths()
    ensures Pow2(9) == 512 && Pow2(12) == 4096 && Pow2(24) == 16777216
  {
    assert Pow2(6) == 64;
    assert Pow2(12) == 4096;
    assert Pow2(18) == 262144;
  }

  // ---------------------------------------------------------------- valid numbers

  // Bits 7 to 18 are neither all zero nor all one.
  predicate IsValidSeqNum(candidate: nat) {
    var middle := candidate / 128 % 4096;
    !(middle == 4095 || middle == 0)
  }

  // The valid numbers below 2^28 in increasing order, over and over.
  function Nth(n: nat): nat {
    var k := n % PERIOD;
    k / BLOCK * 524288 + 128 + k % BLOCK
  }

  // The place of a valid number among the valid numbers.
  function Rank(v: nat): int { v / 524288 * BLOCK + v % 524288 - 128 }

  lemma BlockOf(n: nat)
    requires n < PERIOD
    ensures n / BLOCK < 512 && Nth(n) / 524288 == n / BLOCK && Nth(n) % 524288 == 128 + n % BLOCK
  {
  }

  lemma ValidByOffset(v: nat)
    ensures IsValidSeqNum(v) <==> 128 <= v % 524288 < 524160
  {
    assert v / 128 % 4096 == v % 524288 / 128;
  }

  /** The enumeration hits valid numbers below 2^28 only, and Rank undoes it. */
  lemma NthIsValid(n: nat)
    ensures Nth(n) < MAX_SEQ_NUM && IsValidSeqNum(Nth(n)) && Rank(Nth(n)) == n % PERIOD
  {
    BlockOf(n % PERIOD);
    ValidByOffset(Nth(n));
  }

  /** Every valid number below 2^28 is enumerated. */
  lemma NthIsComplete(v: nat)
    requires v < MAX_SEQ_NUM && IsValidSeqNum(v)
    ensures 0 <= Rank(v) < PERIOD && Nth(Rank(v)) == v
  {
    ValidByOffset(v);
    assert v / 524288 < 512;
    assert Rank(v) / BLOCK == v / 524288 && Rank(v) % BLOCK == v % 524288 - 128;
  }

  /** Two calls return the same number exactly when they are whole periods apart. */
  lemma NthRepeatsIff(m: nat, n: nat)
    ensures Nth(m) == Nth(n) <==> m % PERIOD == n % PERIOD
  {
    NthIsValid(m);
    NthIsValid(n);
  }

  /** Inside a period the numbers increase and no valid number lies between two consecutive ones. */
  lemma NthSkipsNothing(n: nat, v: nat)
    requires n % PERIOD < PERIOD - 1
    ensures Nth(n) < Nth(n + 1) && (Nth(n) < v < Nth(n + 1) ==> !IsValidSeqNum(v))
  {
    var k := n % PERIOD;
    assert (n + 1) % PERIOD == k + 1;
    BlockOf(k);
    BlockOf(k + 1);
    ValidByOffset(v);
    Successor(k);
  }

  lemma Successor(k: nat)
    requires k < PERIOD - 1
    ensures (k + 1) / BLOCK == if k % BLOCK == BLOCK - 1 then k / BLOCK + 1 else k / BLOCK
    ensures (k + 1) % BLOCK == if k % BLOCK == BLOCK - 1 then 0 else k % BLOCK + 1
  {
  }

  // ---- how many there are

  function Firsts(n: nat): set<nat> { set k: nat | k < n :: Nth(k) }

  lemma {:induction false} FirstsAreDistinct(n: nat)
    requires n <= PERIOD
    ensures |Firsts(n)| == n
  {
    hide Nth;
    if n > 0 {
      FirstsAreDistinct(n - 1);
      FirstsGrow(n - 1);
    }
  }

  lemma FirstsGrow(n: nat)
    requires n < PERIOD
    ensures Firsts(n + 1) == Firsts(n) + {Nth(n)} && Nth(n) !in Firsts(n)
  {
    hide Nth;
    forall k: nat | k < n ensures Nth(k) != Nth(n) {
      NthRepeatsIff(k, n);
    }
  }

  /** 268304384 numbers of 28 bits are valid. */
  lemma ValidNumbersCounted()
    ensures |set v: nat | v < MAX_SEQ_NUM && IsValidSeqNum(v)| == 268304384
  {
    var valid := set v: nat | v < MAX_SEQ_NUM && IsValidSeqNum(v);
    FirstsAreDistinct(PERIOD);
    forall v ensures v in valid <==> v in Firsts(PERIOD) {
      hide Nth;
      hide Rank;
      hide IsValidSeqNum;
      if v in valid {
        NthIsComplete(v);
      }
      if v in Firsts(PERIOD) {
        var k: nat :| k < PERIOD && Nth(k) == v;
        NthIsValid(k);
      }
    }
    assert valid == Firsts(PERIOD);
  }

  // ---------------------------------------------------------------- tags and ids

  // The tags are computed in 16 bits.
  function InnerVlan(producerId: nat, seqNum: nat): nat { BitOr(producerId * 512, seqNum / 524288 % 65536) % 65536 }

  function MiddleVlan(seqNum: nat): nat { seqNum / 128 % 65536 % 4096 }

  function OuterVlan(seqNum: nat): nat { BitOr(seqNum % 128 * 32 % 65536, 1) }

  function Unified(inner: nat, middle: nat, outer: nat): nat {
    BitOr(BitOr(inner * 16777216, middle * 4096), outer)
  }

  lemma InnerIs(producerId: nat, seqNum: nat)
    requires producerId < 128 && seqNum < MAX_SEQ_NUM
    ensures InnerVlan(producerId, seqNum) == producerId * 512 + seqNum / 524288
  {
    hide BitOr;
    TagWidths();
    OrConcatenates(producerId, seqNum / 524288, 9);
  }

  lemma MiddleIs(seqNum: nat)
    requires seqNum < MAX_SEQ_NUM
    ensures MiddleVlan(seqNum) == seqNum / 128 % 4096
  {
    var m := seqNum / 128;
    assert m % 65536 % 4096 == m % 4096;
  }

  lemma OuterIs(seqNum: nat)
    ensures OuterVlan(seqNum) == seqNum % 128 * 32 + 1
  {
    hide BitOr;
    assert Pow2(5) == 32;
    OrConcatenates(seqNum % 128, 1, 5);
  }

  lemma UnifiedIs(inner: nat, middle: nat, outer: nat)
    requires middle < 4096 && outer < 4096
    ensures Unified(inner, middle, outer) == inner * 16777216 + middle * 4096 + outer
  {
    hide BitOr;
    TagWidths();
    OrConcatenates(inner, middle * 4096, 24);
    var both := inner * 4096 + middle;
    assert both * 4096 == inner * 16777216 + middle * 4096;
    OrConcatenates(both, outer, 12);
  }

  function IdOf(producerId: nat, seqNum: nat): nat {
    Unified(InnerVlan(producerId, seqNum), MiddleVlan(seqNum), OuterVlan(seqNum))
  }

  lemma SeqNumParts(seqNum: nat, h: nat, m: nat, l: nat)
    requires h == seqNum / 524288 && m == seqNum / 128 % 4096 && l == seqNum % 128
    ensures seqNum == h * 524288 + m * 128 + l
  {
    var t := seqNum / 128;
    assert t / 4096 == h && seqNum == t * 128 + l;
  }

  /** The id carries producer, sequence number and version 1 in 3, 28 and 5 bits. All three tags have usable vlan
      ids. */
  lemma IdIsConcatenation(producerId: nat, seqNum: nat)
    requires 1 <= producerId <= 6 && seqNum < MAX_SEQ_NUM && IsValidSeqNum(seqNum)
    ensures IdOf(producerId, seqNum) == producerId * 0x2_0000_0000 + seqNum * 32 + 1
    ensures 512 <= InnerVlan(producerId, seqNum) < 3584 && 1 <= MiddleVlan(seqNum) <= 4094
    ensures 1 <= OuterVlan(seqNum) <= 4065
  {
    hide InnerVlan;
    hide MiddleVlan;
    hide OuterVlan;
    hide Unified;
    InnerIs(producerId, seqNum);
    MiddleIs(seqNum);
    OuterIs(seqNum);
    var h, m, l := seqNum / 524288, seqNum / 128 % 4096, seqNum % 128;
    SeqNumParts(seqNum, h, m, l);
    UnifiedIs(producerId * 512 + h, m, l * 32 + 1);
  }

  lemma BaseOfId(p: nat, v: nat, id: nat)
    requires p <= 6 && v < MAX_SEQ_NUM && id == p * 0x2_0000_0000 + v * 32 + 1
    ensures id < 0x1_0000_0000_0000_0000
    ensures Base(id) == p * 0x1000_0000 + v && Version(id) == 1
    ensures Generated(id)
  {
  }

  lemma SamePair(p: nat, v: nat, q: nat, w: nat)
    requires v < MAX_SEQ_NUM && w < MAX_SEQ_NUM
    ensures p * 0x1000_0000 + v == q * 0x1000_0000 + w <==> p == q && v == w
  {
  }

  /** Ids are generated ones in the sense the clean-up relies on, and two have the same base exactly when producer and
      sequence number agree. */
  lemma IdsAreGenerated(p: nat, v: nat, q: nat, w: nat)
    requires 1 <= p <= 6 && v < MAX_SEQ_NUM && IsValidSeqNum(v)
    requires 1 <= q <= 6 && w < MAX_SEQ_NUM && IsValidSeqNum(w)
    ensures IdOf(p, v) < 0x1_0000_0000_0000_0000 && Generated(IdOf(p, v)) && Version(IdOf(p, v)) == 1
    ensures IdOf(q, w) < 0x1_0000_0000_0000_0000
    ensures Base(IdOf(p, v)) == Base(IdOf(q, w)) <==> p == q && v == w
  {
    hide *;
    IdIsConcatenation(p, v);
    IdIsConcatenation(q, w);
    BaseOfId(p, v, IdOf(p, v));
    BaseOfId(q, w, IdOf(q, w));
    SamePair(p, v, q, w);
  }

  /** Two packets get the same base exactly when one producer numbered them whole periods apart. */
  lemma BasesRepeatIff(p: nat, m: nat, q: nat, n: nat)
    requires 1 <= p <= 6 && 1 <= q <= 6
    ensures IdOf(p, Nth(m)) < 0x1_0000_0000_0000_0000 && IdOf(q, Nth(n)) < 0x1_0000_0000_0000_0000
    ensures Generated(IdOf(p, Nth(m)))
    ensures Base(IdOf(p, Nth(m))) == Base(IdOf(q, Nth(n))) <==> p == q && m % PERIOD == n % PERIOD
  {
    hide IdOf;
    NthIsValid(m);
    NthIsValid(n);
    NthRepeatsIff(m, n);
    IdsAreGenerated(p, Nth(m), q, Nth(n));
  }

  // ---------------------------------------------------------------- the generator

  class PushPacketId {
    var seqNum: nat
    const producerId: nat

    // Numbers handed out so far.
    ghost var calls: nat

    ghost predicate Valid()
      reads this
    {
      seqNum == if calls == 0 then FIRST_SEQ_NUM else Nth(calls - 1) + 1
    }

    constructor (producerId: nat)
      ensures Valid() && calls == 0 && this.producerId == producerId
    {
      seqNum, this.producerId, calls := FIRST_SEQ_NUM, producerId, 0;
    }

    /** Call n, counted from 0, returns the n-th number of the enumeration. */
    method GetNexSeqNum() returns (r: nat)
      requires Valid()
      modifies this
      ensures Valid() && calls == old(calls) + 1
      ensures r == Nth(old(calls))
    {
      hide Nth;
      var isValid := false;
      NextCandidate(seqNum, calls);
      while !isValid
        invariant calls == old(calls)
        invariant Candidate(seqNum, calls)
        invariant isValid ==> seqNum == Nth(calls)
        decreases !isValid, if seqNum <= MAX_SEQ_NUM then MAX_SEQ_NUM + 256 - seqNum else 0, seqNum
      {
        if seqNum > MAX_SEQ_NUM {
          CandidateWraps(seqNum, calls);
          seqNum := 128;
        }
        CandidateStep(seqNum, calls);
        if IsValidSeqNum(seqNum) {
          isValid := true;
        } else {
          seqNum := seqNum + 128;
        }
      }
      r := seqNum;
      seqNum := seqNum + 1;
      calls := calls + 1;
    }

    /** The id of call n carries the n-th sequence number. */
    method CreateId() returns (id: nat)
      requires Valid()
      modifies this
      ensures Valid() && calls == old(calls) + 1
      ensures id == IdOf(producerId, Nth(old(calls)))
    {
      var nextSeqNum := GetNexSeqNum();
      id := Unified(InnerVlan(producerId, nextSeqNum), MiddleVlan(nextSeqNum), OuterVlan(nextSeqNum));
    }
  }

  // A value the search for number n may stand at: the number itself, or a gap before it that steps of 128 lead out of.
  ghost predicate Candidate(s: nat, n: nat) {
    || s == Nth(n)
    || (s % 524288 == 524160 && s < MAX_SEQ_NUM && Nth(n) == (if s + 256 > MAX_SEQ_NUM then 128 else s + 256))
    || (s % 524288 == 0 && 0 < s <= MAX_SEQ_NUM && Nth(n) == (if s == MAX_SEQ_NUM then 128 else s + 128))
    || (s == MAX_SEQ_NUM + 128 && Nth(n) == 128)
  }

  lemma NextCandidate(s: nat, n: nat)
    requires s == if n == 0 then FIRST_SEQ_NUM else Nth(n - 1) + 1
    ensures Candidate(s, n)
  {
    if n > 0 {
      var k := (n - 1) % PERIOD;
      SamePlace(n - 1, k);
      if k < PERIOD - 1 {
        SamePlace(n, k + 1);
        AfterPlace(k);
      } else {
        SamePlace(n, 0);
      }
    }
  }

  lemma SamePlace(n: nat, k: nat)
    requires k == n % PERIOD
    ensures Nth(n) == Nth(k) && (n + 1) % PERIOD == if k == PERIOD - 1 then 0 else k + 1
  {
  }

  lemma AfterPlace(k: nat)
    requires k < PERIOD - 1
    ensures Candidate(Nth(k) + 1, k + 1)
  {
    BlockOf(k);
    Successor(k);
    BlockOf(k + 1);
  }

  lemma CandidateWraps(s: nat, n: nat)
    requires Candidate(s, n) && s > MAX_SEQ_NUM
    ensures Candidate(128, n)
  {
    NthIsValid(n);
    hide Nth;
  }

  lemma CandidateStep(s: nat, n: nat)
    requires Candidate(s, n) && s <= MAX_SEQ_NUM
    ensures if IsValidSeqNum(s) then s == Nth(n) else Candidate(s + 128, n)
  {
    NthIsValid(n);
    ValidByOffset(s);
    hide Nth;
  }
}
