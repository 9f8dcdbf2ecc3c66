/** Little-endian words in byte buffers. */
module ByteBuffers {
  import opened WireTypes

  function LE(v: nat, n: nat): (s: seq<Byte>)
    ensures |s| == n
  {
    if n == 0 then [] else [v % 256] + LE(v / 256, n - 1)
  }

  function Value(s: seq<Byte>): nat {
    if s == [] then 0 else s[0] + 256 * Value(s[1..])
  }

  function Pow256(n: nat): nat { if n == 0 then 1 else 256 * Pow256(n - 1) }

  /** A word that fits is read back as it was written. */
  lemma {:induction false} ValueOfLE(v: nat, n: nat)
    requires v < Pow256(n)
    ensures Value(LE(v, n)) == v
  {
    if n > 0 {
      ValueOfLE(v / 256, n - 1);
      assert LE(v, n)[1..] == LE(v / 256, n - 1);
    }
  }

  lemma {:induction false} ValueFits(s: seq<Byte>)
    ensures Value(s) < Pow256(|s|)
  {
    if s != [] {
      ValueFits(s[1..]);
    }
  }

  lemma Widths()
    ensures Pow256(1) == 0x100 && Pow256(2) == 0x1_0000 && Pow256(4) == 0x1_0000_0000
    ensures Pow256(8) == 0x1_0000_0000_0000_0000
  {
    assert Pow256(3) == 0x100_0000;
    assert Pow256(6) == 0x1_0000_0000_0000;
  }

  // ---- words byte by byte, lowest first

  function ByteAt(b: seq<Byte>, i: nat): int
    requires i < |b|
  {
    b[i]
  }

  predicate Word2At(b: seq<Byte>, at: nat, v: U16) {
    at + 2 <= |b| && v == ByteAt(b, at) + 0x100 * ByteAt(b, at + 1)
  }

  predicate Word4At(b: seq<Byte>, at: nat, v: U32) {
    && at + 4 <= |b|
    && v == ByteAt(b, at) + 0x100 * ByteAt(b, at + 1) + 0x1_0000 * ByteAt(b, at + 2) + 0x100_0000 * ByteAt(b, at + 3)
  }

  predicate Word8At(b: seq<Byte>, at: nat, v: U64) {
    && at + 8 <= |b|
    && v == ByteAt(b, at) + 0x100 * ByteAt(b, at + 1) + 0x1_0000 * ByteAt(b, at + 2) + 0x100_0000 * ByteAt(b, at + 3)
            + 0x1_0000_0000 * ByteAt(b, at + 4) + 0x100_0000_0000 * ByteAt(b, at + 5)
            + 0x1_0000_0000_0000 * ByteAt(b, at + 6) + 0x100_0000_0000_0000 * ByteAt(b, at + 7)
  }

  lemma ValueStep(b: seq<Byte>, at: nat, n: nat)
    requires at + n < |b|
    ensures Value(b[at..at + n + 1]) == ByteAt(b, at) + 0x100 * Value(b[at + 1..at + 1 + n])
  {
    assert b[at..at + n + 1][1..] == b[at + 1..at + 1 + n];
  }

  lemma ValueOfNone(b: seq<Byte>, at: nat)
    requires at <= |b|
    ensures Value(b[at..at]) == 0
  {
  }

  lemma Word2Is(b: seq<Byte>, at: nat, v: U16)
    requires at + 2 <= |b|
    ensures Word2At(b, at, v) <==> Value(b[at..at + 2]) == v
  {
    hide Value;
    ValueStep(b, at, 1);
    ValueStep(b, at + 1, 0);
    ValueOfNone(b, at + 2);
  }

  lemma Word4Is(b: seq<Byte>, at: nat, v: U32)
    requires at + 4 <= |b|
    ensures Word4At(b, at, v) <==> Value(b[at..at + 4]) == v
  {
    hide Value;
    ValueStep(b, at, 3);
    ValueStep(b, at + 1, 2);
    ValueStep(b, at + 2, 1);
    ValueStep(b, at + 3, 0);
    ValueOfNone(b, at + 4);
  }

  lemma Word8Is(b: seq<Byte>, at: nat, v: U64)
    requires at + 8 <= |b|
    ensures Word8At(b, at, v) <==> Value(b[at..at + 8]) == v
  {
    hide Value;
    ValueStep(b, at, 7);
    ValueStep(b, at + 1, 6);
    ValueStep(b, at + 2, 5);
    ValueStep(b, at + 3, 4);
    ValueStep(b, at + 4, 3);
    ValueStep(b, at + 5, 2);
    ValueStep(b, at + 6, 1);
    ValueStep(b, at + 7, 0);
    ValueOfNone(b, at + 8);
  }

  /** A word that was written stands there byte by byte. */
  lemma WrittenWords(b: seq<Byte>, at: nat, v: nat)
    ensures at + 2 <= |b| && v < 0x1_0000 && b[at..at + 2] == LE(v, 2) ==> Word2At(b, at, v)
    ensures at + 4 <= |b| && v < 0x1_0000_0000 && b[at..at + 4] == LE(v, 4) ==> Word4At(b, at, v)
    ensures at + 8 <= |b| && v < 0x1_0000_0000_0000_0000 && b[at..at + 8] == LE(v, 8) ==> Word8At(b, at, v)
  {
    Widths();
    hide LE;
    hide Value;
    hide Word2At;
    hide Word4At;
    hide Word8At;
    if v < 0x1_0000 && at + 2 <= |b| {
      ValueOfLE(v, 2);
      Word2Is(b, at, v);
    }
    if v < 0x1_0000_0000 && at + 4 <= |b| {
      ValueOfLE(v, 4);
      Word4Is(b, at, v);
    }
    if v < 0x1_0000_0000_0000_0000 && at + 8 <= |b| {
      ValueOfLE(v, 8);
      Word8Is(b, at, v);
    }
  }

  // A buffer with a piece written over it.
  function Over(b: seq<Byte>, at: nat, piece: seq<Byte>): (r: seq<Byte>)
    requires at + |piece| <= |b|
    ensures |r| == |b|
  {
    b[..at] + piece + b[at + |piece|..]
  }

  lemma ReadBack(b: seq<Byte>, at: nat, piece: seq<Byte>)
    requires at + |piece| <= |b|
    ensures Over(b, at, piece)[at..at + |piece|] == piece
  {
  }

  lemma ReadElsewhere(b: seq<Byte>, at: nat, piece: seq<Byte>, lo: nat, hi: nat)
    requires at + |piece| <= |b| && lo <= hi <= |b| && (hi <= at || at + |piece| <= lo)
    ensures Over(b, at, piece)[lo..hi] == b[lo..hi]
  {
  }

  lemma OverTwice(b: seq<Byte>, at: nat, p: seq<Byte>, q: seq<Byte>)
    requires at + |p| + |q| <= |b|
    ensures Over(Over(b, at, p), at + |p|, q) == Over(b, at, p + q)
  {
  }

  method Put(buf: array<Byte>, at: nat, v: nat, n: nat)
    requires at + n <= buf.Length
    modifies buf
    ensures buf[..] == Over(old(buf[..]), at, LE(v, n))
  {
    var bytes := LE(v, n);
    forall i | 0 <= i < n {
      buf[at + i] := bytes[i];
    }
  }

  method Get(buf: array<Byte>, at: nat, n: nat) returns (v: nat)
    requires at + n <= buf.Length
    ensures v == Value(buf[at..at + n]) < Pow256(n)
  {
    v := Value(buf[at..at + n]);
    ValueFits(buf[at..at + n]);
  }
}
