/** The hops of a compiled chain, and the walk of a packet when rules with the same switch and ingress port overwrite
    each other: the rule that acts at a hop is the last one installed for its key. */
module ChainRoute {
  import opened SwitchGraph

  type Name = string

  // At switch dpid a packet from inPort goes out of outPort; `visit` names the middlebox behind outPort, if any.
  datatype Hop = Hop(dpid: Dpid, inPort: Port, outPort: Port, visit: Option<Name>)

  predicate SameKey(a: Hop, b: Hop) { a.dpid == b.dpid && a.inPort == b.inPort }

  // A switch does not send a packet out of the port it came in by.
  predicate Hairpin(h: Hop) { h.inPort == h.outPort }

  function VisitOf(h: Hop): seq<Name> { if h.visit.Some? then [h.visit.value] else [] }

  // The hop, from i on, that was installed last for hop i's key.
  function LastFor(hops: seq<Hop>, i: nat): (j: nat)
    requires i < |hops|
    ensures i <= j < |hops| && SameKey(hops[j], hops[i])
    ensures forall k :: j < k < |hops| ==> !SameKey(hops[k], hops[i])
  {
    LastBelow(hops, i, |hops| - 1)
  }

  function LastBelow(hops: seq<Hop>, i: nat, k: nat): (j: nat)
    requires i <= k < |hops|
    ensures i <= j <= k && SameKey(hops[j], hops[i])
    ensures forall l :: j < l <= k ==> !SameKey(hops[l], hops[i])
  {
    if SameKey(hops[k], hops[i]) then k else LastBelow(hops, i, k - 1)
  }

  // The middleboxes a packet meets that arrives where hop i expects it.
  function Visits(hops: seq<Hop>, i: nat): seq<Name>
    requires i <= |hops|
    decreases |hops| - i
  {
    if i == |hops| then []
    else
      var j := LastFor(hops, i);
      if Hairpin(hops[j]) then [] else VisitOf(hops[j]) + Visits(hops, j + 1)
  }

  // Whether it then runs through to the last hop.
  predicate RunsThrough(hops: seq<Hop>, i: nat)
    requires i <= |hops|
    decreases |hops| - i
  {
    i == |hops| || (!Hairpin(hops[LastFor(hops, i)]) && RunsThrough(hops, LastFor(hops, i) + 1))
  }

  // The moves of a walk that does.
  function WalkLength(hops: seq<Hop>, i: nat): (n: nat)
    requires i <= |hops|
    ensures n <= |hops| - i
    decreases |hops| - i
  {
    if i == |hops| then 0 else 1 + WalkLength(hops, LastFor(hops, i) + 1)
  }

  // The middleboxes in chain order.
  function AllVisits(hops: seq<Hop>, i: nat): seq<Name>
    requires i <= |hops|
    decreases |hops| - i
  {
    if i == |hops| then [] else VisitOf(hops[i]) + AllVisits(hops, i + 1)
  }

  lemma VisitsStep(hops: seq<Hop>, i: nat)
    requires i < |hops|
    ensures var j := LastFor(hops, i);
            Visits(hops, i) == if Hairpin(hops[j]) then [] else VisitOf(hops[j]) + Visits(hops, j + 1)
  {
  }

  lemma AllVisitsStep(hops: seq<Hop>, i: nat)
    requires i < |hops|
    ensures AllVisits(hops, i) == VisitOf(hops[i]) + AllVisits(hops, i + 1)
  {
  }

  predicate DistinctKeys(hops: seq<Hop>) { forall i, j :: 0 <= i < j < |hops| ==> !SameKey(hops[i], hops[j]) }

  predicate NoHairpin(hops: seq<Hop>) { forall i :: 0 <= i < |hops| ==> !Hairpin(hops[i]) }

  // Two hops on one switch have a middlebox between them, and the last hop leads to a middlebox.
  predicate Segmented(hops: seq<Hop>) {
    && hops != [] && hops[|hops| - 1].visit.Some?
    && forall i, j :: 0 <= i < j < |hops| && hops[i].dpid == hops[j].dpid ==>
        exists e :: i <= e < j && hops[e].visit.Some?
  }

  lemma LastIsSelf(hops: seq<Hop>, i: nat)
    requires i < |hops| && DistinctKeys(hops)
    ensures LastFor(hops, i) == i
  {
    hide LastFor;
    assert SameKey(hops[LastFor(hops, i)], hops[i]);
  }

  // A walk whose hop i is its own last writer takes that hop.
  lemma WalkTakes(hops: seq<Hop>, i: nat)
    requires i < |hops| && LastFor(hops, i) == i && !Hairpin(hops[i])
    ensures Visits(hops, i) == VisitOf(hops[i]) + Visits(hops, i + 1)
    ensures RunsThrough(hops, i) == RunsThrough(hops, i + 1)
    ensures WalkLength(hops, i) == 1 + WalkLength(hops, i + 1)
  {
  }

  lemma {:induction false} CleanWalk(hops: seq<Hop>, i: nat)
    requires i <= |hops| && DistinctKeys(hops) && NoHairpin(hops)
    ensures Visits(hops, i) == AllVisits(hops, i) && RunsThrough(hops, i)
    ensures WalkLength(hops, i) == |hops| - i
    decreases |hops| - i
  {
    if i < |hops| {
      hide Visits;
      hide RunsThrough;
      hide WalkLength;
      hide LastFor;
      LastIsSelf(hops, i);
      WalkTakes(hops, i);
      CleanWalk(hops, i + 1);
    }
  }

  lemma NoVisitsAtEnd(hops: seq<Hop>)
    ensures Visits(hops, |hops|) == []
  {
  }

  lemma {:induction false} VisitsBounded(hops: seq<Hop>, i: nat)
    requires i <= |hops|
    ensures |Visits(hops, i)| <= |AllVisits(hops, i)|
    decreases |hops| - i, 1
  {
    hide LastFor;
    hide Visits;
    hide AllVisits;
    if i < |hops| {
      WalkBound(hops, i);
      SkippedVisits(hops, i, LastFor(hops, i));
    } else {
      NoVisitsAtEnd(hops);
    }
  }

  lemma {:induction false} SkippedVisits(hops: seq<Hop>, i: nat, j: nat)
    requires i <= j <= |hops|
    ensures |AllVisits(hops, i)| >= |AllVisits(hops, j)|
    ensures (exists e :: i <= e < j && hops[e].visit.Some?) ==> |AllVisits(hops, i)| > |AllVisits(hops, j)|
    decreases j - i
  {
    hide AllVisits;
    if i < j {
      SkippedVisits(hops, i + 1, j);
      AllVisitsStep(hops, i);
    }
  }

  lemma {:induction false} WalkBound(hops: seq<Hop>, i: nat)
    requires i < |hops|
    ensures var j := LastFor(hops, i);
            if Hairpin(hops[j]) then Visits(hops, i) == [] else |Visits(hops, i)| <= |AllVisits(hops, j)|
    decreases |hops| - i, 0
  {
    hide LastFor;
    hide Visits;
    hide AllVisits;
    VisitsBounded(hops, LastFor(hops, i) + 1);
    VisitsStep(hops, i);
    AllVisitsStep(hops, LastFor(hops, i));
  }

  lemma FullStepIsClean(hops: seq<Hop>, i: nat)
    requires Segmented(hops) && i < |hops| && Visits(hops, i) == AllVisits(hops, i)
    ensures LastFor(hops, i) == i && !Hairpin(hops[i]) && Visits(hops, i + 1) == AllVisits(hops, i + 1)
  {
    var j := LastFor(hops, i);
    WalkBound(hops, i);
    JumpSkipsVisit(hops, i, j);
    WalkTakes(hops, i);
    SameTail(VisitOf(hops[i]), Visits(hops, i + 1), AllVisits(hops, i + 1));
  }

  lemma JumpSkipsVisit(hops: seq<Hop>, i: nat, j: nat)
    requires Segmented(hops) && i <= j < |hops| && SameKey(hops[j], hops[i])
    ensures |AllVisits(hops, i)| > 0
    ensures j > i ==> |AllVisits(hops, i)| > |AllVisits(hops, j)|
  {
    SkippedVisits(hops, i, |hops|);
    assert hops[|hops| - 1].visit.Some?;
    if j > i {
      SkippedVisits(hops, i, j);
    }
  }

  lemma {:induction false} FullWalkIsClean(hops: seq<Hop>, i: nat, k: nat)
    requires Segmented(hops) && i <= k < |hops| && Visits(hops, i) == AllVisits(hops, i)
    ensures LastFor(hops, k) == k && !Hairpin(hops[k])
    decreases |hops| - i
  {
    hide LastFor;
    hide Visits;
    hide AllVisits;
    FullStepIsClean(hops, i);
    if k > i {
      FullWalkIsClean(hops, i + 1, k);
    }
  }

  lemma SameTail(a: seq<Name>, b: seq<Name>, c: seq<Name>)
    ensures a + b == a + c ==> b == c
  {
    assert b == (a + b)[|a|..] && c == (a + c)[|a|..];
  }

  /** The packet meets every middlebox of the chain in order exactly when no two hops share switch and ingress port
      and no hop returns a packet to the port it came from. */
  lemma WalkVisitsAllIff(hops: seq<Hop>)
    requires Segmented(hops)
    ensures Visits(hops, 0) == AllVisits(hops, 0) <==> DistinctKeys(hops) && NoHairpin(hops)
  {
    if DistinctKeys(hops) && NoHairpin(hops) {
      CleanWalk(hops, 0);
    }
    if Visits(hops, 0) == AllVisits(hops, 0) {
      forall k | 0 <= k < |hops| ensures LastFor(hops, k) == k && !Hairpin(hops[k]) {
        FullWalkIsClean(hops, 0, k);
      }
    }
  }

  // A walk that runs through makes the last visit, and fewer visits than the chain names unless it is clean.
  lemma {:induction false} RunEndsWithLast(hops: seq<Hop>, i: nat)
    requires i < |hops| && hops[|hops| - 1].visit.Some? && RunsThrough(hops, i)
    ensures Visits(hops, i) != [] && Visits(hops, i)[|Visits(hops, i)| - 1] == hops[|hops| - 1].visit.value
    decreases |hops| - i
  {
    hide Visits;
    hide RunsThrough;
    hide LastFor;
    var j := LastFor(hops, i);
    VisitsStep(hops, i);
    RunsStep(hops, i);
    if j + 1 < |hops| {
      RunEndsWithLast(hops, j + 1);
    } else {
      NoVisitsAtEnd(hops);
    }
  }

  lemma RunsStep(hops: seq<Hop>, i: nat)
    requires i < |hops|
    ensures RunsThrough(hops, i) <==> !Hairpin(hops[LastFor(hops, i)]) && RunsThrough(hops, LastFor(hops, i) + 1)
  {
  }

  lemma {:induction false} AllVisitsEnd(hops: seq<Hop>, i: nat)
    requires i < |hops| && hops[|hops| - 1].visit.Some?
    ensures AllVisits(hops, i) != [] && AllVisits(hops, i)[|AllVisits(hops, i)| - 1] == hops[|hops| - 1].visit.value
    decreases |hops| - i
  {
    hide AllVisits;
    AllVisitsCases(hops, i);
    if i + 1 < |hops| {
      AllVisitsEnd(hops, i + 1);
    } else {
      AllVisitsCases(hops, |hops|);
    }
  }

  lemma AllVisitsCases(hops: seq<Hop>, i: nat)
    requires i <= |hops|
    ensures i == |hops| ==> AllVisits(hops, i) == []
    ensures i < |hops| && hops[i].visit.None? ==> AllVisits(hops, i) == AllVisits(hops, i + 1)
    ensures i < |hops| && hops[i].visit.Some? ==> AllVisits(hops, i) == [hops[i].visit.value] + AllVisits(hops, i + 1)
  {
    if i < |hops| {
      AllVisitsStep(hops, i);
    }
    hide AllVisits;
  }

  lemma TailOfCons(x: Name, s: seq<Name>, n: nat)
    requires n <= |s|
    ensures ([x] + s)[n + 1..] == s[n..] && ([x] + s)[0..] == [x] + s && s[0..] == s
    ensures n < |s| ==> ([x] + s)[n + 1] == s[n]
  {
  }

  // The hop that makes the n-th visit from hop i on.
  lemma {:induction false} VisitPosition(hops: seq<Hop>, i: nat, n: nat) returns (e: nat)
    requires i <= |hops| && n < |AllVisits(hops, i)|
    ensures i <= e < |hops| && hops[e].visit == Some(AllVisits(hops, i)[n])
    ensures AllVisits(hops, e) == AllVisits(hops, i)[n..] && AllVisits(hops, e + 1) == AllVisits(hops, i)[n + 1..]
    decreases |hops| - i
  {
    hide *;
    AllVisitsCases(hops, i);
    if hops[i].visit.None? {
      e := VisitPosition(hops, i + 1, n);
    } else {
      TailOfCons(hops[i].visit.value, AllVisits(hops, i + 1), n);
      if n == 0 {
        e := i;
      } else {
        TailOfCons(hops[i].visit.value, AllVisits(hops, i + 1), n - 1);
        e := VisitPosition(hops, i + 1, n - 1);
      }
    }
  }

  lemma {:induction false} VisitsAreSuffix(hops: seq<Hop>, i: nat) returns (n: nat)
    requires i <= |hops|
    ensures n <= |AllVisits(hops, 0)| && AllVisits(hops, i) == AllVisits(hops, 0)[n..]
  {
    hide AllVisits;
    if i == 0 {
      n := 0;
    } else {
      var m := VisitsAreSuffix(hops, i - 1);
      AllVisitsStep(hops, i - 1);
      n := if hops[i - 1].visit.Some? then m + 1 else m;
    }
  }

  // ---------------------------------------------------------------- segments

  // The hops along a path of switches, entering the first from inPort and leaving the last by outPort to `visit`.
  function SegmentHops(g: Adjacency, path: seq<Dpid>, inPort: Port, outPort: Port, visit: Name): (hops: seq<Hop>)
    requires IsPath(g, path) && Mutual(g)
    ensures |hops| == |path|
    decreases |path|
  {
    if |path| == 1 then [Hop(path[0], inPort, outPort, Some(visit))]
    else
      PathTail(g, path);
      [Hop(path[0], inPort, FirstPort(g[path[0]], path[1]).value, None)]
      + SegmentHops(g, path[1..], FirstPort(g[path[1]], path[0]).value, outPort, visit)
  }

  lemma PathTail(g: Adjacency, path: seq<Dpid>)
    requires IsPath(g, path) && Mutual(g) && |path| > 1
    ensures IsPath(g, path[1..]) && Adjacent(g, path[0], path[1]) && Adjacent(g, path[1], path[0])
  {
    forall i | 0 <= i < |path[1..]| - 1 ensures Adjacent(g, path[1..][i], path[1..][i + 1]) {
      assert Adjacent(g, path[i + 1], path[i + 2]);
    }
  }

  // Port numbers at the two ends of the step from switch i to switch i + 1 of the path, and what each hop is.
  lemma {:induction false} SegmentHopsAre(g: Adjacency, path: seq<Dpid>, inPort: Port, outPort: Port, visit: Name,
                                          i: nat)
    requires IsPath(g, path) && Mutual(g) && i < |path|
    ensures var h := SegmentHops(g, path, inPort, outPort, visit)[i];
            && h.dpid == path[i]
            && (i == 0 ==> h.inPort == inPort)
            && (i > 0 ==> Adjacent(g, path[i], path[i - 1]) && h.inPort == FirstPort(g[path[i]], path[i - 1]).value)
            && (i < |path| - 1 ==> Adjacent(g, path[i], path[i + 1]) && h.visit == None
                                   && h.outPort == FirstPort(g[path[i]], path[i + 1]).value)
            && (i == |path| - 1 ==> h.visit == Some(visit) && h.outPort == outPort)
    decreases |path|
  {
    if |path| > 1 {
      PathTail(g, path);
      if i > 0 {
        SegmentHopsAre(g, path[1..], FirstPort(g[path[1]], path[0]).value, outPort, visit, i - 1);
      }
    }
  }

  lemma SegmentSwitchesDistinct(g: Adjacency, path: seq<Dpid>, inPort: Port, outPort: Port, visit: Name)
    requires IsPath(g, path) && Mutual(g) && Simple(path)
    ensures var hops := SegmentHops(g, path, inPort, outPort, visit);
            forall i, j :: 0 <= i < j < |hops| ==> hops[i].dpid != hops[j].dpid
  {
    var hops := SegmentHops(g, path, inPort, outPort, visit);
    forall i, j | 0 <= i < j < |hops| ensures hops[i].dpid != hops[j].dpid {
      SegmentHopsAre(g, path, inPort, outPort, visit, i);
      SegmentHopsAre(g, path, inPort, outPort, visit, j);
    }
  }

  /** Within one segment no two hops share a key: the path is simple. */
  lemma SegmentKeysDistinct(g: Adjacency, path: seq<Dpid>, inPort: Port, outPort: Port, visit: Name)
    requires IsPath(g, path) && Mutual(g) && Simple(path)
    ensures DistinctKeys(SegmentHops(g, path, inPort, outPort, visit))
  {
    SegmentSwitchesDistinct(g, path, inPort, outPort, visit);
  }

  lemma {:induction false} AllVisitsOfSegment(g: Adjacency, path: seq<Dpid>, inPort: Port, outPort: Port, visit: Name,
                                              i: nat)
    requires IsPath(g, path) && Mutual(g) && i < |path|
    ensures AllVisits(SegmentHops(g, path, inPort, outPort, visit), i) == [visit]
    decreases |path| - i
  {
    SegmentHopsAre(g, path, inPort, outPort, visit, i);
    if i < |path| - 1 {
      AllVisitsOfSegment(g, path, inPort, outPort, visit, i + 1);
    }
  }

  lemma {:induction false} AllVisitsAppend(a: seq<Hop>, b: seq<Hop>, i: nat)
    requires i <= |a|
    ensures AllVisits(a + b, i) == AllVisits(a, i) + AllVisits(b, 0)
    decreases |a| - i
  {
    if i < |a| {
      AllVisitsAppend(a, b, i + 1);
    } else {
      AllVisitsShift(a, b, 0);
    }
  }

  lemma {:induction false} AllVisitsShift(a: seq<Hop>, b: seq<Hop>, i: nat)
    requires i <= |b|
    ensures AllVisits(a + b, |a| + i) == AllVisits(b, i)
    decreases |b| - i
  {
    if i < |b| {
      AllVisitsShift(a, b, i + 1);
      AllVisitsStep(a + b, |a| + i);
      AllVisitsStep(b, i);
      hide AllVisits;
    }
  }
}
