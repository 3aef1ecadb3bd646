/** The four passes of the watershed run one after the other on a fresh
    pointer array, and what the result means without reference to the passes:
    every white pixel ends up holding the smallest pixel index of a regional
    minimum; rain on a pixel with a lower neighbour follows the steepest
    descent, and rain on a plateau with a way down follows a shortest level
    path to it (which one, among equally short ones, is left open). */
module Watershed {

  import opened Grid
  import opened UnionFind
  import opened Rainfall
  import opened Basins

  /** No white neighbour of p is lower than p. */
  ghost predicate NoLowerNeighbour(t: Terrain, p: int)
    requires Valid(t) && 0 <= p < |t.alt|
  {
    forall n :: Neighbour(t, p, n) ==> t.alt[p] <= t.alt[n]
  }

  /** p is white and no pixel of its plateau (the white pixels of its altitude
      it can reach through white neighbours of that altitude) has a lower
      white neighbour: rain falling on p stays there. */
  ghost predicate RegionalMinimum(t: Terrain, p: int)
    requires Valid(t)
  {
    && p in t.white
    && forall q :: Connected(t, Whites(t), p, q) ==> 0 <= q < |t.alt| && NoLowerNeighbour(t, q)
  }

  /** p is the smallest pixel index of its regional minimum. */
  ghost predicate Representative(t: Terrain, p: int)
    requires Valid(t)
  {
    RegionalMinimum(t, p) && forall q :: Connected(t, Whites(t), p, q) ==> p <= q
  }

  /** What the first two passes leave, as their contracts state it. */
  ghost predicate Drained(t: Terrain, pt1: seq<int>, pt2: seq<int>, lvl: seq<nat>)
    requires Valid(t)
  {
    && |pt1| == |t.alt|
    && |pt2| == |t.alt|
    && |lvl| == |t.alt|
    && (forall p :: p in t.white ==> SteepestDescent(t, p, pt1[p]))
    && (forall p :: p in t.white && pt1[p] != -1 ==> pt2[p] == pt1[p])
    && (forall p :: p in t.white && pt1[p] == -1 && pt2[p] != -1 ==>
          Neighbour(t, p, pt2[p]) && t.alt[pt2[p]] == t.alt[p])
    && PlateausDrained(t, pt2)
    && Descending(t, pt2, lvl)
    && Nearest(t, pt1, pt2, lvl)
  }

  /** A walk through white pixels of one altitude that starts on a minimal
      plateau stays on it. */
  lemma {:induction false} WalkStaysOnPlateau(t: Terrain, pt1: seq<int>, pt2: seq<int>, lvl: seq<nat>, w: seq<int>, i: int)
    requires Valid(t) && Drained(t, pt1, pt2, lvl)
    requires Walk(t, Whites(t), w) && w[0] in Plateau(t, pt2)
    requires 0 <= i < |w|
    ensures w[i] in Plateau(t, pt2)
    decreases i
  {
    if i > 0 {
      WalkStaysOnPlateau(t, pt1, pt2, lvl, w, i - 1);
      assert !Stranded(t, pt2, w[i - 1], w[i]);
    }
  }

  /** Within a minimal plateau, connection through white pixels and through
      plateau pixels are the same thing. */
  lemma PlateauConnected(t: Terrain, pt1: seq<int>, pt2: seq<int>, lvl: seq<nat>, a: int, b: int)
    requires Valid(t) && Drained(t, pt1, pt2, lvl)
    requires a in Plateau(t, pt2)
    ensures Connected(t, Whites(t), a, b) <==> Connected(t, Plateau(t, pt2), a, b)
  {
    if Connected(t, Whites(t), a, b) {
      var w :| Walk(t, Whites(t), w) && w[0] == a && w[|w| - 1] == b;
      forall i | 0 <= i < |w|
        ensures w[i] in Plateau(t, pt2)
      {
        WalkStaysOnPlateau(t, pt1, pt2, lvl, w, i);
      }
      assert Walk(t, Plateau(t, pt2), w);
    }
    if Connected(t, Plateau(t, pt2), a, b) {
      var w :| Walk(t, Plateau(t, pt2), w) && w[0] == a && w[|w| - 1] == b;
      assert Walk(t, Whites(t), w);
    }
  }

  /** The pointer chains the first two passes leave: a pointer the first pass
      set goes to a lower neighbour at depth 0; one the second pass set goes
      to a level neighbour that has a pointer, one level shallower. */
  ghost predicate Chained(t: Terrain, pt1: seq<int>, pt2: seq<int>, lvl: seq<nat>)
    requires Valid(t)
  {
    && |pt1| == |t.alt| && |pt2| == |t.alt| && |lvl| == |t.alt|
    && (forall p :: p in t.white && pt1[p] != -1 ==>
          Neighbour(t, p, pt1[p]) && t.alt[pt1[p]] < t.alt[p] && pt2[p] == pt1[p] && lvl[p] == 0)
    && (forall p :: p in t.white && pt1[p] == -1 && pt2[p] != -1 ==>
          && Neighbour(t, p, pt2[p]) && t.alt[pt2[p]] == t.alt[p]
          && pt2[pt2[p]] != -1 && lvl[p] == lvl[pt2[p]] + 1)
  }

  lemma DrainedChained(t: Terrain, pt1: seq<int>, pt2: seq<int>, lvl: seq<nat>)
    requires Valid(t) && Drained(t, pt1, pt2, lvl)
    ensures Chained(t, pt1, pt2, lvl)
  {
    forall p | p in t.white && pt1[p] != -1
      ensures Neighbour(t, p, pt1[p]) && t.alt[pt1[p]] < t.alt[p]
    {
      assert SteepestDescent(t, p, pt1[p]);
    }
  }

  /** A white pixel the second pass resolved reaches, through lvl[p] white
      pixels of its altitude, a pixel with a lower neighbour. */
  lemma {:induction false} Outlet(t: Terrain, pt1: seq<int>, pt2: seq<int>, lvl: seq<nat>, p: int)
    returns (w: seq<int>)
    requires Valid(t) && Chained(t, pt1, pt2, lvl)
    requires p in t.white && pt2[p] != -1
    ensures Walk(t, Whites(t), w) && w[0] == p && |w| == lvl[p] + 1
    ensures 0 <= w[|w| - 1] < |t.alt| && !NoLowerNeighbour(t, w[|w| - 1])
    decreases lvl[p]
  {
    if pt1[p] != -1 {
      w := [p];
      assert Neighbour(t, p, pt1[p]) && lvl[p] == 0;
    } else {
      var q := pt2[p];
      assert Neighbour(t, p, q) && t.alt[q] == t.alt[p];
      assert pt2[q] != -1 && lvl[p] == lvl[q] + 1;
      var rest := Outlet(t, pt1, pt2, lvl, q);
      w := [p] + rest;
      WalkCons(t, Whites(t), p, rest);
    }
  }

  /** Rain on p reaches, in d steps through white pixels of p's altitude, a
      pixel with a lower neighbour. */
  ghost predicate DrainsWithin(t: Terrain, p: int, d: nat)
    requires Valid(t)
  {
    exists w :: Walk(t, Whites(t), w) && |w| == d + 1 && w[0] == p && 0 <= w[d] < |t.alt| && !NoLowerNeighbour(t, w[d])
  }

  /** d is the length of the shortest level path from p to a pixel with a
      lower neighbour: the distance to the nearest way down. */
  ghost predicate Distance(t: Terrain, p: int, d: nat)
    requires Valid(t)
  {
    DrainsWithin(t, p, d) && forall k: nat :: k < d ==> !DrainsWithin(t, p, k)
  }

  /** Any level path from a pixel to a way down is at least as long as the
      pixel's depth, and the pixel has a pointer after the second pass. */
  lemma {:induction false} DrainBound(t: Terrain, pt1: seq<int>, pt2: seq<int>, lvl: seq<nat>, w: seq<int>)
    requires Valid(t) && Drained(t, pt1, pt2, lvl)
    requires Walk(t, Whites(t), w) && 0 <= w[|w| - 1] < |t.alt| && !NoLowerNeighbour(t, w[|w| - 1])
    ensures pt2[w[0]] != -1 && lvl[w[0]] <= |w| - 1
    decreases |w|
  {
    var p := w[0];
    assert p in t.white;
    if |w| == 1 {
      assert pt1[p] != -1;
    } else {
      var rest := w[1..];
      assert forall i :: 0 <= i < |rest| ==> rest[i] == w[i + 1];
      assert Walk(t, Whites(t), rest);
      DrainBound(t, pt1, pt2, lvl, rest);
      var q := w[1];
      assert Neighbour(t, p, q) && t.alt[p] == t.alt[q];
      if pt1[p] == -1 {
        assert !Stranded(t, pt2, p, q);
      }
    }
  }

  /** A pixel rain on which drains within d level steps has a pointer after
      the second pass, and a depth of at most d. */
  lemma DrainsWithinBound(t: Terrain, pt1: seq<int>, pt2: seq<int>, lvl: seq<nat>, p: int, d: nat)
    requires Valid(t) && Drained(t, pt1, pt2, lvl)
    requires DrainsWithin(t, p, d)
    ensures 0 <= p < |t.alt| && pt2[p] != -1 && lvl[p] <= d
  {
    var w :| Walk(t, Whites(t), w) && |w| == d + 1 && w[0] == p && 0 <= w[d] < |t.alt| && !NoLowerNeighbour(t, w[d]);
    assert w[0] in Whites(t);
    DrainBound(t, pt1, pt2, lvl, w);
  }

  /** No level path from p to a way down is shorter than p's depth. */
  lemma DepthLowerBound(t: Terrain, pt1: seq<int>, pt2: seq<int>, lvl: seq<nat>, p: int)
    requires Valid(t) && Drained(t, pt1, pt2, lvl)
    requires p in t.white
    ensures forall d: nat :: DrainsWithin(t, p, d) ==> pt2[p] != -1 && lvl[p] <= d
  {
    forall d: nat | DrainsWithin(t, p, d)
      ensures pt2[p] != -1 && lvl[p] <= d
    {
      DrainsWithinBound(t, pt1, pt2, lvl, p, d);
    }
  }

  /** The depths of the second pass are the distances to the nearest way
      down, and the pixels it leaves at -1 have no way down at all. */
  lemma DepthIsDistance(t: Terrain, pt1: seq<int>, pt2: seq<int>, lvl: seq<nat>, p: int)
    requires Valid(t) && Drained(t, pt1, pt2, lvl)
    requires p in t.white
    ensures pt2[p] != -1 ==> Distance(t, p, lvl[p])
    ensures pt2[p] == -1 ==> forall d: nat :: !DrainsWithin(t, p, d)
  {
    DepthLowerBound(t, pt1, pt2, lvl, p);
    if pt2[p] != -1 {
      DrainedChained(t, pt1, pt2, lvl);
      var w := Outlet(t, pt1, pt2, lvl, p);
      assert w[lvl[p]] == w[|w| - 1];
    }
  }

  /** A walk extended at its start by a level neighbour is a walk. */
  lemma WalkCons(t: Terrain, P: set<int>, p: int, w: seq<int>)
    requires Valid(t) && Walk(t, P, w) && p in P
    requires Neighbour(t, p, w[0]) && t.alt[p] == t.alt[w[0]]
    ensures Walk(t, P, [p] + w)
  {
    var w' := [p] + w;
    assert forall i :: 1 <= i < |w'| ==> w'[i] == w[i - 1];
  }

  /** The pixels left at -1 by the second pass are exactly the regional
      minima. */
  lemma PlateauIsMinimum(t: Terrain, pt1: seq<int>, pt2: seq<int>, lvl: seq<nat>, p: int)
    requires Valid(t) && Drained(t, pt1, pt2, lvl)
    requires p in t.white
    ensures p in Plateau(t, pt2) <==> RegionalMinimum(t, p)
  {
    if p in Plateau(t, pt2) {
      forall q | Connected(t, Whites(t), p, q)
        ensures 0 <= q < |t.alt| && NoLowerNeighbour(t, q)
      {
        var w :| Walk(t, Whites(t), w) && w[0] == p && w[|w| - 1] == q;
        WalkStaysOnPlateau(t, pt1, pt2, lvl, w, |w| - 1);
      }
    } else {
      DrainedChained(t, pt1, pt2, lvl);
      var w := Outlet(t, pt1, pt2, lvl, p);
      assert Connected(t, Whites(t), p, w[|w| - 1]);
    }
  }

  /** The steepest descent from a pixel is unique. */
  lemma SteepestUnique(t: Terrain, p: int, q1: int, q2: int)
    requires Valid(t) && 0 <= p < |t.alt|
    requires SteepestDescent(t, p, q1) && SteepestDescent(t, p, q2)
    ensures q1 == q2
  {
    assert q1 != -1 ==> Neighbour(t, p, q1);
    assert q2 != -1 ==> Neighbour(t, p, q2);
  }

  /** What the four passes leave, as their contracts state it. */
  ghost predicate Settled(t: Terrain, pt1: seq<int>, pt2: seq<int>, lvl: seq<nat>, pt3: seq<int>, pt4: seq<int>)
    requires Valid(t)
  {
    Drained(t, pt1, pt2, lvl) && Joined(t, pt2, lvl, pt3, pt4)
  }

  /** What the last two passes leave. */
  ghost predicate Joined(t: Terrain, pt2: seq<int>, lvl: seq<nat>, pt3: seq<int>, pt4: seq<int>)
    requires Valid(t) && |pt2| == |t.alt| && |lvl| == |t.alt|
  {
    && |pt3| == |t.alt|
    && (forall i :: 0 <= i < |pt2| && i !in Plateau(t, pt2) ==> pt3[i] == pt2[i])
    && Forest(pt3, Id(|pt2|), Plateau(t, pt2))
    && Level(t, pt3, Plateau(t, pt2))
    && PlateauJoined(t, pt3, Plateau(t, pt2))
    && RootsConnected(t, Plateau(t, pt2), pt3, Plateau(t, pt2))
    && Forest(pt3, FlowRank(t, pt2, lvl), Whites(t))
    && |pt4| == |t.alt|
    && (forall p :: p in t.white ==> pt4[p] == RootOf(pt3, FlowRank(t, pt2, lvl), Whites(t), p))
  }

  /** On a minimal plateau the final value is the root of the third pass's
      tree. */
  lemma PlateauRoot(t: Terrain, pt1: seq<int>, pt2: seq<int>, lvl: seq<nat>, pt3: seq<int>, pt4: seq<int>, a: int)
    requires Valid(t) && Settled(t, pt1, pt2, lvl, pt3, pt4)
    requires a in Plateau(t, pt2)
    ensures pt4[a] == RootOf(pt3, Id(|pt2|), Plateau(t, pt2), a)
  {
    var rank, P := FlowRank(t, pt2, lvl), Plateau(t, pt2);
    assert a in t.white && a in Whites(t);
    assert Forest(pt3, rank, Whites(t)) && Forest(pt3, Id(|pt2|), P);
    assert pt4[a] == RootOf(pt3, rank, Whites(t), a);
    RootOfIndependent(pt3, rank, Whites(t), Id(|pt2|), P, a);
  }

  /** Each white pixel ends up at a pixel of a minimal plateau that holds
      itself and lies no higher. */
  lemma FinalRoot(t: Terrain, pt1: seq<int>, pt2: seq<int>, lvl: seq<nat>, pt3: seq<int>, pt4: seq<int>, p: int)
    requires Valid(t) && Settled(t, pt1, pt2, lvl, pt3, pt4)
    requires p in t.white
    ensures pt4[p] in Plateau(t, pt2) && pt4[pt4[p]] == pt4[p]
    ensures t.alt[pt4[p]] <= t.alt[p]
  {
    var rank := FlowRank(t, pt2, lvl);
    RootInPlateau(t, pt2, lvl, pt3, rank, p);
    var r := pt4[p];
    assert pt3[r] == r;
    assert RootOf(pt3, rank, Whites(t), r) == r;
    forall x | x in Whites(t)
      ensures t.alt[pt3[x]] <= t.alt[x]
    {
      if x !in Plateau(t, pt2) {
        assert Neighbour(t, x, pt2[x]);
      }
    }
    RootNotHigher(t, pt3, rank, Whites(t), p);
  }

  /** The final value is the smallest pixel of its regional minimum. */
  lemma FinalRepresentative(t: Terrain, pt1: seq<int>, pt2: seq<int>, lvl: seq<nat>, pt3: seq<int>, pt4: seq<int>, p: int)
    requires Valid(t) && Settled(t, pt1, pt2, lvl, pt3, pt4)
    requires p in t.white
    ensures Representative(t, pt4[p])
  {
    FinalRoot(t, pt1, pt2, lvl, pt3, pt4, p);
    var P := Plateau(t, pt2);
    var r := pt4[p];
    PlateauIsMinimum(t, pt1, pt2, lvl, r);
    assert RootOf(pt3, Id(|pt2|), P, r) == r;
    forall q | Connected(t, Whites(t), r, q)
      ensures r <= q
    {
      PlateauConnected(t, pt1, pt2, lvl, r, q);
      var w :| Walk(t, P, w) && w[0] == r && w[|w| - 1] == q;
      assert q in P;
      TreesAreComponents(t, pt2, pt3, r, q);
      assert Id(|pt2|)[q] == q;
    }
  }

  /** Rain on a pixel with a lower neighbour joins the basin of the lowest
      such neighbour. */
  lemma FinalSteepest(t: Terrain, pt1: seq<int>, pt2: seq<int>, lvl: seq<nat>, pt3: seq<int>, pt4: seq<int>, p: int, q: int)
    requires Valid(t) && Settled(t, pt1, pt2, lvl, pt3, pt4)
    requires p in t.white && q != -1 && SteepestDescent(t, p, q)
    ensures q in t.white && pt4[p] == pt4[q]
  {
    SteepestUnique(t, p, q, pt1[p]);
    assert pt3[p] == q && q != p;
  }

  /** The second pass points a pixel at distance d > 0 from the nearest way
      down at a level neighbour at distance d - 1. */
  lemma NearerNeighbour(t: Terrain, pt1: seq<int>, pt2: seq<int>, lvl: seq<nat>, p: int, d: nat)
    requires Valid(t) && Drained(t, pt1, pt2, lvl)
    requires p in t.white && Distance(t, p, d) && d > 0
    ensures pt1[p] == -1 && pt2[p] != -1
    ensures Neighbour(t, p, pt2[p]) && t.alt[pt2[p]] == t.alt[p] && DrainsWithin(t, pt2[p], d - 1)
  {
    DepthIsDistance(t, pt1, pt2, lvl, p);
    assert pt2[p] != -1 && d == lvl[p];
    var q := pt2[p];
    assert pt1[p] == -1 && Neighbour(t, p, q) && t.alt[q] == t.alt[p];
    DepthIsDistance(t, pt1, pt2, lvl, q);
  }

  /** A level neighbour of a pixel at distance d from the nearest way down
      that drains within d - 1 steps is at distance exactly d - 1: one step
      nearer. */
  lemma NearerIsDistance(t: Terrain, p: int, q: int, d: nat)
    requires Valid(t) && p in t.white && Distance(t, p, d) && d > 0
    requires Neighbour(t, p, q) && t.alt[q] == t.alt[p] && DrainsWithin(t, q, d - 1)
    ensures Distance(t, q, d - 1)
  {
    forall k: nat | k < d - 1
      ensures !DrainsWithin(t, q, k)
    {
      if DrainsWithin(t, q, k) {
        DrainsThroughNeighbour(t, p, q, k);
      }
    }
  }

  /** Rain that drains within k steps from a level neighbour of p drains
      within k + 1 steps from p. */
  lemma DrainsThroughNeighbour(t: Terrain, p: int, q: int, k: nat)
    requires Valid(t) && p in t.white
    requires Neighbour(t, p, q) && t.alt[q] == t.alt[p] && DrainsWithin(t, q, k)
    ensures DrainsWithin(t, p, k + 1)
  {
    var w :| Walk(t, Whites(t), w) && |w| == k + 1 && w[0] == q && 0 <= w[k] < |t.alt| && !NoLowerNeighbour(t, w[k]);
    WalkCons(t, Whites(t), p, w);
    var w' := [p] + w;
    assert w'[k + 1] == w[k];
  }

  /** A pixel the second pass resolved ends in the basin of the pixel it
      points at. */
  lemma FinalFollows(t: Terrain, pt1: seq<int>, pt2: seq<int>, lvl: seq<nat>, pt3: seq<int>, pt4: seq<int>, p: int)
    requires Valid(t) && Settled(t, pt1, pt2, lvl, pt3, pt4)
    requires p in t.white && pt1[p] == -1 && pt2[p] != -1
    ensures pt2[p] in t.white && pt4[p] == pt4[pt2[p]]
  {
    var q := pt2[p];
    assert Neighbour(t, p, q) && p !in Plateau(t, pt2);
    assert pt3[p] == q && q != p;
  }

  /** Rain on a pixel at distance d > 0 from the nearest way down joins the
      basin of a level neighbour one step nearer. */
  lemma FinalNearer(t: Terrain, pt1: seq<int>, pt2: seq<int>, lvl: seq<nat>, pt3: seq<int>, pt4: seq<int>, p: int, d: nat)
    requires Valid(t) && Settled(t, pt1, pt2, lvl, pt3, pt4)
    requires p in t.white && Distance(t, p, d) && d > 0
    ensures exists q :: Neighbour(t, p, q) && t.alt[q] == t.alt[p] && DrainsWithin(t, q, d - 1) && pt4[p] == pt4[q]
  {
    NearerNeighbour(t, pt1, pt2, lvl, p, d);
    FinalFollows(t, pt1, pt2, lvl, pt3, pt4, p);
  }

  /** A white pixel has a way down exactly when it is not on a regional
      minimum. */
  lemma FinalDrains(t: Terrain, pt1: seq<int>, pt2: seq<int>, lvl: seq<nat>, p: int)
    requires Valid(t) && Drained(t, pt1, pt2, lvl)
    requires p in t.white
    ensures !RegionalMinimum(t, p) <==> exists d: nat :: Distance(t, p, d)
  {
    PlateauIsMinimum(t, pt1, pt2, lvl, p);
    DepthIsDistance(t, pt1, pt2, lvl, p);
  }

  /** Pixels of regional minima end up with the same value exactly when they
      lie on the same regional minimum, and that value lies on it. */
  lemma FinalMinima(t: Terrain, pt1: seq<int>, pt2: seq<int>, lvl: seq<nat>, pt3: seq<int>, pt4: seq<int>, a: int, b: int)
    requires Valid(t) && Settled(t, pt1, pt2, lvl, pt3, pt4)
    requires RegionalMinimum(t, a) && RegionalMinimum(t, b)
    ensures Connected(t, Whites(t), a, pt4[a])
    ensures pt4[a] == pt4[b] <==> Connected(t, Whites(t), a, b)
  {
    var P := Plateau(t, pt2);
    PlateauIsMinimum(t, pt1, pt2, lvl, a);
    PlateauIsMinimum(t, pt1, pt2, lvl, b);
    PlateauRoot(t, pt1, pt2, lvl, pt3, pt4, a);
    PlateauRoot(t, pt1, pt2, lvl, pt3, pt4, b);
    assert Connected(t, P, a, RootOf(pt3, Id(|pt2|), P, a));
    PlateauConnected(t, pt1, pt2, lvl, a, pt4[a]);
    PlateauConnected(t, pt1, pt2, lvl, a, b);
    TreesAreComponents(t, pt2, pt3, a, b);
  }

  /** The four passes of `watershedRun` on a fresh (all zero) pointer array.
      Afterwards every white pixel holds the smallest pixel of a regional
      minimum, which holds itself and lies no higher; a pixel with a lower
      neighbour shares the value of its steepest descent; a pixel on a
      plateau with a way down shares the value of a level neighbour one step
      nearer that way (which one, when several are equally near, the
      contract leaves open); the white pixels with no way down are the
      regional minima; and two regional-minimum pixels share a value exactly
      when they lie on the same regional minimum. Other pixels keep 0. */
  method Passes(t: Terrain) returns (pt: seq<int>)
    requires Valid(t)
    ensures |pt| == |t.alt|
    ensures forall i :: 0 <= i < |pt| && i !in t.white ==> pt[i] == 0
    ensures forall p :: p in t.white ==> pt[p] in t.white && pt[pt[p]] == pt[p] && t.alt[pt[p]] <= t.alt[p]
    ensures forall p :: p in t.white ==> Representative(t, pt[p])
    ensures forall p, q :: p in t.white && q != -1 && SteepestDescent(t, p, q) ==> pt[p] == pt[q]
    ensures forall a :: RegionalMinimum(t, a) ==> Connected(t, Whites(t), a, pt[a])
    ensures forall a, b :: RegionalMinimum(t, a) && RegionalMinimum(t, b) ==>
      (pt[a] == pt[b] <==> Connected(t, Whites(t), a, b))
    ensures forall p :: p in t.white ==> (!RegionalMinimum(t, p) <==> exists d: nat :: Distance(t, p, d))
    ensures forall p, d: nat :: p in t.white && Distance(t, p, d) && d > 0 ==>
      exists q :: Neighbour(t, p, q) && t.alt[q] == t.alt[p] && DrainsWithin(t, q, d - 1) && pt[p] == pt[q]
  {
    ghost var pt1, pt2, lvl, pt3;
    pt, pt1, pt2, lvl, pt3 := Settle(t);
    SettledRoots(t, pt1, pt2, lvl, pt3, pt);
    SettledSteepest(t, pt1, pt2, lvl, pt3, pt);
    SettledMinima(t, pt1, pt2, lvl, pt3, pt);
    SettledNearer(t, pt1, pt2, lvl, pt3, pt);
  }

  /** The passes one after the other; the ghost results are the arrays
      between them and the depths of the second pass. */
  method Settle(t: Terrain) returns (pt: seq<int>, ghost pt1: seq<int>, ghost pt2: seq<int>, ghost lvl: seq<nat>, ghost pt3: seq<int>)
    requires Valid(t)
    ensures Settled(t, pt1, pt2, lvl, pt3, pt)
    ensures forall i :: 0 <= i < |pt| && i !in t.white ==> pt[i] == 0
  {
    var p1, p2, l := Drain(t);
    pt, pt3 := Join(t, p2, l);
    pt1, pt2, lvl := p1, p2, l;
  }

  /** The last two passes after the first two; the ghost result is the array
      between them. */
  method Join(t: Terrain, pt2: seq<int>, ghost lvl: seq<nat>) returns (pt4: seq<int>, ghost pt3: seq<int>)
    requires Valid(t) && |pt2| == |t.alt| && |lvl| == |t.alt|
    requires PlateausDrained(t, pt2) && Descending(t, pt2, lvl)
    ensures Joined(t, pt2, lvl, pt3, pt4)
    ensures forall i :: 0 <= i < |pt4| && i !in t.white ==> pt4[i] == pt2[i]
  {
    var p3 := ThirdPass(t, pt2);
    FlowForest(t, pt2, lvl, p3);
    pt4 := FourthPass(t, p3, FlowRank(t, pt2, lvl));
    pt3 := p3;
  }

  /** The first two passes on a fresh pointer array. */
  method Drain(t: Terrain) returns (pt1: seq<int>, pt2: seq<int>, ghost lvl: seq<nat>)
    requires Valid(t)
    ensures Drained(t, pt1, pt2, lvl)
    ensures forall i :: 0 <= i < |pt2| && i !in t.white ==> pt2[i] == 0
  {
    var zeros := seq(|t.alt|, i => 0);
    pt1 := FirstPass(t, zeros);
    SteepestPointsDownhill(t, pt1);
    pt2, lvl := SecondPass(t, pt1);
  }

  lemma SettledRoots(t: Terrain, pt1: seq<int>, pt2: seq<int>, lvl: seq<nat>, pt3: seq<int>, pt4: seq<int>)
    requires Valid(t) && Settled(t, pt1, pt2, lvl, pt3, pt4)
    ensures forall p :: p in t.white ==> pt4[p] in t.white && pt4[pt4[p]] == pt4[p] && t.alt[pt4[p]] <= t.alt[p]
    ensures forall p :: p in t.white ==> Representative(t, pt4[p])
  {
    forall p | p in t.white
      ensures pt4[p] in t.white && pt4[pt4[p]] == pt4[p] && t.alt[pt4[p]] <= t.alt[p]
      ensures Representative(t, pt4[p])
    {
      FinalRoot(t, pt1, pt2, lvl, pt3, pt4, p);
      FinalRepresentative(t, pt1, pt2, lvl, pt3, pt4, p);
    }
  }

  lemma SettledSteepest(t: Terrain, pt1: seq<int>, pt2: seq<int>, lvl: seq<nat>, pt3: seq<int>, pt4: seq<int>)
    requires Valid(t) && Settled(t, pt1, pt2, lvl, pt3, pt4)
    ensures forall p, q :: p in t.white && q != -1 && SteepestDescent(t, p, q) ==> pt4[p] == pt4[q]
  {
    forall p, q | p in t.white && q != -1 && SteepestDescent(t, p, q)
      ensures pt4[p] == pt4[q]
    {
      FinalSteepest(t, pt1, pt2, lvl, pt3, pt4, p, q);
    }
  }

  lemma SettledMinima(t: Terrain, pt1: seq<int>, pt2: seq<int>, lvl: seq<nat>, pt3: seq<int>, pt4: seq<int>)
    requires Valid(t) && Settled(t, pt1, pt2, lvl, pt3, pt4)
    ensures forall a :: RegionalMinimum(t, a) ==> Connected(t, Whites(t), a, pt4[a])
    ensures forall a, b :: RegionalMinimum(t, a) && RegionalMinimum(t, b) ==>
      (pt4[a] == pt4[b] <==> Connected(t, Whites(t), a, b))
  {
    forall a, b | RegionalMinimum(t, a) && RegionalMinimum(t, b)
      ensures pt4[a] == pt4[b] <==> Connected(t, Whites(t), a, b)
    {
      FinalMinima(t, pt1, pt2, lvl, pt3, pt4, a, b);
    }
    forall a | RegionalMinimum(t, a)
      ensures Connected(t, Whites(t), a, pt4[a])
    {
      FinalMinima(t, pt1, pt2, lvl, pt3, pt4, a, a);
    }
  }

  lemma SettledNearer(t: Terrain, pt1: seq<int>, pt2: seq<int>, lvl: seq<nat>, pt3: seq<int>, pt4: seq<int>)
    requires Valid(t) && Settled(t, pt1, pt2, lvl, pt3, pt4)
    ensures forall p :: p in t.white ==> (!RegionalMinimum(t, p) <==> exists d: nat :: Distance(t, p, d))
    ensures forall p, d: nat :: p in t.white && Distance(t, p, d) && d > 0 ==>
      exists q :: Neighbour(t, p, q) && t.alt[q] == t.alt[p] && DrainsWithin(t, q, d - 1) && pt4[p] == pt4[q]
  {
    forall p | p in t.white
      ensures !RegionalMinimum(t, p) <==> exists d: nat :: Distance(t, p, d)
    {
      FinalDrains(t, pt1, pt2, lvl, p);
    }
    forall p, d: nat | p in t.white && Distance(t, p, d) && d > 0
      ensures exists q :: Neighbour(t, p, q) && t.alt[q] == t.alt[p] && DrainsWithin(t, q, d - 1) && pt4[p] == pt4[q]
    {
      FinalNearer(t, pt1, pt2, lvl, pt3, pt4, p, d);
    }
  }
}
