/** The first two passes of the pointer-based watershed (rainfall) of Bieniek
    and Moga: every white pixel points at a lower neighbour, and pixels of a
    plateau that has a way down point, breadth first, towards that way down.
    -1 marks a pixel that has no pointer yet. */
module Rainfall {

  import opened Sorting
  import opened Grid
  import opened Neighbours

  /** q is what the first pass stores for p: -1 when no neighbour is strictly
      lower, otherwise the lowest neighbour, the smallest index among equally
      low ones. */
  ghost predicate SteepestDescent(t: Terrain, p: int, q: int)
    requires Valid(t) && 0 <= p < |t.alt|
  {
    if q == -1 then
      forall n :: Neighbour(t, p, n) ==> t.alt[p] <= t.alt[n]
    else
      && Neighbour(t, p, q)
      && t.alt[q] < t.alt[p]
      && forall n :: Neighbour(t, p, n) ==> t.alt[q] < t.alt[n] || (t.alt[q] == t.alt[n] && q <= n)
  }

  /** The body of `firstPass` for one pixel p: scan p's neighbours in
      ascending order, keep the first strictly lowest one below p. */
  method LowestNeighbour(t: Terrain, p: int) returns (q: int)
    requires Valid(t) && 0 <= p < |t.alt|
    ensures SteepestDescent(t, p, q)
  {
    var neis := GetNeighbours(t, p);
    assert forall i :: 0 <= i < |neis| ==> 0 <= neis[i] < |t.alt| && Neighbour(t, p, neis[i]);
    var low := p;
    ghost var at := -1;
    var k := 0;
    while k < |neis|
      invariant 0 <= k <= |neis|
      invariant LowestSoFar(t, p, neis, k, low, at)
    {
      var n := neis[k];
      LowestStep(t, p, neis, k, low, at);
      if t.alt[n] < t.alt[p] && t.alt[n] < t.alt[low] {
        low := n;
        at := k;
      }
      k := k + 1;
    }
    LowestDone(t, p, neis, low, at);
    q := if low != p then low else -1;
  }

  /** What the scan of `firstPass` knows after the first k neighbours: low is
      p while none was lower than p; otherwise low is neis[at], lower than p,
      and the first of the lowest seen so far. */
  ghost predicate LowestSoFar(t: Terrain, p: int, neis: seq<int>, k: int, low: int, at: int)
    requires Valid(t) && 0 <= p < |t.alt| && 0 <= k <= |neis|
    requires forall i :: 0 <= i < |neis| ==> 0 <= neis[i] < |t.alt|
  {
    && (low == p || Neighbour(t, p, low))
    && (low == p ==> at == -1 && forall i :: 0 <= i < k ==> t.alt[p] <= t.alt[neis[i]])
    && (low != p ==> 0 <= at < k && neis[at] == low && t.alt[low] < t.alt[p])
    && (low != p ==> forall i :: 0 <= i < k ==>
          t.alt[low] < t.alt[neis[i]] || (t.alt[low] == t.alt[neis[i]] && low <= neis[i]))
  }

  /** One neighbour more: a neighbour lower than p and than low replaces low. */
  lemma LowestStep(t: Terrain, p: int, neis: seq<int>, k: int, low: int, at: int)
    requires Valid(t) && 0 <= p < |t.alt| && 0 <= k < |neis| && StrictlyIncreasing(neis)
    requires forall i :: 0 <= i < |neis| ==> 0 <= neis[i] < |t.alt| && Neighbour(t, p, neis[i])
    requires LowestSoFar(t, p, neis, k, low, at)
    ensures 0 <= low < |t.alt| && 0 <= neis[k] < |t.alt|
    ensures var n := neis[k];
      if t.alt[n] < t.alt[p] && t.alt[n] < t.alt[low] then LowestSoFar(t, p, neis, k + 1, n, k)
      else LowestSoFar(t, p, neis, k + 1, low, at)
  {
    assert Neighbour(t, p, neis[k]);
  }

  /** After the scan, low (or -1 when it is still p) is p's steepest descent. */
  lemma LowestDone(t: Terrain, p: int, neis: seq<int>, low: int, at: int)
    requires Valid(t) && 0 <= p < |t.alt|
    requires forall n :: n in neis <==> Neighbour(t, p, n)
    requires forall i :: 0 <= i < |neis| ==> 0 <= neis[i] < |t.alt| && Neighbour(t, p, neis[i])
    requires LowestSoFar(t, p, neis, |neis|, low, at)
    ensures SteepestDescent(t, p, if low != p then low else -1)
  {
    if low != p {
      assert low in neis;
    }
  }


  /** `firstPass`: points each white pixel at its lowest strictly lower
      neighbour, or stores -1; other pixels keep their value. */
  method FirstPass(t: Terrain, pt: seq<int>) returns (pt': seq<int>)
    requires Valid(t) && |pt| == |t.alt|
    ensures |pt'| == |pt|
    ensures forall i :: 0 <= i < |pt| && i !in t.white ==> pt'[i] == pt[i]
    ensures forall p :: p in t.white ==> SteepestDescent(t, p, pt'[p])
  {
    pt' := pt;
    var j := 0;
    while j < |t.white|
      invariant 0 <= j <= |t.white|
      invariant |pt'| == |pt|
      invariant forall i :: 0 <= i < |pt| && i !in t.white ==> pt'[i] == pt[i]
      invariant forall k :: 0 <= k < j ==> SteepestDescent(t, t.white[k], pt'[t.white[k]])
    {
      var p := t.white[j];
      var q := LowestNeighbour(t, p);
      ghost var before := pt';
      pt' := pt'[p := q];
      forall k | 0 <= k < j
        ensures pt'[t.white[k]] == before[t.white[k]]
      {
        assert t.white[k] < p;
      }
      j := j + 1;
    }
    forall p | p in t.white
      ensures SteepestDescent(t, p, pt'[p])
    {
      var k :| 0 <= k < |t.white| && t.white[k] == p;
    }
  }

  /** The pointers the first pass leaves: -1, or a strictly lower neighbour. */
  ghost predicate PointsDownhill(t: Terrain, pt: seq<int>)
    requires Valid(t) && |pt| == |t.alt|
  {
    forall p :: p in t.white ==> pt[p] == -1 || (Neighbour(t, p, pt[p]) && t.alt[pt[p]] < t.alt[p])
  }

  lemma SteepestPointsDownhill(t: Terrain, pt: seq<int>)
    requires Valid(t) && |pt| == |t.alt|
    requires forall p :: p in t.white ==> SteepestDescent(t, p, pt[p])
    ensures PointsDownhill(t, pt)
  {
  }

  /** The pointers the second pass leaves: each goes to a neighbour that is
      lower, or that is as high, already has a pointer, and has a smaller
      depth lvl (how deep in the breadth-first drain it was resolved; Nearest
      ties the depths to the distance to the way down). */
  ghost predicate Descending(t: Terrain, pt: seq<int>, lvl: seq<nat>)
    requires Valid(t) && |pt| == |t.alt|
  {
    && |lvl| == |pt|
    && forall p :: p in t.white && pt[p] != -1 ==>
         && Neighbour(t, p, pt[p])
         && (|| t.alt[pt[p]] < t.alt[p]
             || (t.alt[pt[p]] == t.alt[p] && pt[pt[p]] != -1 && lvl[pt[p]] < lvl[p]))
  }

  /** p has no pointer although its neighbour m, as high as p, has one. */
  ghost predicate Stranded(t: Terrain, pt: seq<int>, p: int, m: int)
    requires Valid(t) && |pt| == |t.alt| && 0 <= p < |t.alt|
  {
    pt[p] == -1 && Neighbour(t, p, m) && t.alt[m] == t.alt[p] && pt[m] != -1
  }

  /** No white pixel is stranded: every pixel still at -1 lies on a plateau
      with no way down, a minimal plateau. */
  ghost predicate PlateausDrained(t: Terrain, pt: seq<int>)
    requires Valid(t) && |pt| == |t.alt|
  {
    forall p, m :: p in t.white ==> !Stranded(t, pt, p, m)
  }

  /** Some queued pixel is a neighbour of p as high as p. */
  ghost predicate HasOutlet(t: Terrain, fifo: seq<int>, p: int)
    requires Valid(t) && 0 <= p < |t.alt|
  {
    exists f :: f in fifo && Neighbour(t, p, f) && t.alt[f] == t.alt[p]
  }

  /** `secondPass`: resolves the plateaus that have a way down. Pointers that
      were set stay; a -1 pixel either stays -1 or now points at a neighbour
      of its own altitude; afterwards no -1 pixel borders a resolved pixel of
      its altitude; on the first pass's output the pointers descend; and each
      pixel it resolves points at a neighbour one level shallower, no deeper
      than any of its resolved level neighbours. */
  method SecondPass(t: Terrain, pt: seq<int>) returns (pt': seq<int>, ghost lvl: seq<nat>)
    requires Valid(t) && |pt| == |t.alt|
    ensures |pt'| == |pt|
    ensures forall i :: 0 <= i < |pt| && i !in t.white ==> pt'[i] == pt[i]
    ensures forall p :: p in t.white && pt[p] != -1 ==> pt'[p] == pt[p]
    ensures forall p :: p in t.white && pt[p] == -1 && pt'[p] != -1 ==>
      Neighbour(t, p, pt'[p]) && t.alt[pt'[p]] == t.alt[p]
    ensures PlateausDrained(t, pt')
    ensures PointsDownhill(t, pt) ==> Descending(t, pt', lvl)
    ensures |lvl| == |pt| && Nearest(t, pt, pt', lvl)
  {
    var fifo := SeedQueue(t, pt);
    pt', lvl := DrainQueue(t, pt, fifo);
  }

  /** The first loop of `secondPass`: for each -1 pixel, queue its first
      resolved neighbour of the same altitude, if any. */
  method SeedQueue(t: Terrain, pt: seq<int>) returns (fifo: seq<int>)
    requires Valid(t) && |pt| == |t.alt|
    ensures forall f :: f in fifo ==> f in t.white && pt[f] != -1
    ensures forall p, m :: p in t.white && Stranded(t, pt, p, m) ==> HasOutlet(t, fifo, p)
  {
    fifo := [];
    var j := 0;
    while j < |t.white|
      invariant 0 <= j <= |t.white|
      invariant forall f :: f in fifo ==> f in t.white && pt[f] != -1
      invariant forall p, m :: p in t.white[..j] && Stranded(t, pt, p, m) ==> HasOutlet(t, fifo, p)
    {
      var p := t.white[j];
      if pt[p] == -1 {
        var neis := GetNeighbours(t, p);
        var k := 0;
        var found := false;
        while k < |neis| && !found
          invariant 0 <= k <= |neis|
          invariant forall f :: f in fifo ==> f in t.white && pt[f] != -1
          invariant forall q, m :: q in t.white[..j] && Stranded(t, pt, q, m) ==> HasOutlet(t, fifo, q)
          invariant found ==> HasOutlet(t, fifo, p)
          invariant !found ==> forall i :: 0 <= i < k ==> !(pt[neis[i]] != -1 && t.alt[neis[i]] == t.alt[p])
        {
          var n := neis[k];
          if pt[n] != -1 && t.alt[n] == t.alt[p] {
            fifo := fifo + [n];
            assert n in fifo && Neighbour(t, p, n);
            found := true;
          }
          k := k + 1;
        }
        forall m | Stranded(t, pt, p, m)
          ensures HasOutlet(t, fifo, p)
        {
          assert m in neis;
        }
      }
      assert t.white[..j + 1] == t.white[..j] + [p];
      j := j + 1;
    }
    assert t.white[..j] == t.white;
  }

  /** What the queue-draining loop of `secondPass` keeps true, relative to its
      input pt0: only -1 pixels change, each to a resolved neighbour of its own
      altitude; queued pixels are resolved; on the first pass's output the
      pointers descend. */
  ghost predicate Progress(t: Terrain, pt0: seq<int>, pt: seq<int>, lvl: seq<nat>, fifo: seq<int>)
    requires Valid(t) && |pt0| == |t.alt|
  {
    && |pt| == |pt0|
    && |lvl| == |pt0|
    && (forall i :: 0 <= i < |pt| && i !in t.white ==> pt[i] == pt0[i])
    && (forall p :: p in t.white && pt0[p] != -1 ==> pt[p] == pt0[p])
    && (forall p :: p in t.white && pt0[p] == -1 && pt[p] != -1 ==>
          Neighbour(t, p, pt[p]) && t.alt[pt[p]] == t.alt[p] && pt[pt[p]] != -1)
    && (forall f :: f in fifo ==> f in t.white && pt[f] != -1)
    && (PointsDownhill(t, pt0) ==> Descending(t, pt, lvl))
  }

  /** Some queued pixel is a neighbour of p as high as p, at depth at most b. */
  ghost predicate OutletWithin(t: Terrain, lvl: seq<nat>, fifo: seq<int>, p: int, b: int)
    requires Valid(t) && |lvl| == |t.alt| && 0 <= p < |t.alt|
  {
    exists f :: f in fifo && Neighbour(t, p, f) && t.alt[f] == t.alt[p] && lvl[f] <= b
  }

  /** The depths measure the distance, through pixels of one altitude, to
      the nearest way down: a pixel that had a pointer has depth 0; a pixel
      the second pass resolved lies one deeper than the pixel it points at,
      and at most one deeper than any resolved neighbour of its altitude. */
  ghost predicate Nearest(t: Terrain, pt0: seq<int>, pt: seq<int>, lvl: seq<nat>)
    requires Valid(t) && |pt0| == |t.alt| && |pt| == |t.alt| && |lvl| == |t.alt|
  {
    && (forall p :: p in t.white && pt0[p] != -1 ==> lvl[p] == 0)
    && (forall p :: p in t.white && pt0[p] == -1 && pt[p] != -1 ==>
          0 <= pt[p] < |t.alt| && lvl[p] == lvl[pt[p]] + 1)
    && (forall p, m ::
          p in t.white && pt0[p] == -1 && pt[p] != -1 && Neighbour(t, p, m) && t.alt[m] == t.alt[p] && pt[m] != -1
          ==> lvl[p] <= lvl[m] + 1)
  }

  /** The queue holds depths L and L + 1 only, in ascending order. */
  ghost predicate Queued(t: Terrain, lvl: seq<nat>, fifo: seq<int>, L: nat)
    requires Valid(t) && |lvl| == |t.alt|
  {
    && (forall i :: 0 <= i < |fifo| ==> 0 <= fifo[i] < |t.alt| && L <= lvl[fifo[i]] <= L + 1)
    && (forall i, j :: 0 <= i < j < |fifo| && 0 <= fifo[i] < |t.alt| && 0 <= fifo[j] < |t.alt| ==>
          lvl[fifo[i]] <= lvl[fifo[j]])
  }

  /** Every resolved pixel lies at depth at most L + 1. */
  ghost predicate Capped(t: Terrain, pt: seq<int>, lvl: seq<nat>, L: nat)
    requires Valid(t) && |pt| == |t.alt| && |lvl| == |t.alt|
  {
    forall p :: p in t.white && pt[p] != -1 ==> lvl[p] <= L + 1
  }

  /** What the draining loop keeps true between pops, L being the depth of
      the pixel popped last: the queue is in breadth-first order, and every
      stranded pixel has a queued neighbour of its altitude no deeper than
      any resolved one. */
  ghost predicate Breadth(t: Terrain, pt0: seq<int>, pt: seq<int>, lvl: seq<nat>, fifo: seq<int>, L: nat)
    requires Valid(t) && |pt0| == |t.alt|
  {
    && Progress(t, pt0, pt, lvl, fifo)
    && Queued(t, lvl, fifo, L)
    && Capped(t, pt, lvl, L)
    && Nearest(t, pt0, pt, lvl)
    && (forall p, m :: p in t.white && Stranded(t, pt, p, m) ==> OutletWithin(t, lvl, fifo, p, lvl[m]))
  }

  /** What the loop over the neighbours of the popped pixel pf (at depth L)
      keeps true before neighbour k: a stranded pixel is no shallower than
      L, and has an outlet queued or is among the neighbours yet to come. */
  ghost predicate Spreading(t: Terrain, pt0: seq<int>, pt: seq<int>, lvl: seq<nat>, fifo: seq<int>, pf: int, L: nat,
                            neisf: seq<int>, k: int)
    requires Valid(t) && |pt0| == |t.alt| && 0 <= k <= |neisf|
  {
    && Progress(t, pt0, pt, lvl, fifo)
    && pf in t.white && pt[pf] != -1 && lvl[pf] == L
    && Queued(t, lvl, fifo, L)
    && Capped(t, pt, lvl, L)
    && Nearest(t, pt0, pt, lvl)
    && Covered(t, pt, lvl, fifo, pf, L, neisf, k)
  }

  /** A stranded pixel is no shallower than L, and has an outlet queued or
      is among the neighbours of pf from k on. */
  ghost predicate Covered(t: Terrain, pt: seq<int>, lvl: seq<nat>, fifo: seq<int>, pf: int, L: nat,
                          neisf: seq<int>, k: int)
    requires Valid(t) && |pt| == |t.alt| && |lvl| == |t.alt| && 0 <= pf < |t.alt| && 0 <= k <= |neisf|
  {
    forall p, m :: p in t.white && Stranded(t, pt, p, m) ==>
      && L <= lvl[m]
      && (OutletWithin(t, lvl, fifo, p, lvl[m]) || (p in neisf[k..] && t.alt[p] == t.alt[pf]))
  }

  /** The second loop of `secondPass`: pop the queue, and point every -1
      neighbour of the popped pixel that has its colour at it, queueing it.
      The queue is first in, first out, so the pixels are resolved in
      breadth-first order and each points one step nearer the nearest way
      down. */
  method DrainQueue(t: Terrain, pt0: seq<int>, fifo0: seq<int>) returns (pt: seq<int>, ghost lvl: seq<nat>)
    requires Valid(t) && |pt0| == |t.alt|
    requires forall f :: f in fifo0 ==> f in t.white && pt0[f] != -1
    requires forall p, m :: p in t.white && Stranded(t, pt0, p, m) ==> HasOutlet(t, fifo0, p)
    ensures Progress(t, pt0, pt, lvl, [])
    ensures PlateausDrained(t, pt)
    ensures Nearest(t, pt0, pt, lvl)
  {
    pt := pt0;
    lvl := seq(|pt0|, i => 0);
    var fifo := fifo0;
    ghost var L: nat := 0;
    SeedBreadth(t, pt0, fifo0);
    while |fifo| != 0
      invariant Breadth(t, pt0, pt, lvl, fifo, L)
      decreases multiset(pt)[-1], |fifo|
    {
      var pf := fifo[0];
      ghost var queued := fifo;
      fifo := fifo[1..];
      assert queued == [pf] + fifo;
      ghost var depth := lvl[pf];
      pt, lvl, fifo := Spread(t, pt0, pt, lvl, fifo, pf, L);
      L := depth;
    }
  }

  /** The queue the first loop builds starts the breadth-first order: all
      depths are 0. */
  lemma SeedBreadth(t: Terrain, pt0: seq<int>, fifo0: seq<int>)
    requires Valid(t) && |pt0| == |t.alt|
    requires forall f :: f in fifo0 ==> f in t.white && pt0[f] != -1
    requires forall p, m :: p in t.white && Stranded(t, pt0, p, m) ==> HasOutlet(t, fifo0, p)
    ensures Breadth(t, pt0, pt0, seq(|pt0|, i => 0), fifo0, 0)
  {
    var lvl: seq<nat> := seq(|pt0|, i => 0);
    forall p, m | p in t.white && Stranded(t, pt0, p, m)
      ensures OutletWithin(t, lvl, fifo0, p, lvl[m])
    {
      var f :| f in fifo0 && Neighbour(t, p, f) && t.alt[f] == t.alt[p];
      assert lvl[f] == 0;
    }
    assert forall i :: 0 <= i < |fifo0| ==> fifo0[i] in fifo0;
  }

  /** One pop of the draining loop (the `for` over the popped pixel's
      neighbours). */
  method Spread(t: Terrain, pt0: seq<int>, pt: seq<int>, ghost lvl: seq<nat>, fifo: seq<int>, pf: int, ghost L: nat)
    returns (pt': seq<int>, ghost lvl': seq<nat>, fifo': seq<int>)
    requires Valid(t) && |pt0| == |t.alt|
    requires Breadth(t, pt0, pt, lvl, [pf] + fifo, L)
    ensures 0 <= pf < |lvl| && L <= lvl[pf]
    ensures Breadth(t, pt0, pt', lvl', fifo', lvl[pf])
    ensures forall i :: 0 <= i < |pt| && pt[i] != -1 ==> pt'[i] == pt[i]
    ensures multiset(pt')[-1] < multiset(pt)[-1] || (multiset(pt')[-1] == multiset(pt)[-1] && |fifo'| == |fifo|)
  {
    assert pf in [pf] + fifo;
    var neisf := GetNeighbours(t, pf);
    SpreadStart(t, pt0, pt, lvl, fifo, pf, L, neisf);
    ghost var depth := lvl[pf];
    pt' := pt;
    lvl' := lvl;
    fifo' := fifo;
    var k := 0;
    while k < |neisf|
      invariant 0 <= k <= |neisf|
      invariant Spreading(t, pt0, pt', lvl', fifo', pf, depth, neisf, k)
      invariant forall i :: 0 <= i < |pt| && pt[i] != -1 ==> pt'[i] == pt[i]
      invariant |fifo'| >= |fifo|
      invariant multiset(pt')[-1] + (|fifo'| - |fifo|) == multiset(pt)[-1]
    {
      pt', lvl', fifo' := Visit(t, pt0, pt', lvl', fifo', pf, depth, neisf, k);
      k := k + 1;
    }
    SpreadEnd(t, pt0, pt', lvl', fifo', pf, depth, neisf);
  }

  /** The body of the neighbour loop for neighbour k of pf: a -1 neighbour
      of pf's colour is pointed at pf, one level deeper, and queued. */
  method Visit(t: Terrain, pt0: seq<int>, pt: seq<int>, ghost lvl: seq<nat>, fifo: seq<int>, pf: int, ghost L: nat,
               neisf: seq<int>, k: int)
    returns (pt': seq<int>, ghost lvl': seq<nat>, fifo': seq<int>)
    requires Valid(t) && |pt0| == |t.alt| && 0 <= k < |neisf| && Neighbour(t, pf, neisf[k])
    requires Spreading(t, pt0, pt, lvl, fifo, pf, L, neisf, k)
    ensures Spreading(t, pt0, pt', lvl', fifo', pf, L, neisf, k + 1)
    ensures forall i :: 0 <= i < |pt| && pt[i] != -1 ==> pt'[i] == pt[i]
    ensures |fifo'| >= |fifo| && multiset(pt')[-1] + (|fifo'| - |fifo|) == multiset(pt)[-1]
  {
    var n := neisf[k];
    if pt[n] == -1 && t.alt[n] == t.alt[pf] {
      SpreadAssign(t, pt0, pt, lvl, fifo, pf, L, neisf, k);
      pt' := pt[n := pf];
      lvl' := lvl[n := L + 1];
      fifo' := fifo + [n];
    } else {
      SpreadSkip(t, pt0, pt, lvl, fifo, pf, L, neisf, k);
      pt', lvl', fifo' := pt, lvl, fifo;
    }
  }

  /** Popping pf, the shallowest queued pixel, starts the neighbour loop. */
  lemma SpreadStart(t: Terrain, pt0: seq<int>, pt: seq<int>, lvl: seq<nat>, fifo: seq<int>, pf: int, L: nat,
                    neisf: seq<int>)
    requires Valid(t) && |pt0| == |t.alt|
    requires Breadth(t, pt0, pt, lvl, [pf] + fifo, L)
    requires forall n :: Neighbour(t, pf, n) ==> n in neisf
    ensures 0 <= pf < |lvl| && L <= lvl[pf] <= L + 1
    ensures Spreading(t, pt0, pt, lvl, fifo, pf, lvl[pf], neisf, 0)
  {
    var queued := [pf] + fifo;
    assert queued[0] == pf && pf in queued;
    PopQueued(t, lvl, pf, fifo, L);
    assert Capped(t, pt, lvl, lvl[pf]);
    PopCovered(t, pt, lvl, pf, fifo, neisf);
  }

  /** Behind the shallowest queued pixel the queue keeps its order. */
  lemma PopQueued(t: Terrain, lvl: seq<nat>, pf: int, fifo: seq<int>, L: nat)
    requires Valid(t) && |lvl| == |t.alt|
    requires Queued(t, lvl, [pf] + fifo, L)
    ensures 0 <= pf < |lvl| && L <= lvl[pf] && Queued(t, lvl, fifo, lvl[pf])
  {
    var queued := [pf] + fifo;
    assert queued[0] == pf;
    var d := lvl[pf];
    forall i | 0 <= i < |fifo|
      ensures 0 <= fifo[i] < |t.alt| && d <= lvl[fifo[i]] <= d + 1
    {
      assert fifo[i] == queued[i + 1];
    }
    forall i, j | 0 <= i < j < |fifo| && 0 <= fifo[i] < |t.alt| && 0 <= fifo[j] < |t.alt|
      ensures lvl[fifo[i]] <= lvl[fifo[j]]
    {
      assert fifo[i] == queued[i + 1] && fifo[j] == queued[j + 1];
    }
  }

  /** A stranded pixel whose outlet was pf itself is a neighbour of pf. */
  lemma PopCovered(t: Terrain, pt: seq<int>, lvl: seq<nat>, pf: int, fifo: seq<int>, neisf: seq<int>)
    requires Valid(t) && |pt| == |t.alt| && |lvl| == |t.alt| && 0 <= pf < |t.alt|
    requires Queued(t, lvl, fifo, lvl[pf])
    requires forall p, m :: p in t.white && Stranded(t, pt, p, m) ==> OutletWithin(t, lvl, [pf] + fifo, p, lvl[m])
    requires forall n :: Neighbour(t, pf, n) ==> n in neisf
    ensures Covered(t, pt, lvl, fifo, pf, lvl[pf], neisf, 0)
  {
    var queued := [pf] + fifo;
    forall p, m | p in t.white && Stranded(t, pt, p, m)
      ensures lvl[pf] <= lvl[m]
      ensures OutletWithin(t, lvl, fifo, p, lvl[m]) || (p in neisf[0..] && t.alt[p] == t.alt[pf])
    {
      var f :| f in queued && Neighbour(t, p, f) && t.alt[f] == t.alt[p] && lvl[f] <= lvl[m];
      if f == pf {
        NeighbourSymmetric(t, p, pf);
        assert neisf[0..] == neisf;
      } else {
        assert f in fifo;
        var i :| 0 <= i < |fifo| && fifo[i] == f;
      }
    }
  }

  /** Passing over neighbour k, which is resolved or of another altitude. */
  lemma SpreadSkip(t: Terrain, pt0: seq<int>, pt: seq<int>, lvl: seq<nat>, fifo: seq<int>, pf: int, L: nat,
                   neisf: seq<int>, k: int)
    requires Valid(t) && |pt0| == |t.alt| && 0 <= k < |neisf|
    requires Spreading(t, pt0, pt, lvl, fifo, pf, L, neisf, k)
    requires 0 <= neisf[k] < |pt| && (pt[neisf[k]] != -1 || t.alt[neisf[k]] != t.alt[pf])
    ensures Spreading(t, pt0, pt, lvl, fifo, pf, L, neisf, k + 1)
  {
    forall p, m | p in t.white && Stranded(t, pt, p, m) && !OutletWithin(t, lvl, fifo, p, lvl[m])
      ensures p in neisf[k + 1..] && t.alt[p] == t.alt[pf]
    {
      assert neisf[k..] == [neisf[k]] + neisf[k + 1..];
      assert p in neisf[k..] && p != neisf[k];
    }
  }

  /** After the last neighbour the pop is complete. */
  lemma SpreadEnd(t: Terrain, pt0: seq<int>, pt: seq<int>, lvl: seq<nat>, fifo: seq<int>, pf: int, L: nat,
                  neisf: seq<int>)
    requires Valid(t) && |pt0| == |t.alt|
    requires Spreading(t, pt0, pt, lvl, fifo, pf, L, neisf, |neisf|)
    ensures Breadth(t, pt0, pt, lvl, fifo, L)
  {
    assert neisf[|neisf|..] == [];
  }

  /** Pointing neighbour k, a -1 pixel of pf's altitude, at pf one level
      deeper and queueing it keeps the neighbour loop's facts. */
  lemma SpreadAssign(t: Terrain, pt0: seq<int>, pt: seq<int>, lvl: seq<nat>, fifo: seq<int>, pf: int, L: nat,
                     neisf: seq<int>, k: int)
    requires Valid(t) && |pt0| == |t.alt| && 0 <= k < |neisf|
    requires Spreading(t, pt0, pt, lvl, fifo, pf, L, neisf, k)
    requires Neighbour(t, pf, neisf[k]) && pt[neisf[k]] == -1 && t.alt[neisf[k]] == t.alt[pf]
    ensures Spreading(t, pt0, pt[neisf[k] := pf], lvl[neisf[k] := L + 1], fifo + [neisf[k]], pf, L, neisf, k + 1)
    ensures multiset(pt[neisf[k] := pf])[-1] + 1 == multiset(pt)[-1]
  {
    var n := neisf[k];
    Assign(t, pt0, pt, lvl, fifo, pf, n);
    assert n !in fifo && n != pf;
    AssignQueued(t, lvl, fifo, L, n);
    AssignNearest(t, pt0, pt, lvl, fifo, pf, L, neisf, k);
    AssignStranded(t, pt, lvl, fifo, pf, L, neisf, k);
  }

  /** A pixel queued at depth L + 1 goes to the back of the queue. */
  lemma AssignQueued(t: Terrain, lvl: seq<nat>, fifo: seq<int>, L: nat, n: int)
    requires Valid(t) && |lvl| == |t.alt| && 0 <= n < |t.alt|
    requires Queued(t, lvl, fifo, L) && n !in fifo
    ensures Queued(t, lvl[n := L + 1], fifo + [n], L)
  {
    var lvl', fifo' := lvl[n := L + 1], fifo + [n];
    forall i | 0 <= i < |fifo'|
      ensures 0 <= fifo'[i] < |t.alt| && L <= lvl'[fifo'[i]] <= L + 1
    {
      if i < |fifo| {
        assert fifo'[i] == fifo[i] && fifo[i] in fifo;
      }
    }
    forall i, j | 0 <= i < j < |fifo'| && 0 <= fifo'[i] < |t.alt| && 0 <= fifo'[j] < |t.alt|
      ensures lvl'[fifo'[i]] <= lvl'[fifo'[j]]
    {
      assert fifo'[i] == fifo[i] && fifo[i] in fifo;
      if j < |fifo| {
        assert fifo'[j] == fifo[j] && fifo[j] in fifo;
      }
    }
  }

  lemma AssignNearest(t: Terrain, pt0: seq<int>, pt: seq<int>, lvl: seq<nat>, fifo: seq<int>, pf: int, L: nat,
                      neisf: seq<int>, k: int)
    requires Valid(t) && |pt0| == |t.alt| && |pt| == |t.alt| && |lvl| == |t.alt| && 0 <= k < |neisf|
    requires 0 <= pf < |t.alt| && pt[pf] != -1 && lvl[pf] == L
    requires 0 <= neisf[k] < |t.alt| && pt0[neisf[k]] == -1 && pt[neisf[k]] == -1
    requires forall p :: p in t.white && pt0[p] == -1 && pt[p] != -1 ==> 0 <= pt[p] < |t.alt| && pt[pt[p]] != -1
    requires Capped(t, pt, lvl, L) && Nearest(t, pt0, pt, lvl) && Covered(t, pt, lvl, fifo, pf, L, neisf, k)
    ensures Capped(t, pt[neisf[k] := pf], lvl[neisf[k] := L + 1], L)
    ensures Nearest(t, pt0, pt[neisf[k] := pf], lvl[neisf[k] := L + 1])
  {
    var n := neisf[k];
    var pt', lvl' := pt[n := pf], lvl[n := L + 1];
    forall p | p in t.white && pt0[p] == -1 && pt'[p] != -1
      ensures 0 <= pt'[p] < |t.alt| && lvl'[p] == lvl'[pt'[p]] + 1
    {
      if p != n {
        assert pt[pt[p]] != -1;
      }
    }
    forall p, m | p in t.white && pt0[p] == -1 && pt'[p] != -1 && Neighbour(t, p, m) &&
                  t.alt[m] == t.alt[p] && pt'[m] != -1
      ensures lvl'[p] <= lvl'[m] + 1
    {
      if p == n {
        assert Stranded(t, pt, n, m);
      } else if m == n {
        assert lvl[p] <= L + 1;
      }
    }
  }

  lemma AssignStranded(t: Terrain, pt: seq<int>, lvl: seq<nat>, fifo: seq<int>, pf: int, L: nat,
                       neisf: seq<int>, k: int)
    requires Valid(t) && |pt| == |t.alt| && |lvl| == |t.alt| && 0 <= pf < |t.alt| && 0 <= k < |neisf|
    requires 0 <= neisf[k] < |t.alt| && pt[neisf[k]] == -1 && neisf[k] !in fifo
    requires Covered(t, pt, lvl, fifo, pf, L, neisf, k)
    ensures Covered(t, pt[neisf[k] := pf], lvl[neisf[k] := L + 1], fifo + [neisf[k]], pf, L, neisf, k + 1)
  {
    var n := neisf[k];
    var pt', lvl', fifo' := pt[n := pf], lvl[n := L + 1], fifo + [n];
    forall p, m | p in t.white && Stranded(t, pt', p, m)
      ensures L <= lvl'[m]
      ensures OutletWithin(t, lvl', fifo', p, lvl'[m]) || (p in neisf[k + 1..] && t.alt[p] == t.alt[pf])
    {
      assert p != n;
      if m == n {
        assert n in fifo';
      } else {
        assert Stranded(t, pt, p, m);
        if OutletWithin(t, lvl, fifo, p, lvl[m]) {
          var f :| f in fifo && Neighbour(t, p, f) && t.alt[f] == t.alt[p] && lvl[f] <= lvl[m];
          assert f != n && f in fifo';
        } else {
          assert neisf[k..] == [neisf[k]] + neisf[k + 1..];
          assert p in neisf[k..];
        }
      }
    }
  }

  /** Pointing the -1 pixel n at the resolved pixel pf of its altitude, one
      level deeper, keeps the draining loop's facts and resolves one pixel. */
  lemma Assign(t: Terrain, pt0: seq<int>, pt: seq<int>, lvl: seq<nat>, fifo: seq<int>, pf: int, n: int)
    requires Valid(t) && |pt0| == |t.alt|
    requires Progress(t, pt0, pt, lvl, fifo)
    requires pf in t.white && pt[pf] != -1
    requires Neighbour(t, pf, n) && pt[n] == -1 && t.alt[n] == t.alt[pf]
    ensures Progress(t, pt0, pt[n := pf], lvl[n := lvl[pf] + 1], fifo + [n])
    ensures multiset(pt[n := pf])[-1] + 1 == multiset(pt)[-1]
  {
    NeighbourSymmetric(t, pf, n);
    var pt', lvl', fifo' := pt[n := pf], lvl[n := lvl[pf] + 1], fifo + [n];
    assert pt0[n] == -1;
    assert forall i :: 0 <= i < |pt'| && i !in t.white ==> pt'[i] == pt0[i];
    assert forall p :: p in t.white && pt0[p] != -1 ==> pt'[p] == pt0[p];
    forall p | p in t.white && pt0[p] == -1 && pt'[p] != -1
      ensures Neighbour(t, p, pt'[p]) && t.alt[pt'[p]] == t.alt[p] && pt'[pt'[p]] != -1
    {
    }
    assert forall f :: f in fifo' ==> f in t.white && pt'[f] != -1;
    if PointsDownhill(t, pt0) {
      AssignDescends(t, pt, lvl, pf, n);
    }
    OneFewerUnset(pt, n, pf);
  }

  /** Setting a -1 entry to a pixel leaves one -1 fewer. */
  lemma OneFewerUnset(pt: seq<int>, n: int, pf: int)
    requires 0 <= n < |pt| && pt[n] == -1 && pf != -1
    ensures multiset(pt[n := pf])[-1] + 1 == multiset(pt)[-1]
  {
    assert pt == pt[..n] + [-1] + pt[n + 1..];
    assert pt[n := pf] == pt[..n] + [pf] + pt[n + 1..];
  }

  lemma AssignDescends(t: Terrain, pt: seq<int>, lvl: seq<nat>, pf: int, n: int)
    requires Valid(t) && |pt| == |t.alt|
    requires Descending(t, pt, lvl)
    requires pf in t.white && pt[pf] != -1
    requires Neighbour(t, n, pf) && pt[n] == -1 && t.alt[n] == t.alt[pf]
    ensures Descending(t, pt[n := pf], lvl[n := lvl[pf] + 1])
  {
    var pt', lvl' := pt[n := pf], lvl[n := lvl[pf] + 1];
    forall p | p in t.white && pt'[p] != -1
      ensures Neighbour(t, p, pt'[p])
      ensures || t.alt[pt'[p]] < t.alt[p]
              || (t.alt[pt'[p]] == t.alt[p] && pt'[pt'[p]] != -1 && lvl'[pt'[p]] < lvl'[p])
    {
      if p != n {
        var q := pt[p];
        if t.alt[q] >= t.alt[p] {
          assert q != n;
        }
      }
    }
  }
}
