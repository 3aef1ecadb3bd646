/** The last two passes of the watershed. After the second pass the pixels
    still at -1 form the minimal plateaus. The third pass turns every such
    plateau into one tree of the pointer forest, rooted at its smallest pixel
    index, by union-find over same-altitude neighbours; the fourth pass points
    every white pixel straight at the root of its tree, so that pixels draining
    into the same minimum end up with the same value. */
module Basins {

  import opened Basics
  import opened Sorting
  import opened Grid
  import opened Neighbours
  import opened UnionFind
  import opened Rainfall

  /** The rank that orders the third pass's forest: a pixel's own index. */
  function Id(n: nat): (r: seq<nat>)
    ensures |r| == n && forall i :: 0 <= i < n ==> r[i] == i
  {
    seq(n, i => i)
  }

  /** The pixels the second pass left at -1. */
  ghost function Plateau(t: Terrain, pt2: seq<int>): set<int>
    requires Valid(t) && |pt2| == |t.alt|
  {
    set i | i in t.white && pt2[i] == -1
  }

  /** Within dom, every pointer stays at its pixel's altitude. */
  ghost predicate Level(t: Terrain, pt: seq<int>, dom: set<int>)
    requires |pt| == |t.alt|
  {
    forall a {:trigger pt[a]} :: a in dom ==> 0 <= a < |pt| && 0 <= pt[a] < |pt| && t.alt[pt[a]] == t.alt[a]
  }

  /** A tree whose pointers keep the altitude has its root at that altitude. */
  lemma {:induction false} RootLevel(t: Terrain, pt: seq<int>, rank: seq<nat>, dom: set<int>, a: int)
    requires |pt| == |t.alt|
    requires Forest(pt, rank, dom) && Level(t, pt, dom) && a in dom
    ensures t.alt[RootOf(pt, rank, dom, a)] == t.alt[a]
    decreases rank[a]
  {
    if pt[a] != a {
      RootLevel(t, pt, rank, dom, pt[a]);
    }
  }

  /** `find` keeps every pointer at its pixel's altitude. */
  lemma FindLevel(t: Terrain, pt: seq<int>, pt': seq<int>, rank: seq<nat>, dom: set<int>, r: int, path: seq<int>)
    requires |pt| == |t.alt|
    requires Forest(pt, rank, dom) && Level(t, pt, dom)
    requires forall x :: x in path ==> x in dom && RootOf(pt, rank, dom, x) == r
    requires |pt'| == |pt|
    requires forall i :: 0 <= i < |pt| ==> pt'[i] == (if i in path then r else pt[i])
    ensures Level(t, pt', dom)
  {
    forall a | a in dom
      ensures 0 <= pt'[a] < |pt| && t.alt[pt'[a]] == t.alt[a]
    {
      if a in path {
        RootLevel(t, pt, rank, dom, a);
      }
    }
  }

  /** `find` on the third pass's forest, seen from outside: it returns u's
      root and changes neither the pixels outside the forest, nor any root,
      nor the altitude of any pointer. */
  method FindRoot(t: Terrain, pt: seq<int>, ghost dom: set<int>, u: int) returns (r: int, pt': seq<int>)
    requires Valid(t) && |pt| == |t.alt|
    requires Forest(pt, Id(|pt|), dom) && Level(t, pt, dom) && u in dom
    ensures r == RootOf(pt, Id(|pt|), dom, u)
    ensures |pt'| == |pt|
    ensures forall i :: 0 <= i < |pt| && i !in dom ==> pt'[i] == pt[i]
    ensures Forest(pt', Id(|pt|), dom) && Level(t, pt', dom)
    ensures forall a {:trigger RootOf(pt', Id(|pt|), dom, a)} :: a in dom ==>
      RootOf(pt', Id(|pt|), dom, a) == RootOf(pt, Id(|pt|), dom, a)
  {
    ghost var path;
    r, pt', path := Find(pt, Id(|pt|), dom, u);
    FindLevel(t, pt, pt', Id(|pt|), dom, r, path);
  }

  /** The body of the third pass's inner `if`: find the roots r1 of p and r2
      of n, which have the same altitude, and point both at the smaller one.
      Afterwards p and n share a root, and every other tree is untouched. */
  method Join(t: Terrain, pt: seq<int>, ghost dom: set<int>, p: int, n: int)
    returns (pt': seq<int>, r1: int, r2: int)
    requires Valid(t) && |pt| == |t.alt|
    requires Forest(pt, Id(|pt|), dom) && Level(t, pt, dom)
    requires p in dom && n in dom && t.alt[p] == t.alt[n]
    ensures r1 == RootOf(pt, Id(|pt|), dom, p) && r2 == RootOf(pt, Id(|pt|), dom, n)
    ensures |pt'| == |pt|
    ensures forall i :: 0 <= i < |pt| && i !in dom ==> pt'[i] == pt[i]
    ensures Forest(pt', Id(|pt|), dom) && Level(t, pt', dom)
    ensures forall a {:trigger RootOf(pt', Id(|pt|), dom, a)} :: a in dom ==>
      RootOf(pt', Id(|pt|), dom, a) == Merged(RootOf(pt, Id(|pt|), dom, a), r1, r2, Min(r1, r2))
  {
    var pt1, pt2;
    r1, pt1 := FindRoot(t, pt, dom, p);
    r2, pt2 := FindRoot(t, pt1, dom, n);
    assert RootOf(pt2, Id(|pt|), dom, p) == r1;
    RootLevel(t, pt, Id(|pt|), dom, p);
    RootLevel(t, pt, Id(|pt|), dom, n);
    var m := Min(r1, r2);
    assert RootOf(pt2, Id(|pt|), dom, n) == r2;
    assert pt2[r1] == r1 && pt2[r2] == r2 && r1 in dom && r2 in dom;
    assert Id(|pt|)[r1] == r1 && Id(|pt|)[r2] == r2;
    Link(pt2, Id(|pt|), dom, r1, r2, m);
    pt' := pt2[r1 := m][r2 := m];
    assert Level(t, pt', dom);
  }

  /** a and b lie in the same tree of the third pass's forest. */
  ghost predicate SameTree(pt: seq<int>, dom: set<int>, a: int, b: int)
    requires Forest(pt, Id(|pt|), dom) && a in dom && b in dom
  {
    RootOf(pt, Id(|pt|), dom, a) == RootOf(pt, Id(|pt|), dom, b)
  }

  /** Every two neighbouring pixels of dom with the same altitude share a tree. */
  ghost predicate PlateauJoined(t: Terrain, pt: seq<int>, dom: set<int>)
    requires Valid(t) && |pt| == |t.alt| && Forest(pt, Id(|pt|), dom)
  {
    forall a, b :: a in dom && b in dom && Neighbour(t, a, b) && t.alt[a] == t.alt[b] ==> SameTree(pt, dom, a, b)
  }

  /** The plateau pixels among the first j white pixels. */
  ghost function Visited(t: Terrain, pt2: seq<int>, j: int): set<int>
    requires Valid(t) && |pt2| == |t.alt| && 0 <= j <= |t.white|
  {
    set k | 0 <= k < j && pt2[t.white[k]] == -1 :: t.white[k]
  }

  lemma VisitedAll(t: Terrain, pt2: seq<int>)
    requires Valid(t) && |pt2| == |t.alt|
    ensures Visited(t, pt2, |t.white|) == Plateau(t, pt2)
  {
    forall x | x in Plateau(t, pt2)
      ensures x in Visited(t, pt2, |t.white|)
    {
      var k :| 0 <= k < |t.white| && t.white[k] == x;
    }
  }

  /** Every white pixel below t.white[j] is among the first j white pixels. */
  lemma EarlierWhite(t: Terrain, j: int, n: int)
    requires Valid(t) && 0 <= j < |t.white|
    requires n in t.white && n < t.white[j]
    ensures exists k :: 0 <= k < j && t.white[k] == n
  {
    var k :| 0 <= k < |t.white| && t.white[k] == n;
    assert k < j;
  }

  /** `point[p]=p`: a fresh pixel joins the forest as a root of its own. */
  lemma AddRoot(t: Terrain, pt: seq<int>, dom: set<int>, p: int)
    requires |pt| == |t.alt|
    requires Forest(pt, Id(|pt|), dom) && Level(t, pt, dom)
    requires 0 <= p < |pt| && p !in dom
    ensures Forest(pt[p := p], Id(|pt|), dom + {p}) && Level(t, pt[p := p], dom + {p})
    ensures RootOf(pt[p := p], Id(|pt|), dom + {p}, p) == p
    ensures forall a {:trigger RootOf(pt[p := p], Id(|pt|), dom + {p}, a)} :: a in dom ==>
      RootOf(pt[p := p], Id(|pt|), dom + {p}, a) == RootOf(pt, Id(|pt|), dom, a)
  {
    forall a | a in dom
      ensures RootOf(pt[p := p], Id(|pt|), dom + {p}, a) == RootOf(pt, Id(|pt|), dom, a)
    {
      AddRootAt(pt, dom, p, a);
    }
  }

  lemma {:induction false} AddRootAt(pt: seq<int>, dom: set<int>, p: int, a: int)
    requires Forest(pt, Id(|pt|), dom)
    requires 0 <= p < |pt| && p !in dom && a in dom
    requires Forest(pt[p := p], Id(|pt|), dom + {p})
    ensures RootOf(pt[p := p], Id(|pt|), dom + {p}, a) == RootOf(pt, Id(|pt|), dom, a)
    decreases a
  {
    if pt[a] != a {
      assert Id(|pt|)[pt[a]] < Id(|pt|)[a];
      AddRootAt(pt, dom, p, pt[a]);
    }
  }

  /** `thirdPass`: every pixel of a minimal plateau points, within its
      plateau, at a pixel of no greater index, and the plateau's neighbouring
      same-altitude pixels share a tree; nothing else changes. It relies on
      the second pass having drained every non-minimal plateau. */
  method ThirdPass(t: Terrain, pt2: seq<int>) returns (pt3: seq<int>)
    requires Valid(t) && |pt2| == |t.alt|
    requires PlateausDrained(t, pt2)
    ensures |pt3| == |pt2|
    ensures forall i :: 0 <= i < |pt2| && i !in Plateau(t, pt2) ==> pt3[i] == pt2[i]
    ensures Forest(pt3, Id(|pt2|), Plateau(t, pt2)) && Level(t, pt3, Plateau(t, pt2))
    ensures PlateauJoined(t, pt3, Plateau(t, pt2))
    ensures RootsConnected(t, Plateau(t, pt2), pt3, Plateau(t, pt2))
  {
    pt3 := pt2;
    ghost var dom: set<int> := {};
    var j := 0;
    while j < |t.white|
      invariant 0 <= j <= |t.white|
      invariant dom == Visited(t, pt2, j)
      invariant |pt3| == |pt2|
      invariant forall i :: 0 <= i < |pt2| && i !in dom ==> pt3[i] == pt2[i]
      invariant Forest(pt3, Id(|pt2|), dom) && Level(t, pt3, dom)
      invariant PlateauJoined(t, pt3, dom)
      invariant RootsConnected(t, Plateau(t, pt2), pt3, dom)
    {
      var p := t.white[j];
      assert p !in dom;
      if pt3[p] == -1 {
        StartTree(t, pt2, pt3, dom, p);
        pt3 := JoinNeighbours(t, pt2, pt3[p := p], dom + {p}, j, p);
        dom := dom + {p};
      }
      assert Visited(t, pt2, j + 1) == dom;
      j := j + 1;
    }
    VisitedAll(t, pt2);
  }

  /** The inner loop of `thirdPass` for the plateau pixel p = t.white[j],
      already a root: join p with each earlier neighbour of its altitude.
      Such a neighbour is always an earlier plateau pixel, because the second
      pass left no -1 pixel next to a resolved one of its altitude. */
  method JoinNeighbours(t: Terrain, ghost pt2: seq<int>, pt: seq<int>, ghost dom: set<int>, ghost j: int, p: int)
    returns (pt': seq<int>)
    requires Valid(t) && |pt2| == |t.alt| && |pt| == |pt2|
    requires PlateausDrained(t, pt2)
    requires 0 <= j < |t.white| && p == t.white[j] && pt2[p] == -1
    requires dom == Visited(t, pt2, j) + {p}
    requires Forest(pt, Id(|pt|), dom) && Level(t, pt, dom)
    requires forall a, b :: a in dom && b in dom && a != p && b != p && Neighbour(t, a, b) && t.alt[a] == t.alt[b] ==>
      SameTree(pt, dom, a, b)
    requires RootsConnected(t, Plateau(t, pt2), pt, dom)
    ensures |pt'| == |pt|
    ensures forall i :: 0 <= i < |pt| && i !in dom ==> pt'[i] == pt[i]
    ensures Forest(pt', Id(|pt|), dom) && Level(t, pt', dom)
    ensures PlateauJoined(t, pt', dom)
    ensures RootsConnected(t, Plateau(t, pt2), pt', dom)
  {
    var neis := GetNeighbours(t, p);
    pt' := pt;
    var k := 0;
    while k < |neis|
      invariant 0 <= k <= |neis|
      invariant Joining(t, pt2, pt, dom, p, neis, k, pt')
    {
      var n := neis[k];
      ghost var before := pt';
      pt' := JoinStep(t, pt2, pt', dom, j, p, n);
      JoiningStep(t, pt2, pt, dom, p, neis, k, before, pt');
      k := k + 1;
    }
    NeighboursJoined(t, pt2, pt, dom, j, p, neis, pt');
  }

  /** What the inner loop of `thirdPass` knows after the first k neighbours
      of p: the forest over dom is kept, trees already shared stay shared,
      and p shares its tree with each of those neighbours that is earlier
      and level with it. */
  ghost predicate Joining(t: Terrain, pt2: seq<int>, pt: seq<int>, dom: set<int>, p: int, neis: seq<int>, k: int, cur: seq<int>)
    requires Valid(t) && |pt2| == |t.alt| && |pt| == |pt2| && 0 <= k <= |neis|
    requires 0 <= p < |t.alt|
  {
    && |cur| == |pt|
    && (forall i :: 0 <= i < |pt| && i !in dom ==> cur[i] == pt[i])
    && Forest(cur, Id(|pt|), dom) && Level(t, cur, dom)
    && (forall a, b :: a in dom && b in dom && a != p && b != p && Neighbour(t, a, b) && t.alt[a] == t.alt[b] ==>
          SameTree(cur, dom, a, b))
    && p in dom
    && (forall i :: 0 <= i < k && neis[i] < p && 0 <= neis[i] < |t.alt| && t.alt[neis[i]] == t.alt[p] ==>
          neis[i] in dom && SameTree(cur, dom, p, neis[i]))
    && RootsConnected(t, Plateau(t, pt2), cur, dom)
  }

  /** One `JoinStep` on neighbour k keeps Joining. */
  lemma JoiningStep(t: Terrain, pt2: seq<int>, pt: seq<int>, dom: set<int>, p: int, neis: seq<int>, k: int, before: seq<int>, after: seq<int>)
    requires Valid(t) && |pt2| == |t.alt| && |pt| == |pt2| && 0 <= k < |neis|
    requires 0 <= p < |t.alt|
    requires Joining(t, pt2, pt, dom, p, neis, k, before)
    requires |after| == |before|
    requires forall i :: 0 <= i < |before| && i !in dom ==> after[i] == before[i]
    requires Forest(after, Id(|pt|), dom) && Level(t, after, dom)
    requires RootsConnected(t, Plateau(t, pt2), after, dom)
    requires forall a, b :: a in dom && b in dom && SameTree(before, dom, a, b) ==> SameTree(after, dom, a, b)
    requires neis[k] < p && 0 <= neis[k] < |t.alt| && t.alt[neis[k]] == t.alt[p] ==>
      neis[k] in dom && SameTree(after, dom, p, neis[k])
    ensures Joining(t, pt2, pt, dom, p, neis, k + 1, after)
  {
    forall i | 0 <= i < k + 1 && neis[i] < p && 0 <= neis[i] < |t.alt| && t.alt[neis[i]] == t.alt[p]
      ensures neis[i] in dom && SameTree(after, dom, p, neis[i])
    {
      if i < k {
        assert SameTree(before, dom, p, neis[i]);
      }
    }
  }

  /** Once every neighbour of p is joined, all level neighbours in dom share
      a tree: p's own earlier neighbours are exactly its visited ones. */
  lemma NeighboursJoined(t: Terrain, pt2: seq<int>, pt: seq<int>, dom: set<int>, j: int, p: int, neis: seq<int>, cur: seq<int>)
    requires Valid(t) && |pt2| == |t.alt| && |pt| == |pt2|
    requires 0 <= j < |t.white| && p == t.white[j]
    requires dom == Visited(t, pt2, j) + {p}
    requires forall n :: n in neis <==> Neighbour(t, p, n)
    requires Joining(t, pt2, pt, dom, p, neis, |neis|, cur)
    ensures Forest(cur, Id(|pt|), dom)
    ensures PlateauJoined(t, cur, dom)
  {
    forall a, b | a in dom && b in dom && Neighbour(t, a, b) && t.alt[a] == t.alt[b]
      ensures SameTree(cur, dom, a, b)
    {
      if a == p {
        assert b in neis;
        ghost var w :| 0 <= w < j && t.white[w] == b;
        assert t.white[w] < t.white[j];
        var i :| 0 <= i < |neis| && neis[i] == b;
      } else if b == p {
        NeighbourSymmetric(t, a, b);
        assert a in neis;
        ghost var w :| 0 <= w < j && t.white[w] == a;
        assert t.white[w] < t.white[j];
        var i :| 0 <= i < |neis| && neis[i] == a;
      }
    }
  }

  /** The white pixels, as a set. */
  ghost function Whites(t: Terrain): set<int>
  {
    set i | i in t.white
  }

  /** `fourthPass`: each white pixel, in ascending order, is pointed at the
      root `find` returns for it. The passes before leave a forest over the
      white pixels (`find` would not return otherwise); afterwards every white
      pixel holds the root of its tree in that forest, and nothing else
      changes. */
  method FourthPass(t: Terrain, pt3: seq<int>, ghost rank: seq<nat>) returns (pt4: seq<int>)
    requires Valid(t) && |pt3| == |t.alt|
    requires Forest(pt3, rank, Whites(t))
    ensures |pt4| == |pt3|
    ensures forall i :: 0 <= i < |pt3| && i !in t.white ==> pt4[i] == pt3[i]
    ensures forall p :: p in t.white ==> pt4[p] == RootOf(pt3, rank, Whites(t), p)
  {
    pt4 := pt3;
    var j := 0;
    while j < |t.white|
      invariant 0 <= j <= |t.white|
      invariant Rooted(t, pt3, rank, pt4, j)
    {
      var p := t.white[j];
      ghost var before := pt4;
      var r, pt', path := Find(pt4, rank, Whites(t), p);
      pt4 := pt'[p := r];
      RootedStep(t, pt3, rank, before, r, pt', path, j);
      j := j + 1;
    }
    forall p | p in t.white
      ensures pt4[p] == RootOf(pt3, rank, Whites(t), p)
    {
      var k :| 0 <= k < |t.white| && t.white[k] == p;
    }
  }

  /** What the loop of `fourthPass` knows after the first j white pixels:
      the forest and its roots are unchanged, and those pixels hold their roots. */
  ghost predicate Rooted(t: Terrain, pt3: seq<int>, rank: seq<nat>, pt4: seq<int>, j: int)
    requires Valid(t) && |pt3| == |t.alt| && 0 <= j <= |t.white|
  {
    && |pt4| == |pt3|
    && (forall i :: 0 <= i < |pt3| && i !in t.white ==> pt4[i] == pt3[i])
    && Forest(pt3, rank, Whites(t))
    && Forest(pt4, rank, Whites(t))
    && (forall x {:trigger RootOf(pt4, rank, Whites(t), x)} :: x in Whites(t) ==>
          RootOf(pt4, rank, Whites(t), x) == RootOf(pt3, rank, Whites(t), x))
    && (forall k :: 0 <= k < j ==> pt4[t.white[k]] == RootOf(pt3, rank, Whites(t), t.white[k]))
  }

  /** One `find` on white pixel j keeps Rooted and roots that pixel. */
  lemma RootedStep(t: Terrain, pt3: seq<int>, rank: seq<nat>, before: seq<int>, r: int, after: seq<int>, path: seq<int>, j: int)
    requires Valid(t) && |pt3| == |t.alt| && 0 <= j < |t.white|
    requires Rooted(t, pt3, rank, before, j)
    requires r == RootOf(before, rank, Whites(t), t.white[j])
    requires |path| >= 1 && path[0] == t.white[j]
    requires forall x :: x in path ==> x in Whites(t) && RootOf(before, rank, Whites(t), x) == r
    requires |after| == |before|
    requires forall i :: 0 <= i < |before| ==> after[i] == (if i in path then r else before[i])
    requires Forest(after, rank, Whites(t))
    requires forall p {:trigger RootOf(after, rank, Whites(t), p)} :: p in Whites(t) ==>
      RootOf(after, rank, Whites(t), p) == RootOf(before, rank, Whites(t), p)
    ensures Rooted(t, pt3, rank, after[t.white[j] := r], j + 1)
  {
    var p := t.white[j];
    assert after[p := r] == after by { assert p in path; }
    KeptOffList(t, pt3, before, after, path, r);
    RootedPrefix(t, pt3, rank, before, r, after, path, j);
    assert Forest(after, rank, Whites(t));
  }

  /** Redirecting a path of white pixels leaves every other pixel as it was. */
  lemma KeptOffList(t: Terrain, pt3: seq<int>, before: seq<int>, after: seq<int>, path: seq<int>, r: int)
    requires |before| == |pt3| && |after| == |before|
    requires forall i :: 0 <= i < |pt3| && i !in t.white ==> before[i] == pt3[i]
    requires forall x :: x in path ==> x in t.white
    requires forall i :: 0 <= i < |before| ==> after[i] == (if i in path then r else before[i])
    ensures forall i :: 0 <= i < |pt3| && i !in t.white ==> after[i] == pt3[i]
  {
    forall i | 0 <= i < |pt3| && i !in t.white
      ensures after[i] == pt3[i]
    {
      assert i !in path;
    }
  }

  /** Pixels already rooted stay rooted when a path is redirected to its
      root, and the path's first pixel becomes rooted. */
  lemma RootedPrefix(t: Terrain, pt3: seq<int>, rank: seq<nat>, before: seq<int>, r: int, after: seq<int>,
                     path: seq<int>, j: int)
    requires 0 <= j < |t.white| && |before| == |pt3| && |after| == |before|
    requires forall k :: 0 <= k < |t.white| ==> 0 <= t.white[k] < |pt3|
    requires Forest(pt3, rank, Whites(t)) && Forest(before, rank, Whites(t))
    requires forall x {:trigger RootOf(before, rank, Whites(t), x)} :: x in Whites(t) ==>
      RootOf(before, rank, Whites(t), x) == RootOf(pt3, rank, Whites(t), x)
    requires forall k :: 0 <= k < j ==> before[t.white[k]] == RootOf(pt3, rank, Whites(t), t.white[k])
    requires |path| >= 1 && path[0] == t.white[j]
    requires forall x :: x in path ==> x in Whites(t) && RootOf(before, rank, Whites(t), x) == r
    requires forall i :: 0 <= i < |before| ==> after[i] == (if i in path then r else before[i])
    ensures forall k :: 0 <= k < j + 1 ==> after[t.white[k]] == RootOf(pt3, rank, Whites(t), t.white[k])
  {
    forall k | 0 <= k < j + 1
      ensures after[t.white[k]] == RootOf(pt3, rank, Whites(t), t.white[k])
    {
      var x := t.white[k];
      assert x in Whites(t);
      if x in path {
        assert RootOf(before, rank, Whites(t), x) == r;
      }
    }
  }

  /** A bound on the breadth-first depths of the second pass. */
  ghost function MaxLevel(lvl: seq<nat>): (m: nat)
    ensures forall i :: 0 <= i < |lvl| ==> lvl[i] <= m
  {
    if |lvl| == 0 then 0
    else
      var rest := MaxLevel(lvl[1..]);
      assert forall i :: 1 <= i < |lvl| ==> lvl[i] == lvl[1..][i - 1];
      if lvl[0] < rest then rest else lvl[0]
  }

  /** A rank under which every pointer left by the first three passes goes
      down: plateau pixels rank by index, below all others; the others rank
      by altitude first and breadth-first depth second. */
  ghost function FlowRank(t: Terrain, pt2: seq<int>, lvl: seq<nat>): seq<nat>
    requires Valid(t) && |pt2| == |t.alt| && |lvl| == |pt2|
  {
    var b := MaxLevel(lvl) + 1;
    seq(|pt2|, i requires 0 <= i < |pt2| =>
      if i in t.white && pt2[i] == -1 then i else |pt2| + t.alt[i] * b + lvl[i])
  }

  lemma RankBelow(n: int, b: int, a1: int, l1: int, a2: int, l2: int)
    requires 0 <= l1 < b && 0 <= l2 && 0 <= a1
    requires a1 < a2 || (a1 == a2 && l1 < l2)
    ensures n + a1 * b + l1 < n + a2 * b + l2
  {
    if a1 < a2 {
      MulMono(a2, a1 + 1, b);
    }
  }

  /** After the third pass the pointers of all white pixels form one forest,
      ordered by FlowRank, provided the second pass's pointers descend. */
  lemma FlowForest(t: Terrain, pt2: seq<int>, lvl: seq<nat>, pt3: seq<int>)
    requires Valid(t) && |pt2| == |t.alt| && |pt3| == |pt2|
    requires Descending(t, pt2, lvl)
    requires forall i :: 0 <= i < |pt2| && i !in Plateau(t, pt2) ==> pt3[i] == pt2[i]
    requires Forest(pt3, Id(|pt2|), Plateau(t, pt2))
    ensures Forest(pt3, FlowRank(t, pt2, lvl), Whites(t))
  {
    forall p | p in Whites(t)
      ensures pt3[p] in Whites(t) && (pt3[p] != p ==> FlowRank(t, pt2, lvl)[pt3[p]] < FlowRank(t, pt2, lvl)[p])
    {
      FlowStep(t, pt2, lvl, pt3, p);
    }
  }

  lemma FlowStep(t: Terrain, pt2: seq<int>, lvl: seq<nat>, pt3: seq<int>, p: int)
    requires Valid(t) && |pt2| == |t.alt| && |pt3| == |pt2|
    requires Descending(t, pt2, lvl)
    requires forall i :: 0 <= i < |pt2| && i !in Plateau(t, pt2) ==> pt3[i] == pt2[i]
    requires Forest(pt3, Id(|pt2|), Plateau(t, pt2))
    requires p in t.white
    ensures 0 <= pt3[p] < |pt3| && pt3[p] in t.white
    ensures pt3[p] != p ==> FlowRank(t, pt2, lvl)[pt3[p]] < FlowRank(t, pt2, lvl)[p]
  {
    var rank := FlowRank(t, pt2, lvl);
    var n, b := |pt2|, MaxLevel(lvl) + 1;
    if p in Plateau(t, pt2) {
      var q := pt3[p];
      assert q in Plateau(t, pt2);
      assert Id(n)[q] == q && Id(n)[p] == p;
      assert rank[q] == q && rank[p] == p;
    } else {
      var q := pt2[p];
      assert pt3[p] == q;
      assert Neighbour(t, p, q);
      assert rank[p] == n + t.alt[p] * b + lvl[p];
      if q in Plateau(t, pt2) {
        assert rank[q] == q;
        MulMono(t.alt[p], 0, b);
      } else {
        assert rank[q] == n + t.alt[q] * b + lvl[q];
        assert rank[p] == n + t.alt[p] * b + lvl[p];
        RankBelow(n, b, t.alt[q], lvl[q], t.alt[p], lvl[p]);
      }
    }
  }

  /** Pointers that never climb lead to a root no higher than the start. */
  lemma {:induction false} RootNotHigher(t: Terrain, pt: seq<int>, rank: seq<nat>, dom: set<int>, p: int)
    requires |pt| == |t.alt| && Forest(pt, rank, dom) && p in dom
    requires forall x {:trigger pt[x]} :: x in dom ==> t.alt[pt[x]] <= t.alt[x]
    ensures t.alt[RootOf(pt, rank, dom, p)] <= t.alt[p]
    decreases rank[p]
  {
    if pt[p] != p {
      RootNotHigher(t, pt, rank, dom, pt[p]);
    }
  }

  /** Every tree of the final forest is rooted in a minimal plateau: a pixel
      off the plateaus points at a neighbour, never at itself. */
  lemma RootInPlateau(t: Terrain, pt2: seq<int>, lvl: seq<nat>, pt3: seq<int>, rank: seq<nat>, p: int)
    requires Valid(t) && |pt2| == |t.alt| && |pt3| == |pt2|
    requires Descending(t, pt2, lvl)
    requires forall i :: 0 <= i < |pt2| && i !in Plateau(t, pt2) ==> pt3[i] == pt2[i]
    requires Forest(pt3, rank, Whites(t)) && p in t.white
    ensures RootOf(pt3, rank, Whites(t), p) in Plateau(t, pt2)
  {
    var r := RootOf(pt3, rank, Whites(t), p);
    assert r in t.white && (pt2[r] != -1 ==> Neighbour(t, r, pt2[r]));
  }

  /** w steps through pixels of P, each step to a neighbour of equal altitude. */
  ghost predicate Walk(t: Terrain, P: set<int>, w: seq<int>)
    requires Valid(t)
  {
    && |w| >= 1
    && (forall i :: 0 <= i < |w| ==> w[i] in P)
    && (forall i :: 0 <= i < |w| - 1 ==> Neighbour(t, w[i], w[i + 1]) && t.alt[w[i]] == t.alt[w[i + 1]])
  }

  /** a and b lie on one connected plateau within P. */
  ghost predicate Connected(t: Terrain, P: set<int>, a: int, b: int)
    requires Valid(t)
  {
    exists w :: Walk(t, P, w) && w[0] == a && w[|w| - 1] == b
  }

  lemma ConnectedRefl(t: Terrain, P: set<int>, a: int)
    requires Valid(t) && a in P
    ensures Connected(t, P, a, a)
  {
    assert Walk(t, P, [a]);
  }

  lemma ConnectedStep(t: Terrain, P: set<int>, a: int, b: int)
    requires Valid(t) && a in P && b in P
    requires Neighbour(t, a, b) && t.alt[a] == t.alt[b]
    ensures Connected(t, P, a, b)
  {
    assert Walk(t, P, [a, b]);
  }

  lemma ConnectedTrans(t: Terrain, P: set<int>, a: int, b: int, c: int)
    requires Valid(t) && Connected(t, P, a, b) && Connected(t, P, b, c)
    ensures Connected(t, P, a, c)
  {
    var u :| Walk(t, P, u) && u[0] == a && u[|u| - 1] == b;
    var v :| Walk(t, P, v) && v[0] == b && v[|v| - 1] == c;
    var w := u + v[1..];
    assert forall i :: |u| <= i < |w| ==> w[i] == v[i - |u| + 1];
    assert Walk(t, P, w);
  }

  lemma ConnectedSym(t: Terrain, P: set<int>, a: int, b: int)
    requires Valid(t) && (forall x :: x in P ==> x in t.white)
    requires Connected(t, P, a, b)
    ensures Connected(t, P, b, a)
  {
    var u :| Walk(t, P, u) && u[0] == a && u[|u| - 1] == b;
    var w := seq(|u|, i requires 0 <= i < |u| => u[|u| - 1 - i]);
    forall i | 0 <= i < |w| - 1
      ensures Neighbour(t, w[i], w[i + 1]) && t.alt[w[i]] == t.alt[w[i + 1]]
    {
      var k := |u| - 2 - i;
      assert w[i] == u[k + 1] && w[i + 1] == u[k];
      NeighbourSymmetric(t, u[k], u[k + 1]);
    }
    assert Walk(t, P, w);
  }

  /** Every pixel of dom is joined to its root through the plateau P. */
  ghost predicate RootsConnected(t: Terrain, P: set<int>, pt: seq<int>, dom: set<int>)
    requires Valid(t) && Forest(pt, Id(|pt|), dom)
  {
    forall a {:trigger RootOf(pt, Id(|pt|), dom, a)} :: a in dom ==> Connected(t, P, a, RootOf(pt, Id(|pt|), dom, a))
  }

  /** Joining the trees of two neighbouring pixels of equal altitude keeps
      every pixel connected to its root. */
  lemma JoinConnected(t: Terrain, P: set<int>, pt: seq<int>, pt': seq<int>, dom: set<int>, p: int, n: int, r1: int, r2: int)
    requires Valid(t) && (forall x :: x in P ==> x in t.white) && (forall x :: x in dom ==> x in P)
    requires |pt'| == |pt| && Forest(pt, Id(|pt|), dom) && Forest(pt', Id(|pt|), dom)
    requires RootsConnected(t, P, pt, dom)
    requires p in dom && n in dom && Neighbour(t, p, n) && t.alt[p] == t.alt[n]
    requires r1 == RootOf(pt, Id(|pt|), dom, p) && r2 == RootOf(pt, Id(|pt|), dom, n)
    requires forall a {:trigger RootOf(pt', Id(|pt|), dom, a)} :: a in dom ==>
      RootOf(pt', Id(|pt|), dom, a) == Merged(RootOf(pt, Id(|pt|), dom, a), r1, r2, Min(r1, r2))
    ensures RootsConnected(t, P, pt', dom)
  {
    ConnectedStep(t, P, p, n);
    ConnectedSym(t, P, p, n);
    ConnectedSym(t, P, p, r1);
    ConnectedSym(t, P, n, r2);
    ConnectedTrans(t, P, r1, p, n);
    ConnectedTrans(t, P, r1, n, r2);
    ConnectedTrans(t, P, r2, n, p);
    ConnectedTrans(t, P, r2, p, r1);
    forall a | a in dom
      ensures Connected(t, P, a, RootOf(pt', Id(|pt|), dom, a))
    {
      var ra := RootOf(pt, Id(|pt|), dom, a);
      if ra == r1 {
        ConnectedTrans(t, P, a, r1, r2);
      } else if ra == r2 {
        ConnectedTrans(t, P, a, r2, r1);
      }
    }
  }

  /** One turn of the third pass's inner loop: if the neighbour n of p comes
      earlier and has p's altitude, join their trees. */
  method JoinStep(t: Terrain, ghost pt2: seq<int>, pt: seq<int>, ghost dom: set<int>, ghost j: int, p: int, n: int)
    returns (pt': seq<int>)
    requires Valid(t) && |pt2| == |t.alt| && |pt| == |pt2|
    requires PlateausDrained(t, pt2)
    requires 0 <= j < |t.white| && p == t.white[j] && pt2[p] == -1
    requires dom == Visited(t, pt2, j) + {p}
    requires Forest(pt, Id(|pt|), dom) && Level(t, pt, dom)
    requires RootsConnected(t, Plateau(t, pt2), pt, dom)
    requires Neighbour(t, p, n)
    ensures |pt'| == |pt|
    ensures forall i :: 0 <= i < |pt| && i !in dom ==> pt'[i] == pt[i]
    ensures Forest(pt', Id(|pt|), dom) && Level(t, pt', dom)
    ensures RootsConnected(t, Plateau(t, pt2), pt', dom)
    ensures forall a, b :: a in dom && b in dom && SameTree(pt, dom, a, b) ==> SameTree(pt', dom, a, b)
    ensures n < p && t.alt[n] == t.alt[p] ==> n in dom && SameTree(pt', dom, p, n)
  {
    pt' := pt;
    if n < p && t.alt[n] == t.alt[p] {
      EarlierWhite(t, j, n);
      assert !Stranded(t, pt2, p, n);
      ghost var w :| 0 <= w < j && t.white[w] == n;
      assert n in Visited(t, pt2, j);
      var r1, r2;
      pt', r1, r2 := Join(t, pt, dom, p, n);
      JoinConnected(t, Plateau(t, pt2), pt, pt', dom, p, n, r1, r2);
    }
  }

  /** `point[p]=p` for a plateau pixel p not yet in the forest: the forest
      grows by a one-pixel tree, and what held of the old trees still holds. */
  lemma StartTree(t: Terrain, pt2: seq<int>, pt: seq<int>, dom: set<int>, p: int)
    requires Valid(t) && |pt2| == |t.alt| && |pt| == |pt2|
    requires Forest(pt, Id(|pt|), dom) && Level(t, pt, dom)
    requires PlateauJoined(t, pt, dom)
    requires RootsConnected(t, Plateau(t, pt2), pt, dom)
    requires p in t.white && pt2[p] == -1 && p !in dom
    ensures Forest(pt[p := p], Id(|pt|), dom + {p}) && Level(t, pt[p := p], dom + {p})
    ensures forall a, b :: a in dom + {p} && b in dom + {p} && a != p && b != p && Neighbour(t, a, b) && t.alt[a] == t.alt[b] ==>
      SameTree(pt[p := p], dom + {p}, a, b)
    ensures RootsConnected(t, Plateau(t, pt2), pt[p := p], dom + {p})
  {
    AddRoot(t, pt, dom, p);
    ghost var dom' := dom + {p};
    ghost var pt' := pt[p := p];
    forall a, b | a in dom' && b in dom' && a != p && b != p && Neighbour(t, a, b) && t.alt[a] == t.alt[b]
      ensures SameTree(pt', dom', a, b)
    {
      assert SameTree(pt, dom, a, b);
    }
    ConnectedRefl(t, Plateau(t, pt2), p);
  }

  lemma {:induction false} WalkSameTree(t: Terrain, pt: seq<int>, P: set<int>, w: seq<int>)
    requires Valid(t) && |pt| == |t.alt| && Forest(pt, Id(|pt|), P)
    requires PlateauJoined(t, pt, P) && Walk(t, P, w)
    ensures SameTree(pt, P, w[0], w[|w| - 1])
    decreases |w|
  {
    if |w| > 1 {
      assert Walk(t, P, w[1..]);
      WalkSameTree(t, pt, P, w[1..]);
      assert SameTree(pt, P, w[0], w[1]);
    }
  }

  /** On the minimal plateaus the trees the third pass builds are exactly the
      connected plateaus: two plateau pixels share a tree if and only if a walk
      through neighbouring plateau pixels of one altitude joins them. */
  lemma TreesAreComponents(t: Terrain, pt2: seq<int>, pt3: seq<int>, a: int, b: int)
    requires Valid(t) && |pt2| == |t.alt| && |pt3| == |pt2|
    requires Forest(pt3, Id(|pt2|), Plateau(t, pt2))
    requires PlateauJoined(t, pt3, Plateau(t, pt2))
    requires RootsConnected(t, Plateau(t, pt2), pt3, Plateau(t, pt2))
    requires a in Plateau(t, pt2) && b in Plateau(t, pt2)
    ensures SameTree(pt3, Plateau(t, pt2), a, b) <==> Connected(t, Plateau(t, pt2), a, b)
  {
    var P := Plateau(t, pt2);
    if SameTree(pt3, P, a, b) {
      var r := RootOf(pt3, Id(|pt3|), P, a);
      assert Connected(t, P, b, RootOf(pt3, Id(|pt3|), P, b));
      ConnectedSym(t, P, b, r);
      ConnectedTrans(t, P, a, r, b);
    }
    if Connected(t, P, a, b) {
      var w :| Walk(t, P, w) && w[0] == a && w[|w| - 1] == b;
      WalkSameTree(t, pt3, P, w);
    }
  }
}
