/** The pointer forest of the watershed (`point[]`) and its lookup `find`.

    A forest over a set `dom` of pixels: every pixel of `dom` points into `dom`,
    and every pointer that is not a self-loop goes to a pixel of strictly
    smaller ghost rank. The rank is what makes following pointers terminate;
    the roots are the self-loops. */
module UnionFind {

  ghost predicate Forest(pt: seq<int>, rank: seq<nat>, dom: set<int>)
  {
    && |rank| == |pt|
    && (forall p :: p in dom ==> 0 <= p < |pt|)
    && (forall p {:trigger pt[p]} :: p in dom ==> pt[p] in dom && (pt[p] != p ==> rank[pt[p]] < rank[p]))
  }

  /** The root reached from p by following pointers. */
  ghost function RootOf(pt: seq<int>, rank: seq<nat>, dom: set<int>, p: int): (r: int)
    requires Forest(pt, rank, dom) && p in dom
    ensures r in dom && pt[r] == r
    ensures rank[r] <= rank[p]
    decreases rank[p]
  {
    if pt[p] == p then p else RootOf(pt, rank, dom, pt[p])
  }

  /** path[0], path[1], ... follow the pointers, never along a self-loop. */
  ghost predicate Chain(pt: seq<int>, path: seq<int>)
  {
    && |path| >= 1
    && (forall i :: 0 <= i < |path| ==> 0 <= path[i] < |pt|)
    && (forall i :: 0 <= i < |path| - 1 ==> pt[path[i]] == path[i + 1] && path[i + 1] != path[i])
  }

  /** `find(u)`: follows the pointers from u to its root r, then points every
      pixel of that path straight at r (path compression). */
  method Find(pt: seq<int>, ghost rank: seq<nat>, ghost dom: set<int>, u: int)
    returns (r: int, pt': seq<int>, ghost path: seq<int>)
    requires Forest(pt, rank, dom) && u in dom
    ensures r in dom && pt[r] == r
    ensures r == RootOf(pt, rank, dom, u)
    ensures Chain(pt, path) && path[0] == u && path[|path| - 1] == r
    ensures forall x :: x in path ==> x in dom && RootOf(pt, rank, dom, x) == r
    ensures |pt'| == |pt|
    ensures forall i :: 0 <= i < |pt| ==> pt'[i] == (if i in path then r else pt[i])
    ensures Forest(pt', rank, dom)
    ensures forall p {:trigger RootOf(pt', rank, dom, p)} :: p in dom ==> RootOf(pt', rank, dom, p) == RootOf(pt, rank, dom, p)
  {
    r, path := FollowPointers(pt, rank, dom, u);
    forall x | x in path
      ensures RootOf(pt, rank, dom, x) == r
    {
      var i :| 0 <= i < |path| && path[i] == x;
    }
    pt' := Compress(pt, rank, u, r, path);
    CompressIsSafe(pt, pt', rank, dom, r, path);
    Redirect(pt, pt', rank, dom);
  }

  /** The first loop of `find`: walk the pointers until a self-loop. */
  method FollowPointers(pt: seq<int>, ghost rank: seq<nat>, ghost dom: set<int>, u: int)
    returns (r: int, ghost path: seq<int>)
    requires Forest(pt, rank, dom) && u in dom
    ensures r in dom && pt[r] == r
    ensures r == RootOf(pt, rank, dom, u)
    ensures Chain(pt, path) && path[0] == u && path[|path| - 1] == r
    ensures forall x :: x in path ==> x in dom
    ensures forall i, j :: 0 <= i < j < |path| ==> rank[path[j]] < rank[path[i]]
    ensures forall i :: 0 <= i < |path| ==> RootOf(pt, rank, dom, path[i]) == r
  {
    r := u;
    path := [u];
    while pt[r] != r
      invariant r in dom
      invariant Followed(pt, rank, dom, u, path, r)
      decreases rank[r]
    {
      FollowStep(pt, rank, dom, u, path, r);
      r := pt[r];
      path := path + [r];
    }
  }

  /** What the first loop of `find` knows: path runs from u along the
      pointers to r, through dom, with ranks falling, all towards one root. */
  ghost predicate Followed(pt: seq<int>, rank: seq<nat>, dom: set<int>, u: int, path: seq<int>, r: int)
    requires Forest(pt, rank, dom) && r in dom
  {
    && Chain(pt, path) && path[0] == u && path[|path| - 1] == r
    && (forall x :: x in path ==> x in dom)
    && (forall i, j :: 0 <= i < j < |path| ==> rank[path[j]] < rank[path[i]])
    && (forall i :: 0 <= i < |path| ==> RootOf(pt, rank, dom, path[i]) == RootOf(pt, rank, dom, r))
  }

  /** One more pointer keeps Followed. */
  lemma FollowStep(pt: seq<int>, rank: seq<nat>, dom: set<int>, u: int, path: seq<int>, r: int)
    requires Forest(pt, rank, dom) && r in dom && pt[r] != r
    requires Followed(pt, rank, dom, u, path, r)
    ensures pt[r] in dom && rank[pt[r]] < rank[r]
    ensures Followed(pt, rank, dom, u, path + [pt[r]], pt[r])
  {
    var q := pt[r];
    var path' := path + [q];
    assert forall i :: 0 <= i < |path| ==> path'[i] == path[i];
    assert RootOf(pt, rank, dom, r) == RootOf(pt, rank, dom, q);
    forall i, j | 0 <= i < j < |path'|
      ensures rank[path'[j]] < rank[path'[i]]
    {
      if j == |path| && i < |path| - 1 {
        assert rank[path[|path| - 1]] < rank[path[i]];
      }
    }
  }

  /** The second loop of `find`: re-point every pixel of the path, from its
      start up to the root, at the root. */
  method Compress(pt: seq<int>, ghost rank: seq<nat>, u: int, r: int, ghost path: seq<int>)
    returns (pt': seq<int>)
    requires |rank| == |pt|
    requires Chain(pt, path) && path[0] == u && path[|path| - 1] == r && pt[r] == r
    requires forall i, j :: 0 <= i < j < |path| ==> rank[path[j]] < rank[path[i]]
    ensures |pt'| == |pt|
    ensures forall i :: 0 <= i < |pt| ==> pt'[i] == (if i in path then r else pt[i])
  {
    pt' := pt;
    var w := u;
    ghost var k := 0;
    while w != r
      invariant 0 <= k < |path| && w == path[k]
      invariant |pt'| == |pt|
      invariant forall i :: 0 <= i < |pt| ==> pt'[i] == (if i in path[..k] then r else pt[i])
      decreases |path| - k
    {
      assert w !in path[..k];
      var tmp := pt'[w];
      pt' := pt'[w := r];
      w := tmp;
      assert path[..k + 1] == path[..k] + [path[k]];
      k := k + 1;
    }
    assert k == |path| - 1;
    assert path == path[..k] + [r];
    forall i | 0 <= i < |pt|
      ensures pt'[i] == (if i in path then r else pt[i])
    {
      assert i in path <==> i in path[..k] || i == r;
    }
  }

  /** Pointing each pixel of a path at the path's root is a safe redirect. */
  lemma CompressIsSafe(pt: seq<int>, pt': seq<int>, rank: seq<nat>, dom: set<int>, r: int, path: seq<int>)
    requires Forest(pt, rank, dom)
    requires Chain(pt, path) && path[|path| - 1] == r && pt[r] == r
    requires forall x :: x in path ==> x in dom
    requires forall i, j :: 0 <= i < j < |path| ==> rank[path[j]] < rank[path[i]]
    requires forall i :: 0 <= i < |path| ==> RootOf(pt, rank, dom, path[i]) == r
    requires |pt'| == |pt|
    requires forall i :: 0 <= i < |pt| ==> pt'[i] == (if i in path then r else pt[i])
    ensures forall q :: q in dom ==> SafeRedirect(pt, pt', rank, dom, q)
  {
    forall q | q in dom
      ensures SafeRedirect(pt, pt', rank, dom, q)
    {
      assert 0 <= q < |pt|;
      if q in path {
        var i :| 0 <= i < |path| && path[i] == q;
        assert pt'[q] == r;
        if i < |path| - 1 {
          assert rank[r] < rank[q];
          assert RootOf(pt, rank, dom, q) == r;
          assert RootOf(pt, rank, dom, r) == r;
        }
      } else {
        assert pt'[q] == pt[q];
      }
    }
  }

  /** q keeps its pointer, or is re-pointed at a lower pixel of its own tree. */
  ghost predicate SafeRedirect(pt: seq<int>, pt2: seq<int>, rank: seq<nat>, dom: set<int>, q: int)
    requires Forest(pt, rank, dom) && q in dom && |pt2| == |pt|
  {
    || pt2[q] == pt[q]
    || (pt2[q] in dom && rank[pt2[q]] < rank[q] && RootOf(pt, rank, dom, pt2[q]) == RootOf(pt, rank, dom, q))
  }

  /** Re-pointing pixels at pixels of lower rank in the same tree keeps the
      forest and keeps every pixel's root. */
  lemma Redirect(pt: seq<int>, pt2: seq<int>, rank: seq<nat>, dom: set<int>)
    requires Forest(pt, rank, dom)
    requires |pt2| == |pt|
    requires forall q :: q in dom ==> SafeRedirect(pt, pt2, rank, dom, q)
    ensures Forest(pt2, rank, dom)
    ensures forall p {:trigger RootOf(pt2, rank, dom, p)} :: p in dom ==> RootOf(pt2, rank, dom, p) == RootOf(pt, rank, dom, p)
  {
    forall p | p in dom
      ensures RootOf(pt2, rank, dom, p) == RootOf(pt, rank, dom, p)
    {
      RedirectAt(pt, pt2, rank, dom, p);
    }
  }

  lemma {:induction false} RedirectAt(pt: seq<int>, pt2: seq<int>, rank: seq<nat>, dom: set<int>, p: int)
    requires Forest(pt, rank, dom)
    requires |pt2| == |pt|
    requires forall q :: q in dom ==> SafeRedirect(pt, pt2, rank, dom, q)
    requires p in dom
    ensures Forest(pt2, rank, dom)
    ensures RootOf(pt2, rank, dom, p) == RootOf(pt, rank, dom, p)
    decreases rank[p]
  {
    if pt2[p] != p {
      RedirectAt(pt, pt2, rank, dom, pt2[p]);
    }
  }

  /** The root a tree has after its old root r1 or r2 was pointed at m. */
  function Merged(root: int, r1: int, r2: int, m: int): int
  {
    if root == r1 || root == r2 then m else root
  }

  lemma LinkForest(pt: seq<int>, rank: seq<nat>, dom: set<int>, r1: int, r2: int, m: int)
    requires Forest(pt, rank, dom)
    requires r1 in dom && r2 in dom && pt[r1] == r1 && pt[r2] == r2
    requires m == r1 || m == r2
    requires m != r1 ==> rank[m] < rank[r1]
    requires m != r2 ==> rank[m] < rank[r2]
    ensures Forest(pt[r1 := m][r2 := m], rank, dom)
  {
  }

  /** Pointing two roots r1, r2 at m (one of them, of no greater rank) joins
      their trees: every pixel whose root was r1 or r2 now has root m. */
  lemma Link(pt: seq<int>, rank: seq<nat>, dom: set<int>, r1: int, r2: int, m: int)
    requires Forest(pt, rank, dom)
    requires r1 in dom && r2 in dom && pt[r1] == r1 && pt[r2] == r2
    requires m == r1 || m == r2
    requires m != r1 ==> rank[m] < rank[r1]
    requires m != r2 ==> rank[m] < rank[r2]
    ensures Forest(pt[r1 := m][r2 := m], rank, dom)
    ensures forall x {:trigger RootOf(pt[r1 := m][r2 := m], rank, dom, x)} :: x in dom ==>
      RootOf(pt[r1 := m][r2 := m], rank, dom, x) == Merged(RootOf(pt, rank, dom, x), r1, r2, m)
  {
    LinkForest(pt, rank, dom, r1, r2, m);
    forall x | x in dom
      ensures RootOf(pt[r1 := m][r2 := m], rank, dom, x) == Merged(RootOf(pt, rank, dom, x), r1, r2, m)
    {
      LinkAt(pt, rank, dom, r1, r2, m, x);
    }
  }

  lemma {:induction false} LinkAt(pt: seq<int>, rank: seq<nat>, dom: set<int>, r1: int, r2: int, m: int, x: int)
    requires Forest(pt, rank, dom)
    requires r1 in dom && r2 in dom && pt[r1] == r1 && pt[r2] == r2
    requires m == r1 || m == r2
    requires m != r1 ==> rank[m] < rank[r1]
    requires m != r2 ==> rank[m] < rank[r2]
    requires x in dom
    requires Forest(pt[r1 := m][r2 := m], rank, dom)
    ensures RootOf(pt[r1 := m][r2 := m], rank, dom, x) == Merged(RootOf(pt, rank, dom, x), r1, r2, m)
    decreases rank[x]
  {
    var pt2 := pt[r1 := m][r2 := m];
    assert pt2[m] == m;
    if x == r1 || x == r2 {
      assert RootOf(pt2, rank, dom, m) == m;
    } else {
      if pt[x] != x {
        LinkAt(pt, rank, dom, r1, r2, m, pt[x]);
      }
    }
  }

  /** The root does not depend on which rank or domain witnessed the forest. */
  lemma {:induction false} RootOfIndependent(pt: seq<int>, rank1: seq<nat>, dom1: set<int>,
                                             rank2: seq<nat>, dom2: set<int>, p: int)
    requires Forest(pt, rank1, dom1) && Forest(pt, rank2, dom2)
    requires p in dom1 && p in dom2
    ensures RootOf(pt, rank1, dom1, p) == RootOf(pt, rank2, dom2, p)
    decreases rank1[p]
  {
    if pt[p] != p {
      RootOfIndependent(pt, rank1, dom1, rank2, dom2, pt[p]);
    }
  }
}
