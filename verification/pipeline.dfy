/** `watershedRun`, the count: the four passes from a zeroed pointer array,
    `reLabel` into dot numbers, `objCount = max(catchmentDefs)`, and the
    recount of every defined section. */
module Pipeline {

  import opened Basics
  import opened Grid
  import opened Rainfall
  import opened Basins
  import opened Watershed
  import opened Labels
  import opened Sections

  /** The pixels that stand for one regional minimum each: its smallest pixel. */
  ghost function Minima(t: Terrain): set<int>
    requires Valid(t)
  {
    set r | r in t.white && Representative(t, r)
  }

  /** The values the passes leave on white pixels are exactly the
      representatives of the regional minima. */
  lemma ValuesAreMinima(t: Terrain, pt: seq<int>)
    requires Valid(t) && |pt| == |t.alt|
    requires forall p :: p in t.white ==> Representative(t, pt[p])
    requires forall a :: RegionalMinimum(t, a) ==> Connected(t, Whites(t), a, pt[a])
    ensures Seen(pt, t.white, |pt|) == Minima(t)
  {
    ValuesInMinima(t, pt);
    MinimaInValues(t, pt);
  }

  lemma ValuesInMinima(t: Terrain, pt: seq<int>)
    requires Valid(t) && |pt| == |t.alt|
    requires forall p :: p in t.white ==> Representative(t, pt[p])
    ensures Seen(pt, t.white, |pt|) <= Minima(t)
  {
    forall v | v in Seen(pt, t.white, |pt|)
      ensures v in Minima(t)
    {
      var k :| 0 <= k < |pt| && k in t.white && pt[k] == v;
      assert Representative(t, pt[k]);
    }
  }

  lemma MinimaInValues(t: Terrain, pt: seq<int>)
    requires Valid(t) && |pt| == |t.alt|
    requires forall p :: p in t.white ==> Representative(t, pt[p])
    requires forall a :: RegionalMinimum(t, a) ==> Connected(t, Whites(t), a, pt[a])
    ensures Minima(t) <= Seen(pt, t.white, |pt|)
  {
    forall r | r in Minima(t)
      ensures r in Seen(pt, t.white, |pt|)
    {
      RepresentativeHoldsItself(t, pt, r);
    }
  }

  /** A representative holds itself after the passes. */
  lemma RepresentativeHoldsItself(t: Terrain, pt: seq<int>, r: int)
    requires Valid(t) && |pt| == |t.alt|
    requires Representative(t, r) && Representative(t, pt[r])
    requires Connected(t, Whites(t), r, pt[r])
    ensures pt[r] == r
  {
    ConnectedSym(t, Whites(t), r, pt[r]);
  }

  /** The count part of `watershedRun()` on the terrain t (the distance map
      and its white pixels) with the current sections st. objCount is `None`
      where Processing's `max` throws (an image without pixels); sections are
      then not recounted. ok reports only the recount: it is false when a
      section reads outside the labels, and it stays true when `max` throws. */
  method WatershedRun(t: Terrain, st: Sections) returns (labels: seq<int>, objCount: Option<int>, st': Sections, ok: bool)
    requires Valid(t) && Aligned(st)
    ensures |labels| == |t.alt|
    ensures forall i :: 0 <= i < |t.alt| && i !in t.white ==> labels[i] == -2
    ensures forall p :: p in t.white ==> 1 <= labels[p] <= |Minima(t)|
    ensures forall a, b :: RegionalMinimum(t, a) && RegionalMinimum(t, b) ==>
      (labels[a] == labels[b] <==> Connected(t, Whites(t), a, b))
    ensures forall p, q :: p in t.white && q != -1 && SteepestDescent(t, p, q) ==> labels[p] == labels[q]
    ensures forall p :: p in t.white ==> (!RegionalMinimum(t, p) <==> exists d: nat :: Distance(t, p, d))
    ensures forall p, d: nat :: p in t.white && Distance(t, p, d) && d > 0 ==>
      exists q :: Neighbour(t, p, q) && t.alt[q] == t.alt[p] && DrainsWithin(t, q, d - 1) && labels[p] == labels[q]
    ensures |t.alt| == 0 ==> objCount == None
    ensures |t.white| > 0 ==> objCount == Some(|Minima(t)|)
    ensures |t.alt| > 0 && |t.white| == 0 ==> objCount == Some(-2)
    ensures Aligned(st') && st'.coords == st.coords && st'.names == st.names
    ensures objCount.Some? && |st.names| > 0 && ok ==> forall k :: 0 <= k < |st.coords| ==>
      st'.counts[k] == DotCount(Scene(t.width, t.height, labels, objCount.value), st.coords[k])
    ensures objCount.Some? && |st.names| > 0 ==>
      (ok <==> forall k :: 0 <= k < |st.coords| ==> InImage(Scene(t.width, t.height, labels, objCount.value), st.coords[k]))
    ensures objCount.Some? && |st.names| > 0 && !ok ==>
      StoppedAt(st, st', Scene(t.width, t.height, labels, objCount.value))
    ensures objCount.None? || |st.names| == 0 ==> st' == st && ok
  {
    labels := Segment(t);
    objCount := ArrayMax(labels);
    st', ok := Recount(st, t.width, t.height, labels, objCount);
  }

  /** The number the count box evidently means to show: the number of dots,
      which is 0 for a blank image. `max` yields -2 there (every label is
      -2) and throws on an image without pixels. */
  function DotTotal(objCount: Option<int>): nat
  {
    if objCount.Some? && objCount.value > 0 then objCount.value else 0
  }

  /** The count button with the intended display: `watershedRun()`, with the
      shown total being the number of regional minima on every image,
      blank and empty ones included. */
  method WatershedCount(t: Terrain, st: Sections) returns (labels: seq<int>, total: nat, st': Sections, ok: bool)
    requires Valid(t) && Aligned(st)
    ensures total == |Minima(t)|
    ensures |labels| == |t.alt|
    ensures forall a, b :: RegionalMinimum(t, a) && RegionalMinimum(t, b) ==>
      (labels[a] == labels[b] <==> Connected(t, Whites(t), a, b))
    ensures Aligned(st') && st'.coords == st.coords && st'.names == st.names
  {
    var objCount;
    labels, objCount, st', ok := WatershedRun(t, st);
    total := DotTotal(objCount);
    if |t.white| == 0 {
      assert Minima(t) == {};
    }
  }

  /** As written, a blank image (one black pixel) reaches `max` with every
      label -2, so the count shown is -2 although it has no dot; the
      intended total is 0. */
  method BlankImageCount() returns (objCount: Option<int>, total: nat)
    ensures objCount == Some(-2)
    ensures total == 0
  {
    var t := Terrain(1, 1, [0], []);
    var st := Sections([], [], [], false, false, false, 0, 0, 0, 0);
    var labels, st', ok;
    labels, objCount, st', ok := WatershedRun(t, st);
    labels, total, st', ok := WatershedCount(t, st);
  }

  /** The end of `watershedRun()`: with sections defined and a count made,
      every section is counted again on the new labels. */
  method Recount(st: Sections, width: int, height: int, labels: seq<int>, objCount: Option<int>) returns (st': Sections, ok: bool)
    requires Aligned(st)
    ensures Aligned(st') && st'.coords == st.coords && st'.names == st.names
    ensures objCount.Some? && |st.names| > 0 && ok ==> forall k :: 0 <= k < |st.coords| ==>
      st'.counts[k] == DotCount(Scene(width, height, labels, objCount.value), st.coords[k])
    ensures objCount.Some? && |st.names| > 0 ==>
      (ok <==> forall k :: 0 <= k < |st.coords| ==> InImage(Scene(width, height, labels, objCount.value), st.coords[k]))
    ensures objCount.Some? && |st.names| > 0 && !ok ==>
      StoppedAt(st, st', Scene(width, height, labels, objCount.value))
    ensures objCount.None? || |st.names| == 0 ==> st' == st && ok
  {
    st', ok := st, true;
    if objCount.Some? && |st.names| > 0 {
      st', ok := RecountAll(st, Scene(width, height, labels, objCount.value));
    }
  }

  /** The passes and `reLabel`: `catchmentDefs` from the terrain. */
  method Segment(t: Terrain) returns (labels: seq<int>)
    requires Valid(t)
    ensures |labels| == |t.alt|
    ensures forall i :: 0 <= i < |t.alt| && i !in t.white ==> labels[i] == -2
    ensures forall p :: p in t.white ==> 1 <= labels[p] <= |Minima(t)|
    ensures forall a, b :: RegionalMinimum(t, a) && RegionalMinimum(t, b) ==>
      (labels[a] == labels[b] <==> Connected(t, Whites(t), a, b))
    ensures forall p, q :: p in t.white && q != -1 && SteepestDescent(t, p, q) ==> labels[p] == labels[q]
    ensures forall p :: p in t.white ==> (!RegionalMinimum(t, p) <==> exists d: nat :: Distance(t, p, d))
    ensures forall p, d: nat :: p in t.white && Distance(t, p, d) && d > 0 ==>
      exists q :: Neighbour(t, p, q) && t.alt[q] == t.alt[p] && DrainsWithin(t, q, d - 1) && labels[p] == labels[q]
    ensures |t.alt| == 0 ==> ArrayMax(labels) == None
    ensures |t.white| > 0 ==> ArrayMax(labels) == Some(|Minima(t)|)
    ensures |t.alt| > 0 && |t.white| == 0 ==> ArrayMax(labels) == Some(-2)
  {
    var pt := Passes(t);
    labels := ReLabel(pt, t.white);
    ValuesAreMinima(t, pt);
    LabelsInRange(pt, t.white, labels);
    LabelledMinima(t, pt, labels);
    LabelledDescent(t, pt, labels);
    LabelledNearer(t, pt, labels);
    ObjCount(pt, t.white, labels);
    if |t.white| > 0 {
      assert t.white[0] in t.white;
    }
  }

  /** Regional minima share a dot number exactly when they are connected. */
  lemma LabelledMinima(t: Terrain, pt: seq<int>, labels: seq<int>)
    requires Valid(t) && |pt| == |t.alt|
    requires forall a, b :: RegionalMinimum(t, a) && RegionalMinimum(t, b) ==>
      (pt[a] == pt[b] <==> Connected(t, Whites(t), a, b))
    requires Relabelled(pt, t.white, labels)
    ensures forall a, b :: RegionalMinimum(t, a) && RegionalMinimum(t, b) ==>
      (labels[a] == labels[b] <==> Connected(t, Whites(t), a, b))
  {
    forall a, b | RegionalMinimum(t, a) && RegionalMinimum(t, b)
      ensures labels[a] == labels[b] <==> pt[a] == pt[b]
    {
      SameLabel(pt, t.white, labels, a, b);
    }
  }

  /** A pixel and its steepest lower neighbour share a dot number. */
  lemma LabelledDescent(t: Terrain, pt: seq<int>, labels: seq<int>)
    requires Valid(t) && |pt| == |t.alt|
    requires forall p, q :: p in t.white && q != -1 && SteepestDescent(t, p, q) ==> pt[p] == pt[q]
    requires Relabelled(pt, t.white, labels)
    ensures forall p, q :: p in t.white && q != -1 && SteepestDescent(t, p, q) ==> labels[p] == labels[q]
  {
    forall p, q | p in t.white && q != -1 && SteepestDescent(t, p, q)
      ensures labels[p] == labels[q]
    {
      assert Neighbour(t, p, q);
      SameLabel(pt, t.white, labels, p, q);
    }
  }

  /** A pixel on a plateau with a way down shares its dot number with a
      level neighbour one step nearer that way. */
  lemma LabelledNearer(t: Terrain, pt: seq<int>, labels: seq<int>)
    requires Valid(t) && |pt| == |t.alt|
    requires forall p, d: nat :: p in t.white && Distance(t, p, d) && d > 0 ==>
      exists q :: Neighbour(t, p, q) && t.alt[q] == t.alt[p] && DrainsWithin(t, q, d - 1) && pt[p] == pt[q]
    requires Relabelled(pt, t.white, labels)
    ensures forall p, d: nat :: p in t.white && Distance(t, p, d) && d > 0 ==>
      exists q :: Neighbour(t, p, q) && t.alt[q] == t.alt[p] && DrainsWithin(t, q, d - 1) && labels[p] == labels[q]
  {
    forall p, d: nat | p in t.white && Distance(t, p, d) && d > 0
      ensures exists q :: Neighbour(t, p, q) && t.alt[q] == t.alt[p] && DrainsWithin(t, q, d - 1) && labels[p] == labels[q]
    {
      var q :| Neighbour(t, p, q) && t.alt[q] == t.alt[p] && DrainsWithin(t, q, d - 1) && pt[p] == pt[q];
      SameLabel(pt, t.white, labels, p, q);
    }
  }
}
