/** Sections: user-drawn rectangles with a name and a dot count each, kept
    in three parallel lists (`sectionList`, `sectionNames`, `sectionCounts`),
    and the mouse-click state machines that define sections and the crop
    rectangle. */
module Sections {

  import opened Basics
  import opened Filters

  /** The section bookkeeping of the analysis window: the three lists, the
      selection flags, and the two corners (window coordinates) of the
      section being drawn; (sec2x, sec2y) follows the mouse. */
  datatype Sections = Sections(
    coords: seq<Rect>, names: seq<string>, counts: seq<int>,
    midSection: bool, drawSection: bool, sectionActive: bool,
    sec1x: int, sec1y: int, sec2x: int, sec2y: int)

  /** The three lists describe the same sections. */
  predicate Aligned(s: Sections)
  {
    |s.coords| == |s.names| == |s.counts|
  }

  /** What the dot counts are read from: the image size and `catchmentDefs`. */
  datatype Scene = Scene(width: int, height: int, labels: seq<int>, objCount: int)

  /** The name of section number n (counting from 1). */
  function SectionName(n: int): string
  {
    "Sec_" + IntString(n)
  }

  lemma SectionNameInjective(a: int, b: int)
    ensures SectionName(a) == SectionName(b) <==> a == b
  {
    if SectionName(a) == SectionName(b) {
      assert IntString(a) == SectionName(a)[4..];
      assert IntString(b) == SectionName(b)[4..];
      IntStringInjective(a, b);
    }
  }

  /** The pixel indices `i + j*width` visited for columns xlo..xhi-1 and rows
      ylo..yhi-1, column by column. */
  function Column(i: int, ylo: int, yhi: int, width: int): set<int>
    decreases yhi - ylo
  {
    if yhi <= ylo then {} else Column(i, ylo, yhi - 1, width) + {i + (yhi - 1) * width}
  }

  function Cells(xlo: int, xhi: int, ylo: int, yhi: int, width: int): set<int>
    decreases xhi - xlo
  {
    if xhi <= xlo then {} else Cells(xlo, xhi - 1, ylo, yhi, width) + Column(xhi - 1, ylo, yhi, width)
  }

  /** Every point of the half-open rectangle is visited ... */
  lemma {:induction false} CellIn(xlo: int, xhi: int, ylo: int, yhi: int, width: int, i: int, j: int)
    requires xlo <= i < xhi && ylo <= j < yhi
    ensures i + j * width in Cells(xlo, xhi, ylo, yhi, width)
    decreases xhi - xlo
  {
    if i < xhi - 1 {
      CellIn(xlo, xhi - 1, ylo, yhi, width, i, j);
    } else {
      ColumnIn(i, ylo, yhi, width, j);
    }
  }

  lemma {:induction false} ColumnIn(i: int, ylo: int, yhi: int, width: int, j: int)
    requires ylo <= j < yhi
    ensures i + j * width in Column(i, ylo, yhi, width)
    decreases yhi - ylo
  {
    if j < yhi - 1 {
      ColumnIn(i, ylo, yhi - 1, width, j);
    }
  }

  /** ... and nothing else is. */
  lemma {:induction false} CellOf(xlo: int, xhi: int, ylo: int, yhi: int, width: int, loc: int) returns (i: int, j: int)
    requires loc in Cells(xlo, xhi, ylo, yhi, width)
    ensures xlo <= i < xhi && ylo <= j < yhi && loc == i + j * width
    decreases xhi - xlo
  {
    if loc in Cells(xlo, xhi - 1, ylo, yhi, width) {
      i, j := CellOf(xlo, xhi - 1, ylo, yhi, width, loc);
    } else {
      i := xhi - 1;
      j := ColumnOf(i, ylo, yhi, width, loc);
    }
  }

  lemma {:induction false} ColumnOf(i: int, ylo: int, yhi: int, width: int, loc: int) returns (j: int)
    requires loc in Column(i, ylo, yhi, width)
    ensures ylo <= j < yhi && loc == i + j * width
    decreases yhi - ylo
  {
    if loc in Column(i, ylo, yhi - 1, width) {
      j := ColumnOf(i, ylo, yhi - 1, width, loc);
    } else {
      j := yhi - 1;
    }
  }

  /** The dot labels (other than -2) found at the in-range indices of S. */
  ghost function LabelsIn(labels: seq<int>, S: set<int>): set<int>
  {
    set loc | loc in S && 0 <= loc < |labels| && labels[loc] != -2 :: labels[loc]
  }

  lemma LabelsInAdd(labels: seq<int>, S: set<int>, loc: int)
    requires 0 <= loc < |labels|
    ensures LabelsIn(labels, S + {loc}) == LabelsIn(labels, S) + (if labels[loc] != -2 then {labels[loc]} else {})
  {
    var a, b := LabelsIn(labels, S + {loc}), LabelsIn(labels, S) + (if labels[loc] != -2 then {labels[loc]} else {});
    forall v | v in a
      ensures v in b
    {
      var l :| l in S + {loc} && 0 <= l < |labels| && labels[l] != -2 && labels[l] == v;
      if l != loc {
        assert v in LabelsIn(labels, S);
      }
    }
  }

  function Elems(s: seq<int>): set<int>
  {
    set x | x in s
  }

  lemma ElemsSnoc(s: seq<int>, x: int)
    ensures Elems(s + [x]) == Elems(s) + {x}
  {
    assert forall y :: y in s + [x] <==> y in s || y == x;
  }

  /** The rectangle of section coordinates c in image space. */
  function SectionBox(sc: Scene, c: Rect): Rect
  {
    ToImage(sc.width, sc.height, c.x1, c.y1, c.x2, c.y2)
  }

  /** The pixel indices `countSecs` reads for a section. */
  function SectionCells(sc: Scene, c: Rect): set<int>
  {
    var b := SectionBox(sc, c);
    Cells(Min(b.x1, b.x2), Max(b.x1, b.x2), Min(b.y1, b.y2), Max(b.y1, b.y2), sc.width)
  }

  /** The dot count of `countSecs` for a section with window coordinates c:
      the number of different labels other than -2 over the columns
      [min x, max x) and rows [min y, max y) in image space. `None` when the
      rectangle reaches an index outside `catchmentDefs`, where Java throws. */
  method CountDots(sc: Scene, c: Rect) returns (count: Option<int>)
    ensures count.None? <==> exists loc :: loc in SectionCells(sc, c) && !(0 <= loc < |sc.labels|)
    ensures count.Some? ==> count.value == |LabelsIn(sc.labels, SectionCells(sc, c))|
  {
    var b := SectionBox(sc, c);
    assert SectionCells(sc, c) == Cells(Min(b.x1, b.x2), Max(b.x1, b.x2), Min(b.y1, b.y2), Max(b.y1, b.y2), sc.width);
    count := ScanCells(sc.labels, sc.width, Min(b.x1, b.x2), Max(b.x1, b.x2), Min(b.y1, b.y2), Max(b.y1, b.y2));
  }

  /** The two loops of `countSecs` over columns xlo..xhi-1 and rows
      ylo..yhi-1. */
  method ScanCells(labels: seq<int>, width: int, xlo: int, xhi: int, ylo: int, yhi: int) returns (count: Option<int>)
    requires xlo <= xhi && ylo <= yhi
    ensures count.None? <==> exists loc :: loc in Cells(xlo, xhi, ylo, yhi, width) && !(0 <= loc < |labels|)
    ensures count.Some? ==> count.value == |LabelsIn(labels, Cells(xlo, xhi, ylo, yhi, width))|
  {
    var dots: seq<int> := [];
    var i := xlo;
    while i < xhi
      invariant xlo <= i <= xhi
      invariant forall loc :: loc in Cells(xlo, i, ylo, yhi, width) ==> 0 <= loc < |labels|
      invariant Elems(dots) == LabelsIn(labels, Cells(xlo, i, ylo, yhi, width))
      invariant |Elems(dots)| == |dots|
      decreases xhi - i
    {
      var ok;
      ok, dots := ScanColumn(labels, width, i, ylo, yhi, dots, Cells(xlo, i, ylo, yhi, width));
      CellsStep(xlo, i, xhi, ylo, yhi, width);
      if !ok {
        return None;
      }
      i := i + 1;
    }
    return Some(|dots|);
  }

  /** Column i is the step from i to i + 1 columns, and lies among all xhi. */
  lemma CellsStep(xlo: int, i: int, xhi: int, ylo: int, yhi: int, width: int)
    requires xlo <= i < xhi
    ensures Cells(xlo, i + 1, ylo, yhi, width) == Cells(xlo, i, ylo, yhi, width) + Column(i, ylo, yhi, width)
    ensures Column(i, ylo, yhi, width) <= Cells(xlo, xhi, ylo, yhi, width)
  {
    CellsGrow(xlo, i + 1, xhi, ylo, yhi, width);
  }

  /** Visiting more columns visits a superset. */
  lemma {:induction false} CellsGrow(xlo: int, xmid: int, xhi: int, ylo: int, yhi: int, width: int)
    requires xlo <= xmid <= xhi
    ensures Cells(xlo, xmid, ylo, yhi, width) <= Cells(xlo, xhi, ylo, yhi, width)
    decreases xhi - xmid
  {
    if xmid < xhi {
      CellsGrow(xlo, xmid, xhi - 1, ylo, yhi, width);
    }
  }

  /** The inner loop of `countSecs`: the rows of column i, collecting new
      labels into dots; false when it meets an index outside labels. */
  method ScanColumn(labels: seq<int>, width: int, i: int, ylo: int, yhi: int, dots: seq<int>, ghost before: set<int>)
    returns (ok: bool, dots': seq<int>)
    requires ylo <= yhi
    requires Elems(dots) == LabelsIn(labels, before) && |Elems(dots)| == |dots|
    ensures ok <==> forall loc :: loc in Column(i, ylo, yhi, width) ==> 0 <= loc < |labels|
    ensures ok ==> Elems(dots') == LabelsIn(labels, before + Column(i, ylo, yhi, width))
    ensures ok ==> |Elems(dots')| == |dots'|
  {
    dots' := dots;
    var j := ylo;
    while j < yhi
      invariant ylo <= j <= yhi
      invariant forall loc :: loc in Column(i, ylo, j, width) ==> 0 <= loc < |labels|
      invariant Elems(dots') == LabelsIn(labels, before + Column(i, ylo, j, width))
      invariant |Elems(dots')| == |dots'|
      decreases yhi - j
    {
      var loc := i + j * width;
      if !(0 <= loc < |labels|) {
        ColumnIn(i, ylo, yhi, width, j);
        return false, dots';
      }
      var val := labels[loc];
      ghost var prev := dots';
      if val in dots' {
      } else if val != -2 {
        dots' := dots' + [val];
      }
      ScanStep(labels, width, i, ylo, j, before, prev, dots');
      j := j + 1;
    }
    return true, dots';
  }

  /** Reading the cell of row j into the list of labels seen keeps the list
      free of repeats and equal to the labels of the cells read so far. */
  lemma ScanStep(labels: seq<int>, width: int, i: int, ylo: int, j: int, before: set<int>, dots: seq<int>, dots': seq<int>)
    requires ylo <= j && 0 <= i + j * width < |labels|
    requires Elems(dots) == LabelsIn(labels, before + Column(i, ylo, j, width)) && |Elems(dots)| == |dots|
    requires var v := labels[i + j * width]; dots' == if v in dots || v == -2 then dots else dots + [v]
    ensures Column(i, ylo, j + 1, width) == Column(i, ylo, j, width) + {i + j * width}
    ensures Elems(dots') == LabelsIn(labels, before + Column(i, ylo, j + 1, width)) && |Elems(dots')| == |dots'|
  {
    var loc := i + j * width;
    var v := labels[loc];
    var seen := before + Column(i, ylo, j, width);
    assert seen + {loc} == before + Column(i, ylo, j + 1, width);
    LabelsInAdd(labels, seen, loc);
    if v in dots {
      assert v in Elems(dots);
      assert LabelsIn(labels, seen + {loc}) == LabelsIn(labels, seen);
    } else if v == -2 {
      assert LabelsIn(labels, seen + {loc}) == LabelsIn(labels, seen);
    } else {
      ElemsSnoc(dots, v);
      assert v !in Elems(dots);
      assert Elems(dots') == Elems(dots) + {v};
    }
  }

  /** The dot count of section c as `countSecs` would store it. */
  ghost function DotCount(sc: Scene, c: Rect): int
  {
    |LabelsIn(sc.labels, SectionCells(sc, c))|
  }

  /** The rectangle of section c reads only indices inside `catchmentDefs`. */
  ghost predicate InImage(sc: Scene, c: Rect)
  {
    forall loc :: loc in SectionCells(sc, c) ==> 0 <= loc < |sc.labels|
  }

  /** `countSecs(sec)`: stores the dot count of section sec; ok is false
      (and nothing changes) when Java would throw on an index outside the
      image. */
  method CountSecs(st: Sections, sc: Scene, sec: int) returns (st': Sections, ok: bool)
    requires Aligned(st) && 0 <= sec < |st.coords|
    ensures ok <==> InImage(sc, st.coords[sec])
    ensures !ok ==> st' == st
    ensures ok ==> st' == st.(counts := st.counts[sec := DotCount(sc, st.coords[sec])])
  {
    var count := CountDots(sc, st.coords[sec]);
    if count.None? {
      return st, false;
    }
    return st.(counts := st.counts[sec := count.value]), true;
  }

  /** `makeSection()`: appends the rectangle (sec1, sec2), the name
      "Sec_<n+1>" and the count 0, ends the drawing, and counts the new
      section when dots have been counted. */
  method MakeSection(st: Sections, sc: Scene) returns (st': Sections, ok: bool)
    requires Aligned(st)
    ensures Aligned(st')
    ensures |st'.names| == |st.names| + 1
    ensures st'.coords == st.coords + [Rect(st.sec1x, st.sec1y, st.sec2x, st.sec2y)]
    ensures st'.names == st.names + [SectionName(|st.names| + 1)]
    ensures st'.counts[..|st.counts|] == st.counts
    ensures sc.objCount <= 0 || !ok ==> st'.counts[|st.counts|] == 0
    ensures sc.objCount > 0 && ok ==> st'.counts[|st.counts|] == DotCount(sc, st'.coords[|st.counts|])
    ensures ok <==> sc.objCount <= 0 || InImage(sc, Rect(st.sec1x, st.sec1y, st.sec2x, st.sec2y))
    ensures !st'.drawSection && !st'.sectionActive && st'.midSection == st.midSection
    ensures st'.sec1x == st.sec1x && st'.sec1y == st.sec1y && st'.sec2x == st.sec2x && st'.sec2y == st.sec2y
  {
    var maxsec := |st.names|;
    var c := Rect(st.sec1x, st.sec1y, st.sec2x, st.sec2y);
    st' := st.(coords := st.coords + [c], names := st.names + [SectionName(maxsec + 1)], counts := st.counts + [0],
               drawSection := false, sectionActive := false);
    ok := true;
    if sc.objCount > 0 {
      st', ok := CountSecs(st', sc, |st'.names| - 1);
    }
    assert st'.counts[..|st.counts|] == st.counts;
  }

  /** `clearSecs(fullwipe)`: without fullwipe every count goes back to 0,
      with it all three lists are emptied; either way selection stops. */
  function ClearSecs(st: Sections, fullwipe: bool): (st': Sections)
    requires Aligned(st)
    ensures Aligned(st')
    ensures !fullwipe ==> st'.coords == st.coords && st'.names == st.names && |st'.counts| == |st.counts|
    ensures !fullwipe ==> forall k :: 0 <= k < |st'.counts| ==> st'.counts[k] == 0
    ensures fullwipe ==> st'.coords == [] && st'.names == [] && st'.counts == []
    ensures !st'.midSection && !st'.drawSection && !st'.sectionActive
    ensures st'.sec1x == st.sec1x && st'.sec1y == st.sec1y && st'.sec2x == st.sec2x && st'.sec2y == st.sec2y
  {
    var cleared :=
      if fullwipe then st.(coords := [], names := [], counts := [])
      else st.(counts := seq(|st.counts|, k => 0));
    cleared.(midSection := false, drawSection := false, sectionActive := false)
  }

  /** `sectionCheck(xpos, ypos)`, a click in the analysis window: outside
      the image nothing happens; the first click inside fixes the first
      corner and starts drawing; the second stores the section, whose other
      corner is where the mouse was last tracked (sec2x, sec2y). */
  method SectionCheck(st: Sections, sc: Scene, inArea: bool, xpos: int, ypos: int) returns (st': Sections, ok: bool)
    requires Aligned(st)
    ensures Aligned(st')
    ensures !inArea ==> st' == st && ok
    ensures inArea && !st.midSection ==>
      ok && st' == st.(sec1x := xpos, sec1y := ypos, drawSection := true, midSection := true)
    ensures inArea && st.midSection ==>
      && st'.coords == st.coords + [Rect(st.sec1x, st.sec1y, st.sec2x, st.sec2y)]
      && st'.names == st.names + [SectionName(|st.names| + 1)]
      && st'.counts[..|st.counts|] == st.counts
      && (sc.objCount <= 0 || !ok ==> st'.counts[|st.counts|] == 0)
      && (sc.objCount > 0 && ok ==> st'.counts[|st.counts|] == DotCount(sc, st'.coords[|st.counts|]))
      && (ok <==> sc.objCount <= 0 || InImage(sc, Rect(st.sec1x, st.sec1y, st.sec2x, st.sec2y)))
      && (st'.midSection <==> !ok) && !st'.drawSection && !st'.sectionActive
      && st'.sec1x == st.sec1x && st'.sec1y == st.sec1y && st'.sec2x == st.sec2x && st'.sec2y == st.sec2y
  {
    st', ok := st, true;
    if inArea {
      if !st.midSection {
        st' := st.(sec1x := xpos, sec1y := ypos, drawSection := true, midSection := true);
      } else {
        st', ok := MakeSection(st, sc);
        if ok {
          st' := st'.(midSection := false);
        }
      }
    }
  }

  /** Section names are "Sec_1", "Sec_2", ... in order. */
  predicate Numbered(st: Sections)
  {
    forall k :: 0 <= k < |st.names| ==> st.names[k] == SectionName(k + 1)
  }

  /** Numbered names are all different. */
  lemma NumberedDistinct(st: Sections)
    requires Numbered(st)
    ensures forall a, b :: 0 <= a < b < |st.names| ==> st.names[a] != st.names[b]
  {
    forall a, b | 0 <= a < b < |st.names|
      ensures st.names[a] != st.names[b]
    {
      SectionNameInjective(a + 1, b + 1);
    }
  }

  /** Creating and clearing sections keeps the names numbered. */
  lemma ClearKeepsNumbered(st: Sections, fullwipe: bool)
    requires Aligned(st) && Numbered(st)
    ensures Numbered(ClearSecs(st, fullwipe))
  {
  }

  /** What `selSection` does to the state on each frame the mouse spends
      over the image at (mx, my): during a selection the second corner
      follows the mouse. */
  function TrackCorner(st: Sections, mx: int, my: int): (st': Sections)
    ensures st'.coords == st.coords && st'.names == st.names && st'.counts == st.counts
    ensures st'.midSection == st.midSection && st'.drawSection == st.drawSection
    ensures st'.sectionActive == st.sectionActive
    ensures st'.sec1x == st.sec1x && st'.sec1y == st.sec1y
    ensures st.midSection ==> st'.sec2x == mx && st'.sec2y == my
    ensures !st.midSection ==> st' == st
  {
    if st.midSection then st.(sec2x := mx, sec2y := my) else st
  }

  /** Two clicks inside the image, starting idle, with the mouse last
      tracked at (sx, sy) before the second: exactly one section is added,
      spanning the first click and (sx, sy), named next in order and
      counted when dots have been counted; selection mode ends, and the
      selection is idle again unless the count failed. */
  method TwoClicks(st: Sections, sc: Scene, x1: int, y1: int, sx: int, sy: int) returns (st'': Sections, ok: bool)
    requires Aligned(st) && !st.midSection
    ensures Aligned(st'')
    ensures st''.coords == st.coords + [Rect(x1, y1, sx, sy)]
    ensures st''.names == st.names + [SectionName(|st.names| + 1)]
    ensures Numbered(st) ==> Numbered(st'')
    ensures st''.counts[..|st.counts|] == st.counts
    ensures sc.objCount <= 0 || !ok ==> st''.counts[|st.counts|] == 0
    ensures sc.objCount > 0 && ok ==> st''.counts[|st.counts|] == DotCount(sc, Rect(x1, y1, sx, sy))
    ensures ok <==> sc.objCount <= 0 || InImage(sc, Rect(x1, y1, sx, sy))
    ensures !st''.drawSection && !st''.sectionActive
    ensures st''.midSection <==> !ok
  {
    var st', ok1 := SectionCheck(st, sc, true, x1, y1);
    assert st'.sec1x == x1 && st'.sec1y == y1 && st'.midSection;
    assert st'.coords == st.coords && st'.names == st.names && st'.counts == st.counts;
    st' := TrackCorner(st', sx, sy);
    assert Aligned(st') && st'.midSection && st'.coords == st.coords && st'.names == st.names && st'.counts == st.counts;
    assert Rect(st'.sec1x, st'.sec1y, st'.sec2x, st'.sec2y) == Rect(x1, y1, sx, sy);
    st'', ok := SectionCheck(st', sc, true, sx, sy);
  }

  /** The `watershedRun` recount: `countSecs(i)` for every section in turn,
      stopping where Java would throw. */
  method RecountAll(st: Sections, sc: Scene) returns (st': Sections, ok: bool)
    requires Aligned(st)
    ensures Aligned(st') && st'.coords == st.coords && st'.names == st.names
    ensures ok <==> forall k :: 0 <= k < |st.coords| ==> InImage(sc, st.coords[k])
    ensures ok ==> forall k :: 0 <= k < |st.coords| ==> st'.counts[k] == DotCount(sc, st.coords[k])
    ensures !ok ==> StoppedAt(st, st', sc)
  {
    st' := st;
    var i := 0;
    while i < |st'.names|
      invariant 0 <= i <= |st.names|
      invariant Aligned(st') && st'.coords == st.coords && st'.names == st.names
      invariant forall k :: 0 <= k < i ==> InImage(sc, st.coords[k])
      invariant forall k :: 0 <= k < i ==> st'.counts[k] == DotCount(sc, st.coords[k])
      invariant st'.counts[i..] == st.counts[i..]
    {
      var ok1;
      ghost var before := st';
      st', ok1 := CountSecs(st', sc, i);
      if !ok1 {
        assert Stop(st, st', sc, i);
        return st', false;
      }
      assert st'.counts[i + 1..] == before.counts[i + 1..];
      i := i + 1;
    }
    return st', true;
  }

  /** The recount threw at section i: the sections before it lie in the
      image and are recounted, section i does not lie in the image, and it
      and the sections after it keep their old counts. */
  ghost predicate Stop(st: Sections, st': Sections, sc: Scene, i: int)
    requires Aligned(st) && Aligned(st') && |st'.counts| == |st.counts|
  {
    && 0 <= i < |st.coords|
    && !InImage(sc, st.coords[i])
    && (forall k :: 0 <= k < i ==> InImage(sc, st.coords[k]) && st'.counts[k] == DotCount(sc, st.coords[k]))
    && st'.counts[i..] == st.counts[i..]
  }

  /** The recount threw at some section. */
  ghost predicate StoppedAt(st: Sections, st': Sections, sc: Scene)
  {
    Aligned(st) && Aligned(st') && |st'.counts| == |st.counts| && exists i :: Stop(st, st', sc, i)
  }

  /** The crop-selection clicks: `midCrop` while the first corner is set,
      `drawCrop` once a crop rectangle is in use, and the first corner. */
  datatype CropClicks = CropClicks(midCrop: bool, drawCrop: bool, crop1x: int, crop1y: int)

  /** `croppingCheck(xpos, ypos)`. */
  function CroppingCheck(cc: CropClicks, inArea: bool, xpos: int, ypos: int): (cc': CropClicks)
    ensures !inArea ==> cc' == cc
    ensures inArea ==> cc'.midCrop == !cc.midCrop
    ensures inArea && !cc.midCrop ==> cc'.drawCrop && cc'.crop1x == xpos && cc'.crop1y == ypos
    ensures inArea && cc.midCrop ==> cc'.drawCrop == cc.drawCrop && cc'.crop1x == cc.crop1x && cc'.crop1y == cc.crop1y
  {
    if !inArea then cc
    else if !cc.midCrop then CropClicks(true, true, xpos, ypos)
    else cc.(midCrop := false)
  }

  /** Two clicks inside the image from idle: back to idle, cropping on, and
      the first corner is the first click. */
  lemma CropTwoClicks(cc: CropClicks, x1: int, y1: int, x2: int, y2: int)
    requires !cc.midCrop
    ensures CroppingCheck(CroppingCheck(cc, true, x1, y1), true, x2, y2) == CropClicks(false, true, x1, y1)
  {
  }
}
