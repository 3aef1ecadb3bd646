/** The two image edits in front of the watershed: `rgbFilter`, which caps
    each colour channel, and the rectangular branch of `drawCrop`, which
    blackens everything outside the selected rectangle. Images are
    row-major, pixel (x, y) at index x + y*width. */
module Filters {

  import opened Basics
  import opened Colour
  import opened Grid

  /** The analysis window, `winwidth` x `winheight`; the image is drawn
      centred in it. */
  const WinWidth := 800
  const WinHeight := 550

  /** `rgbFilter` on one pixel: each channel lowered to its ceiling if above
      it, then recombined by `color`. */
  function Capped(c: int, rval: int, gval: int, bval: int): int
  {
    Rgb(Min(Red(c), rval), Min(Green(c), gval), Min(Blue(c), bval))
  }

  /** out is `rgbFilter(img, rval, gval, bval)` of the pixels p. */
  ghost predicate FilteredBy(p: seq<int>, rval: int, gval: int, bval: int, out: seq<int>)
  {
    && |out| == |p|
    && forall i :: 0 <= i < |p| ==> out[i] == Capped(p[i], rval, gval, bval)
  }

  /** `rgbFilter(img, rval, gval, bval)`: a column-by-column sweep. */
  method RgbFilter(width: int, height: int, p: seq<int>, rval: int, gval: int, bval: int) returns (out: seq<int>)
    requires width >= 0 && height >= 0 && |p| == width * height
    ensures FilteredBy(p, rval, gval, bval, out)
  {
    out := p;
    if width == 0 {
      return;
    }
    var x := 0;
    while x < width
      invariant 0 <= x <= width
      invariant FilteredTo(width, p, rval, gval, bval, out, x, 0)
    {
      var y := 0;
      while y < height
        invariant 0 <= y <= height
        invariant FilteredTo(width, p, rval, gval, bval, out, x, y)
      {
        var loc := x + y * width;
        FilterStep(width, height, p, rval, gval, bval, out, x, y);
        var cr, cg, cb := Red(out[loc]), Green(out[loc]), Blue(out[loc]);
        if cr > rval { cr := rval; }
        if cg > gval { cg := gval; }
        if cb > bval { cb := bval; }
        out := out[loc := Rgb(cr, cg, cb)];
        y := y + 1;
      }
      ColumnDone(width, height, p, rval, gval, bval, out, x);
      x := x + 1;
    }
  }

  /** The sweep has capped the columns left of x and the rows above y in
      column x, and nothing else. */
  ghost predicate FilteredTo(width: int, p: seq<int>, rval: int, gval: int, bval: int, out: seq<int>, x: int, y: int)
    requires width > 0
  {
    && |out| == |p|
    && forall i :: 0 <= i < |p| ==>
         out[i] == (if i % width < x || (i % width == x && i / width < y) then Capped(p[i], rval, gval, bval) else p[i])
  }

  /** Capping the pixel at (x, y), still unfiltered, moves the sweep one row
      down. */
  lemma FilterStep(width: int, height: int, p: seq<int>, rval: int, gval: int, bval: int, out: seq<int>, x: int, y: int)
    requires width > 0 && |p| == width * height && 0 <= x < width && 0 <= y < height
    requires FilteredTo(width, p, rval, gval, bval, out, x, y)
    ensures 0 <= x + y * width < |p| && out[x + y * width] == p[x + y * width]
    ensures FilteredTo(width, p, rval, gval, bval, out[x + y * width := Capped(p[x + y * width], rval, gval, bval)], x, y + 1)
  {
    var loc := x + y * width;
    IndexInRange(width, height, x, y);
    CoordsOfIndex(width, x, y);
    forall i | 0 <= i < |p| && i != loc
      ensures !(i % width == x && i / width == y)
    {
      IndexOfCoords(width, i);
    }
  }

  /** A column swept to the bottom row is done. */
  lemma ColumnDone(width: int, height: int, p: seq<int>, rval: int, gval: int, bval: int, out: seq<int>, x: int)
    requires width > 0 && height >= 0 && |p| == width * height && 0 <= x < width
    requires FilteredTo(width, p, rval, gval, bval, out, x, height)
    ensures FilteredTo(width, p, rval, gval, bval, out, x + 1, 0)
  {
    forall i | 0 <= i < |p|
      ensures out[i] ==
        (if i % width < x + 1 || (i % width == x + 1 && i / width < 0) then Capped(p[i], rval, gval, bval) else p[i])
    {
      InColumnDone(width, height, i, x);
    }
  }

  /** Every pixel of column x lies above the bottom row, and no pixel above
      the top one. */
  lemma InColumnDone(width: int, height: int, i: int, x: int)
    requires width > 0 && height >= 0 && 0 <= i < width * height
    ensures (i % width < x + 1 || (i % width == x + 1 && i / width < 0)) <==>
            (i % width < x || (i % width == x && i / width < height))
  {
    RowInRange(width, height, i);
  }



  /** Capping keeps the result an opaque pixel whose channels are the capped
      ones, forced into 0..255. */
  lemma CappedChannels(c: int, rval: int, gval: int, bval: int)
    ensures IsPixel(Capped(c, rval, gval, bval))
    ensures Red(Capped(c, rval, gval, bval)) == Clamp(Min(Red(c), rval))
    ensures Green(Capped(c, rval, gval, bval)) == Clamp(Min(Green(c), gval))
    ensures Blue(Capped(c, rval, gval, bval)) == Clamp(Min(Blue(c), bval))
    ensures Red(Capped(c, rval, gval, bval)) <= Red(c)
    ensures Green(Capped(c, rval, gval, bval)) <= Green(c)
    ensures Blue(Capped(c, rval, gval, bval)) <= Blue(c)
  {
    RgbChannels(Min(Red(c), rval), Min(Green(c), gval), Min(Blue(c), bval));
  }

  /** Filtering twice with the same ceilings is filtering once. */
  lemma FilterIdempotent(p: seq<int>, rval: int, gval: int, bval: int, q: seq<int>, r: seq<int>)
    requires FilteredBy(p, rval, gval, bval, q)
    requires FilteredBy(q, rval, gval, bval, r)
    ensures r == q
  {
    forall i | 0 <= i < |p|
      ensures r[i] == q[i]
    {
      CappedChannels(p[i], rval, gval, bval);
      CappedChannels(q[i], rval, gval, bval);
    }
  }

  /** The selected rectangle in image coordinates: the two clicked window
      positions, shifted by the margin `(winwidth - width)/2` (Java's
      truncating division) around the centred image. */
  datatype Rect = Rect(x1: int, y1: int, x2: int, y2: int)

  function ToImage(width: int, height: int, c1x: int, c1y: int, c2x: int, c2y: int): (r: Rect)
    ensures r.x1 - r.x2 == c1x - c2x && r.y1 - r.y2 == c1y - c2y
    ensures r.x1 == c1x - JavaDiv(WinWidth - width, 2)
    ensures r.y1 == c1y - JavaDiv(WinHeight - height, 2)
  {
    var dx := JavaDiv(WinWidth - width, 2);
    var dy := JavaDiv(WinHeight - height, 2);
    Rect(c1x - dx, c1y - dy, c2x - dx, c2y - dy)
  }

  /** Pixel index j falls outside the closed rectangle r. */
  predicate Outside(width: int, r: Rect, j: int)
    requires width > 0
  {
    var px, py := j % width, j / width;
    px < Min(r.x1, r.x2) || px > Max(r.x1, r.x2) || py < Min(r.y1, r.y2) || py > Max(r.y1, r.y2)
  }

  /** out is the rectangular `drawCrop` of p: black outside r, unchanged inside. */
  ghost predicate CroppedTo(width: int, r: Rect, p: seq<int>, out: seq<int>)
    requires width > 0 || |p| == 0
  {
    && |out| == |p|
    && (forall j :: 0 <= j < |p| && Outside(width, r, j) ==> out[j] == Black)
    && (forall j :: 0 <= j < |p| && !Outside(width, r, j) ==> out[j] == p[j])
  }

  /** The rectangular branch of `drawCrop()`, the corners being the two
      clicked window positions (crop1x, crop1y) and (crop2x, crop2y). */
  method DrawCrop(width: int, height: int, p: seq<int>, crop1x: int, crop1y: int, crop2x: int, crop2y: int)
    returns (out: seq<int>)
    requires width > 0 || |p| == 0
    ensures CroppedTo(width, ToImage(width, height, crop1x, crop1y, crop2x, crop2y), p, out)
  {
    var r := ToImage(width, height, crop1x, crop1y, crop2x, crop2y);
    out := p;
    var j := 0;
    while j < |out|
      invariant 0 <= j <= |out| == |p|
      invariant forall k :: 0 <= k < j && Outside(width, r, k) ==> out[k] == Black
      invariant forall k :: 0 <= k < |p| && !(k < j && Outside(width, r, k)) ==> out[k] == p[k]
    {
      var px := j % width;
      var py := j / width;
      if px < Min(r.x1, r.x2) || px > Max(r.x1, r.x2) || py < Min(r.y1, r.y2) || py > Max(r.y1, r.y2) {
        out := out[j := Black];
      }
      j := j + 1;
    }
  }

  /** Read on coordinates: the pixel at column x, row y is blackened exactly
      when (x, y) lies outside the rectangle, corners included in it. */
  lemma CropByCoordinates(width: int, height: int, r: Rect, p: seq<int>, out: seq<int>, x: int, y: int)
    requires width > 0 && height >= 0 && |p| == width * height
    requires CroppedTo(width, r, p, out)
    requires 0 <= x < width && 0 <= y < height
    ensures 0 <= x + y * width < |p|
    ensures (x < Min(r.x1, r.x2) || x > Max(r.x1, r.x2) || y < Min(r.y1, r.y2) || y > Max(r.y1, r.y2)) ==>
      out[x + y * width] == Black
    ensures Min(r.x1, r.x2) <= x <= Max(r.x1, r.x2) && Min(r.y1, r.y2) <= y <= Max(r.y1, r.y2) ==>
      out[x + y * width] == p[x + y * width]
  {
    IndexInRange(width, height, x, y);
    CoordsOfIndex(width, x, y);
  }

  /** Cropping again to the same rectangle changes nothing. */
  lemma CropIdempotent(width: int, r: Rect, p: seq<int>, q: seq<int>, s: seq<int>)
    requires width > 0
    requires CroppedTo(width, r, p, q) && CroppedTo(width, r, q, s)
    ensures s == q
  {
    forall j | 0 <= j < |q|
      ensures s[j] == q[j]
    {
    }
  }
}
