/** The image the dot counter works on, as the watershed sees it: a row-major
    grid of `width * height` pixels, pixel (x, y) stored at index x + y*width,
    each with a grey altitude (its red channel), plus the ascending list of the
    pixels that were white after thresholding (`whitePixels`). */
module Grid {

  import opened Sorting

  datatype Terrain = Terrain(width: int, height: int, alt: seq<int>, white: seq<int>)

  predicate Valid(t: Terrain)
  {
    && t.width > 0
    && t.height >= 0
    && |t.alt| == t.width * t.height
    && (forall i :: 0 <= i < |t.alt| ==> 0 <= t.alt[i] <= 255)
    && (forall p :: p in t.white ==> 0 <= p < |t.alt|)
    && (forall k :: 0 <= k < |t.white| ==> 0 <= t.white[k] < |t.alt|)
    && StrictlyIncreasing(t.white)
  }

  function Col(t: Terrain, i: int): int
    requires t.width > 0
  {
    i % t.width
  }

  function Row(t: Terrain, i: int): int
    requires t.width > 0
  {
    i / t.width
  }

  /** b is one of the (up to eight) pixels surrounding a. */
  predicate Adjacent(t: Terrain, a: int, b: int)
    requires t.width > 0
  {
    && 0 <= a < |t.alt|
    && 0 <= b < |t.alt|
    && a != b
    && Col(t, a) - 1 <= Col(t, b) <= Col(t, a) + 1
    && Row(t, a) - 1 <= Row(t, b) <= Row(t, a) + 1
  }

  /** b is a white pixel surrounding a: what `getNeighbours(a)` lists. */
  predicate Neighbour(t: Terrain, a: int, b: int)
    requires t.width > 0
  {
    Adjacent(t, a, b) && b in t.white
  }

  lemma AdjacentSymmetric(t: Terrain, a: int, b: int)
    requires t.width > 0
    ensures Adjacent(t, a, b) <==> Adjacent(t, b, a)
  {
  }

  lemma NeighbourSymmetric(t: Terrain, a: int, b: int)
    requires t.width > 0
    requires a in t.white && b in t.white
    ensures Neighbour(t, a, b) <==> Neighbour(t, b, a)
  {
  }

  lemma MulMono(a: int, b: int, w: int)
    requires a >= b && w >= 0
    ensures a * w >= b * w
  {
    assert a * w - b * w == (a - b) * w;
  }

  /** The only multiple of w strictly between -w and w is zero. */
  lemma SmallMultiple(d: int, w: int)
    requires w > 0 && -w < d * w < w
    ensures d == 0
  {
    if d >= 1 {
      MulMono(d, 1, w);
    } else if d <= -1 {
      MulMono(-d, 1, w);
    }
  }

  /** Index x + y*w has column x and row y. */
  lemma CoordsOfIndex(w: int, x: int, y: int)
    requires w > 0 && 0 <= x < w
    ensures (x + y * w) % w == x
    ensures (x + y * w) / w == y
  {
    var i := x + y * w;
    var q := i / w;
    var r := i % w;
    assert i == q * w + r;
    assert (y - q) * w == r - x;
    SmallMultiple(y - q, w);
  }

  /** Every index is its column plus its row times the width. */
  lemma IndexOfCoords(w: int, i: int)
    requires w > 0
    ensures i == i % w + (i / w) * w
  {
  }

  /** An in-bounds (x, y) has an index inside the pixel array. */
  lemma IndexInRange(w: int, h: int, x: int, y: int)
    requires w > 0 && 0 <= x < w && 0 <= y < h
    ensures 0 <= x + y * w < w * h
  {
    assert y * w <= (h - 1) * w;
    assert (h - 1) * w == h * w - w;
  }

  /** Each index of a w*h array lies in a row below h. */
  lemma RowInRange(w: int, h: int, i: int)
    requires w > 0 && h >= 0 && 0 <= i < w * h
    ensures 0 <= i / w < h
    ensures 0 <= i % w < w
  {
    var q := i / w;
    assert i == q * w + i % w;
    assert q * w < h * w;
    assert (h - q) * w > 0;
  }
}
