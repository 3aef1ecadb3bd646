/** Scans of the pixel array: `getCol`, which lists the pixels of one colour,
    and `getNeighbours`, which lists the white pixels around a pixel. */
module Neighbours {

  import opened Sorting
  import opened Grid

  /** `getCol`: the indices of the pixels equal to `col`, in ascending order. */
  method GetCol<T(==)>(pixels: seq<T>, col: T) returns (pix: seq<int>)
    ensures StrictlyIncreasing(pix)
    ensures forall j :: j in pix <==> 0 <= j < |pixels| && pixels[j] == col
  {
    pix := [];
    var j := 0;
    while j < |pixels|
      invariant 0 <= j <= |pixels|
      invariant StrictlyIncreasing(pix)
      invariant forall i :: 0 <= i < |pix| ==> pix[i] < j
      invariant forall i :: i in pix <==> 0 <= i < j && pixels[i] == col
    {
      if pixels[j] == col {
        pix := pix + [j];
      }
      j := j + 1;
    }
  }

  /** Every pixel with the coordinates (x, y) of an in-bounds position is the
      pixel x + y*width. */
  lemma PixelAt(t: Terrain, x: int, y: int, n: int)
    requires t.width > 0 && 0 <= x < t.width && 0 <= n
    requires Col(t, n) == x && Row(t, n) == y
    ensures n == x + y * t.width
  {
    IndexOfCoords(t.width, n);
  }

  /** `getNeighbours`: the white pixels among the eight around `loc`, sorted. */
  method GetNeighbours(t: Terrain, loc: int) returns (neis: seq<int>)
    requires Valid(t) && 0 <= loc < |t.alt|
    ensures StrictlyIncreasing(neis)
    ensures forall n :: n in neis <==> Neighbour(t, loc, n)
    ensures forall i :: 0 <= i < |neis| ==> Neighbour(t, loc, neis[i])
  {
    var w := t.width;
    var list: seq<int> := [];
    var lx := loc % w;
    var ly := loc / w;
    RowInRange(w, t.height, loc);
    var j := lx - 1;
    while j < lx + 2
      invariant lx - 1 <= j <= lx + 2
      invariant NoDuplicates(list)
      invariant forall n :: n in list <==> Neighbour(t, loc, n) && Col(t, n) < j
    {
      var k := ly - 1;
      while k < ly + 2
        invariant ly - 1 <= k <= ly + 2
        invariant NoDuplicates(list)
        invariant forall n :: n in list <==>
          Neighbour(t, loc, n) && (Col(t, n) < j || (Col(t, n) == j && Row(t, n) < k))
      {
        if lx == j && ly == k {
          forall n | Neighbour(t, loc, n) && Col(t, n) == j
            ensures Row(t, n) != k
          {
            IndexOfCoords(w, loc);
            PixelAt(t, j, Row(t, n), n);
          }
        } else if 0 <= j < w && 0 <= k < t.height {
          var nloc := j + k * w;
          CoordsOfIndex(w, j, k);
          IndexInRange(w, t.height, j, k);
          forall n | Neighbour(t, loc, n) && Col(t, n) == j && Row(t, n) == k
            ensures n == nloc
          {
            PixelAt(t, j, k, n);
          }
          if nloc in t.white {
            assert nloc !in list;
            list := list + [nloc];
          }
        } else {
          forall n | Neighbour(t, loc, n) && Col(t, n) == j
            ensures Row(t, n) != k
          {
            RowInRange(w, t.height, n);
          }
        }
        k := k + 1;
      }
      j := j + 1;
    }
    neis := Sort(list);
    SortSameElements(list);
    assert forall i :: 0 <= i < |neis| ==> neis[i] in neis;
  }
}
