/** `drawShed`: painting each dot with a colour from a ten-colour palette,
    handed out in order of first appearance and reused every ten dots, and
    background pixels black. */
module Shed {

  import opened Basics
  import opened Colour
  import opened Labels

  /** `cols = {c0, ..., c9}`. */
  const Palette: seq<int> := [0xff00_3DFF, 0xffFF_0000, 0xffFF_C000, 0xffE0_FF00, 0xff7E_FF00,
                              0xff21_FF00, 0xff00_FF41, 0xff00_FF9F, 0xff00_FDFF, 0xff00_9FFF]

  /** What `drawShed` makes of `catchmentDefs`: black for -2; a value seen for
      the first time gets the palette entry after the one handed out last
      (wrapping after ten); a value seen before gets the colour it got then. */
  ghost predicate Painted(labels: seq<int>, pixels: seq<int>)
  {
    && |pixels| == |labels|
    && (forall i {:trigger pixels[i]} :: 0 <= i < |labels| && labels[i] == -2 ==> pixels[i] == Black)
    && (forall i {:trigger pixels[i]} :: 0 <= i < |labels| && labels[i] != -2 && labels[i] !in LabelSet(labels[..i]) ==>
          pixels[i] == Palette[|LabelSet(labels[..i])| % 10])
    && (forall i, j {:trigger pixels[i], pixels[j]} :: 0 <= i < |labels| && 0 <= j < |labels| && labels[i] != -2 && labels[i] == labels[j] ==>
          pixels[i] == pixels[j])
  }

  /** The loop's bookkeeping after the first i pixels, with `slot` mapping
      each dot value met so far to its palette position, and `curcol` the
      position the next new value will get. */
  ghost predicate Painting(labels: seq<int>, i: int, slot: map<int, int>, curcol: int, pixels: seq<int>)
    requires 0 <= i <= |labels|
  {
    && |pixels| == i
    && curcol == |LabelSet(labels[..i])| % 10
    && (forall v :: v in slot <==> v in LabelSet(labels[..i]))
    && (forall v :: v in slot ==> 0 <= slot[v] < 10)
    && (forall k {:trigger pixels[k]} :: 0 <= k < i && labels[k] == -2 ==> pixels[k] == Black)
    && (forall k {:trigger pixels[k]} :: 0 <= k < i && labels[k] != -2 ==>
          labels[k] in slot && pixels[k] == Palette[slot[labels[k]]])
    && (forall k {:trigger pixels[k]} :: 0 <= k < i && labels[k] != -2 && labels[k] !in LabelSet(labels[..k]) ==>
          pixels[k] == Palette[|LabelSet(labels[..k])| % 10])
  }

  /** `colmap` is keyed by `str(v)`: it holds exactly the entries of `slot`. */
  ghost predicate KeyedBy(colmap: map<string, int>, slot: map<int, int>)
  {
    forall v {:trigger IntString(v)} ::
      && (IntString(v) in colmap <==> v in slot)
      && (v in slot ==> colmap[IntString(v)] == slot[v])
  }

  lemma KeyedByAdd(colmap: map<string, int>, slot: map<int, int>, v: int, c: int)
    requires KeyedBy(colmap, slot)
    ensures KeyedBy(colmap[IntString(v) := c], slot[v := c])
  {
    forall w
      ensures IntString(w) in colmap[IntString(v) := c] <==> w in slot[v := c]
      ensures w in slot[v := c] ==> colmap[IntString(v) := c][IntString(w)] == slot[v := c][w]
    {
      if IntString(w) == IntString(v) {
        IntStringInjective(w, v);
      }
    }
  }

  /** `drawShed()`, with `catchmentDefs` as labels; returns `shedImg.pixels`. */
  method DrawShed(labels: seq<int>) returns (pixels: seq<int>)
    ensures Painted(labels, pixels)
  {
    var curcol := 0;
    var colmap: map<string, int> := map[];
    ghost var slot: map<int, int> := map[];
    pixels := [];
    var i := 0;
    assert LabelSet(labels[..0]) == {};
    while i < |labels|
      invariant 0 <= i <= |labels|
      invariant Painting(labels, i, slot, curcol, pixels)
      invariant KeyedBy(colmap, slot)
    {
      ghost var before, oldSlot, oldCol := pixels, slot, curcol;
      var pcatch := labels[i];
      if pcatch != -2 {
        if IntString(pcatch) in colmap {
          pixels := pixels + [Palette[colmap[IntString(pcatch)]]];
          PaintKnown(labels, i, slot, curcol, before, pixels);
        } else {
          pixels := pixels + [Palette[curcol]];
          KeyedByAdd(colmap, slot, pcatch, curcol);
          colmap := colmap[IntString(pcatch) := curcol];
          slot := slot[pcatch := curcol];
          curcol := curcol + 1;
          if curcol == |Palette| {
            curcol := 0;
          }
          PaintNew(labels, i, oldSlot, oldCol, before, pixels);
        }
      } else {
        pixels := pixels + [Black];
        PaintBlack(labels, i, slot, curcol, before, pixels);
      }
      i := i + 1;
    }
    PaintFinish(labels, slot, curcol, pixels);
  }

  lemma PaintBlack(labels: seq<int>, i: int, slot: map<int, int>, curcol: int, before: seq<int>, after: seq<int>)
    requires 0 <= i < |labels| && labels[i] == -2
    requires Painting(labels, i, slot, curcol, before)
    requires after == before + [Black]
    ensures Painting(labels, i + 1, slot, curcol, after)
  {
    assert labels[..i + 1] == labels[..i] + [-2];
    LabelSetSnoc(labels[..i], -2);
    PaintFrame(labels, i, slot, slot, before, after);
  }

  lemma PaintKnown(labels: seq<int>, i: int, slot: map<int, int>, curcol: int, before: seq<int>, after: seq<int>)
    requires 0 <= i < |labels| && labels[i] != -2 && labels[i] in slot
    requires Painting(labels, i, slot, curcol, before)
    requires after == before + [Palette[slot[labels[i]]]]
    ensures Painting(labels, i + 1, slot, curcol, after)
  {
    assert labels[..i + 1] == labels[..i] + [labels[i]];
    LabelSetSnoc(labels[..i], labels[i]);
    assert LabelSet(labels[..i + 1]) == LabelSet(labels[..i]);
    PaintFrame(labels, i, slot, slot, before, after);
  }

  lemma PaintNew(labels: seq<int>, i: int, slot: map<int, int>, curcol: int, before: seq<int>, after: seq<int>)
    requires 0 <= i < |labels| && labels[i] != -2 && labels[i] !in slot
    requires Painting(labels, i, slot, curcol, before)
    requires after == before + [Palette[curcol]]
    ensures Painting(labels, i + 1, slot[labels[i] := curcol],
                     if curcol + 1 == |Palette| then 0 else curcol + 1, after)
  {
    var v := labels[i];
    assert labels[..i + 1] == labels[..i] + [v];
    LabelSetSnoc(labels[..i], v);
    var n := |LabelSet(labels[..i])|;
    assert |LabelSet(labels[..i + 1])| == n + 1;
    NextSlot(n, curcol);
    PaintFrame(labels, i, slot, slot[v := curcol], before, after);
  }

  /** Moving to the next palette entry, wrapping after the last, follows
      the count of labels seen modulo the palette size. */
  lemma NextSlot(n: int, c: int)
    requires n >= 0 && c == n % 10
    ensures (if c + 1 == |Palette| then 0 else c + 1) == (n + 1) % 10
  {
    assert n == (n / 10) * 10 + c;
    if c + 1 == 10 {
      assert n + 1 == (n / 10 + 1) * 10;
    } else {
      assert n + 1 == (n / 10) * 10 + (c + 1);
    }
  }

  /** The facts about earlier pixels carry over to one more pixel, under a
      slot map that only grows. */
  lemma PaintFrame(labels: seq<int>, i: int, slot: map<int, int>, slot': map<int, int>,
                   before: seq<int>, after: seq<int>)
    requires 0 <= i < |labels| && |before| == i && |after| == i + 1 && after[..i] == before
    requires forall v :: v in slot' ==> 0 <= slot'[v] < 10
    requires forall v :: v in slot ==> v in slot' && slot'[v] == slot[v]
    requires forall k {:trigger before[k]} :: 0 <= k < i && labels[k] == -2 ==> before[k] == Black
    requires forall k {:trigger before[k]} :: 0 <= k < i && labels[k] != -2 ==>
      labels[k] in slot && before[k] == Palette[slot[labels[k]]]
    requires forall k {:trigger before[k]} :: 0 <= k < i && labels[k] != -2 && labels[k] !in LabelSet(labels[..k]) ==>
      before[k] == Palette[|LabelSet(labels[..k])| % 10]
    requires labels[i] == -2 ==> after[i] == Black
    requires labels[i] != -2 ==> labels[i] in slot' && after[i] == Palette[slot'[labels[i]]]
    requires labels[i] != -2 && labels[i] !in LabelSet(labels[..i]) ==>
      after[i] == Palette[|LabelSet(labels[..i])| % 10]
    ensures forall k {:trigger after[k]} :: 0 <= k < i + 1 && labels[k] == -2 ==> after[k] == Black
    ensures forall k {:trigger after[k]} :: 0 <= k < i + 1 && labels[k] != -2 ==>
      labels[k] in slot' && after[k] == Palette[slot'[labels[k]]]
    ensures forall k {:trigger after[k]} :: 0 <= k < i + 1 && labels[k] != -2 && labels[k] !in LabelSet(labels[..k]) ==>
      after[k] == Palette[|LabelSet(labels[..k])| % 10]
  {
    forall k | 0 <= k < i
      ensures after[k] == before[k]
    {
    }
    forall k | 0 <= k < i + 1 && labels[k] != -2
      ensures labels[k] in slot' && after[k] == Palette[slot'[labels[k]]]
    {
      if k < i {
        assert after[k] == before[k];
        assert labels[k] in slot && before[k] == Palette[slot[labels[k]]];
      }
    }
  }

  lemma PaintFinish(labels: seq<int>, slot: map<int, int>, curcol: int, pixels: seq<int>)
    requires Painting(labels, |labels|, slot, curcol, pixels)
    ensures Painted(labels, pixels)
  {
  }

  /** The earliest pixel carrying the same label as pixel i. */
  lemma {:induction false} FirstOccurrence(curlab: seq<int>, white: seq<int>, labels: seq<int>, i: int) returns (k: int)
    requires Relabelled(curlab, white, labels)
    requires 0 <= i < |labels| && i in white
    ensures 0 <= k <= i && k in white && labels[k] == labels[i]
    ensures labels[k] !in LabelSet(labels[..k])
    decreases i
  {
    if labels[i] in LabelSet(labels[..i]) {
      var j :| 0 <= j < i && labels[..i][j] != -2 && labels[..i][j] == labels[i];
      assert labels[j] == labels[i];
      assert j in white;
      k := FirstOccurrence(curlab, white, labels, j);
    } else {
      k := i;
    }
  }

  /** At the first pixel of a dot the label is one more than the number of
      labels handed out before it. */
  lemma FirstLabel(curlab: seq<int>, white: seq<int>, labels: seq<int>, k: int)
    requires Relabelled(curlab, white, labels)
    requires 0 <= k < |labels| && k in white && labels[k] !in LabelSet(labels[..k])
    ensures |LabelSet(labels[..k])| == labels[k] - 1
  {
    forall m | 0 <= m < k && m in white
      ensures curlab[m] != curlab[k]
    {
      assert labels[..k][m] == labels[m];
      assert labels[m] in LabelSet(labels[..k]);
    }
    assert labels[k] == |Seen(curlab, white, k)| + 1;
    assert LabelSet(labels[..k]) == Upto(|Seen(curlab, white, k)|);
  }

  /** On what `reLabel` produces, `drawShed` paints dot number l with palette
      entry (l - 1) mod 10 and the background black. */
  lemma ShedColour(curlab: seq<int>, white: seq<int>, labels: seq<int>, pixels: seq<int>, i: int)
    requires Relabelled(curlab, white, labels) && Painted(labels, pixels)
    requires 0 <= i < |labels|
    ensures i !in white ==> pixels[i] == Black
    ensures i in white ==> pixels[i] == Palette[(labels[i] - 1) % 10]
  {
    if i in white {
      var k := FirstOccurrence(curlab, white, labels, i);
      FirstLabel(curlab, white, labels, k);
      assert pixels[k] == Palette[|LabelSet(labels[..k])| % 10];
      assert pixels[i] == pixels[k];
    }
  }

  /** Two dot pixels share a colour exactly when their labels are equal
      modulo ten; no dot pixel is black. */
  lemma ShedSameColour(curlab: seq<int>, white: seq<int>, labels: seq<int>, pixels: seq<int>, i: int, j: int)
    requires Relabelled(curlab, white, labels) && Painted(labels, pixels)
    requires 0 <= i < |labels| && 0 <= j < |labels| && i in white && j in white
    ensures pixels[i] == pixels[j] <==> (labels[i] - labels[j]) % 10 == 0
    ensures pixels[i] != Black
  {
    ShedColour(curlab, white, labels, pixels, i);
    ShedColour(curlab, white, labels, pixels, j);
    SameResidue(labels[i] - 1, labels[j] - 1);
    PaletteDistinct((labels[i] - 1) % 10, (labels[j] - 1) % 10);
  }

  /** The ten palette entries are different colours, none of them black. */
  lemma PaletteDistinct(a: int, b: int)
    requires 0 <= a < 10 && 0 <= b < 10
    ensures Palette[a] == Palette[b] <==> a == b
    ensures Palette[a] != Black
  {
    RgbChannels(0, 0, 0);
  }

  lemma SameResidue(x: int, y: int)
    ensures (x - y) % 10 == 0 <==> x % 10 == y % 10
  {
    assert x == (x / 10) * 10 + x % 10;
    assert y == (y / 10) * 10 + y % 10;
    var d := x % 10 - y % 10;
    assert x - y == (x / 10 - y / 10) * 10 + d;
    if d == 0 {
      DivModUnique(x - y, 10, x / 10 - y / 10, 0);
    } else if d > 0 {
      DivModUnique(x - y, 10, x / 10 - y / 10, d);
    } else {
      DivModUnique(x - y, 10, x / 10 - y / 10 - 1, d + 10);
    }
  }
}
