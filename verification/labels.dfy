/** `reLabel`: turning the root each white pixel holds into dot numbers
    1, 2, 3, ... in order of first appearance, -2 for every other pixel; and
    the total count `objCount = max(catchmentDefs)`. */
module Labels {

  import opened Basics

  /** The old values held by the listed pixels among the first i. */
  function Seen(curlab: seq<int>, white: seq<int>, i: int): set<int>
    requires 0 <= i <= |curlab|
  {
    set k | 0 <= k < i && k in white :: curlab[k]
  }

  lemma SeenStep(curlab: seq<int>, white: seq<int>, i: int)
    requires 0 <= i < |curlab|
    ensures Seen(curlab, white, i + 1) == Seen(curlab, white, i) + (if i in white then {curlab[i]} else {})
  {
    var a, b := Seen(curlab, white, i + 1), Seen(curlab, white, i) + (if i in white then {curlab[i]} else {});
    forall x | x in a
      ensures x in b
    {
      var k :| 0 <= k < i + 1 && k in white && curlab[k] == x;
      if k < i {
        assert x in Seen(curlab, white, i);
      }
    }
    forall x | x in b
      ensures x in a
    {
      if x in Seen(curlab, white, i) {
        var k :| 0 <= k < i && k in white && curlab[k] == x;
        assert 0 <= k < i + 1;
      }
    }
  }

  /** The values other than -2 in s. */
  function LabelSet(s: seq<int>): set<int>
  {
    set k | 0 <= k < |s| && s[k] != -2 :: s[k]
  }

  lemma LabelSetSnoc(s: seq<int>, v: int)
    ensures LabelSet(s + [v]) == LabelSet(s) + (if v != -2 then {v} else {})
  {
    var a, b := LabelSet(s + [v]), LabelSet(s) + (if v != -2 then {v} else {});
    forall x | x in a
      ensures x in b
    {
      var k :| 0 <= k < |s| + 1 && (s + [v])[k] != -2 && (s + [v])[k] == x;
      if k < |s| {
        assert s[k] == x;
      }
    }
    forall x | x in b
      ensures x in a
    {
      if x in LabelSet(s) {
        var k :| 0 <= k < |s| && s[k] != -2 && s[k] == x;
        assert (s + [v])[k] == x;
      } else {
        assert (s + [v])[|s|] == x;
      }
    }
  }

  /** The labels 1..n. */
  function Upto(n: int): (r: set<int>)
    ensures forall l :: l in r <==> 1 <= l <= n
    ensures n >= 0 ==> |r| == n
  {
    if n <= 0 then {} else Upto(n - 1) + {n}
  }

  /** newlabs is what `reLabel` makes of curlab, whitePixels being white:
      -2 off the list; on it, equal labels exactly for equal old values, a
      pixel whose old value has not occurred before gets the next label, and
      so every prefix holds exactly the labels 1..(number of old values seen). */
  ghost predicate Relabelled(curlab: seq<int>, white: seq<int>, newlabs: seq<int>)
  {
    && |newlabs| == |curlab|
    && (forall i :: 0 <= i < |curlab| && i !in white ==> newlabs[i] == -2)
    && (forall i :: 0 <= i < |curlab| && i in white ==> 1 <= newlabs[i])
    && (forall i, j :: 0 <= i < |curlab| && 0 <= j < |curlab| && i in white && j in white ==>
          (newlabs[i] == newlabs[j] <==> curlab[i] == curlab[j]))
    && (forall i :: 0 <= i < |curlab| && i in white && curlab[i] !in Seen(curlab, white, i) ==>
          newlabs[i] == |Seen(curlab, white, i)| + 1)
    && (forall i :: 0 <= i <= |curlab| ==> LabelSet(newlabs[..i]) == Upto(|Seen(curlab, white, i)|))
  }

  /** The loop's bookkeeping: `mapping` maps `str(v)` to v's label for the
      values seen so far, one label each, using exactly 1..next-1. */
  ghost predicate MapState(curlab: seq<int>, white: seq<int>, i: int, mapping: map<string, int>, next: int)
    requires 0 <= i <= |curlab|
  {
    && next == |Seen(curlab, white, i)| + 1
    && (forall v :: IntString(v) in mapping <==> v in Seen(curlab, white, i))
    && (forall v :: v in Seen(curlab, white, i) ==> 1 <= mapping[IntString(v)] < next)
    && (forall v1, v2 ::
          (v1 in Seen(curlab, white, i) && v2 in Seen(curlab, white, i) &&
           mapping[IntString(v1)] == mapping[IntString(v2)]) ==> v1 == v2)
  }

  /** What the loop of `reLabel` knows after the first i pixels. */
  ghost predicate Labelling(curlab: seq<int>, white: seq<int>, i: int, mapping: map<string, int>, next: int,
                            newlabs: seq<int>)
    requires 0 <= i <= |curlab|
  {
    && |newlabs| == i
    && MapState(curlab, white, i, mapping, next)
    && (forall k :: 0 <= k < i && k !in white ==> newlabs[k] == -2)
    && (forall k :: 0 <= k < i && k in white ==>
          IntString(curlab[k]) in mapping && newlabs[k] == mapping[IntString(curlab[k])])
    && (forall k :: 0 <= k < i && k in white && curlab[k] !in Seen(curlab, white, k) ==>
          newlabs[k] == |Seen(curlab, white, k)| + 1)
    && (forall k :: 0 <= k <= i ==> LabelSet(newlabs[..k]) == Upto(|Seen(curlab, white, k)|))
  }

  /** `reLabel(curlab)`. */
  method ReLabel(curlab: seq<int>, white: seq<int>) returns (newlabs: seq<int>)
    ensures Relabelled(curlab, white, newlabs)
  {
    var mapping: map<string, int> := map[];
    var next := 1;
    newlabs := [];
    var i := 0;
    assert Seen(curlab, white, 0) == {};
    while i < |curlab|
      invariant 0 <= i <= |curlab|
      invariant Labelling(curlab, white, i, mapping, next, newlabs)
    {
      ghost var before, oldMapping, oldNext := newlabs, mapping, next;
      if i !in white {
        newlabs := newlabs + [-2];
      } else {
        var cur := curlab[i];
        if IntString(cur) in mapping {
          newlabs := newlabs + [mapping[IntString(cur)]];
        } else {
          newlabs := newlabs + [next];
          mapping := mapping[IntString(cur) := next];
          next := next + 1;
        }
      }
      LabelStep(curlab, white, i, oldMapping, oldNext, before, mapping, next, newlabs);
      i := i + 1;
    }
    Finish(curlab, white, mapping, next, newlabs);
  }

  /** One turn of the loop keeps what it knows. */
  lemma LabelStep(curlab: seq<int>, white: seq<int>, i: int, mapping: map<string, int>, next: int,
                  before: seq<int>, mapping': map<string, int>, next': int, after: seq<int>)
    requires 0 <= i < |curlab|
    requires Labelling(curlab, white, i, mapping, next, before)
    requires i !in white ==> after == before + [-2] && mapping' == mapping && next' == next
    requires i in white && IntString(curlab[i]) in mapping ==>
      after == before + [mapping[IntString(curlab[i])]] && mapping' == mapping && next' == next
    requires i in white && IntString(curlab[i]) !in mapping ==>
      after == before + [next] && mapping' == mapping[IntString(curlab[i]) := next] && next' == next + 1
    ensures Labelling(curlab, white, i + 1, mapping', next', after)
  {
    if i !in white {
      OffListStep(curlab, white, i, mapping, next, before, after);
    } else if IntString(curlab[i]) in mapping {
      KnownStep(curlab, white, i, mapping, next, before, after);
    } else {
      NewStep(curlab, white, i, mapping, next, before, after);
    }
  }

  lemma OffListStep(curlab: seq<int>, white: seq<int>, i: int, mapping: map<string, int>, next: int,
                    before: seq<int>, after: seq<int>)
    requires 0 <= i < |curlab| && i !in white
    requires Labelling(curlab, white, i, mapping, next, before)
    requires after == before + [-2]
    ensures Labelling(curlab, white, i + 1, mapping, next, after)
  {
    SkipKeepsMap(curlab, white, i, mapping, next);
    assert LabelSet(before[..i]) == Upto(|Seen(curlab, white, i)|);
    assert before[..i] == before;
    assert after[..i + 1] == before + [-2];
    LabelSetSnoc(before, -2);
    assert after[..i] == before;
    StepOffList(white, i, before, after);
    StepLookup(curlab, white, i, mapping, mapping, before, after);
    StepFirst(curlab, white, i, before, after);
    StepPrefixes(curlab, white, i, before, after);
  }

  lemma SkipKeepsMap(curlab: seq<int>, white: seq<int>, i: int, mapping: map<string, int>, next: int)
    requires 0 <= i < |curlab| && i !in white
    requires MapState(curlab, white, i, mapping, next)
    ensures Seen(curlab, white, i + 1) == Seen(curlab, white, i)
    ensures MapState(curlab, white, i + 1, mapping, next)
  {
    SeenStep(curlab, white, i);
  }

  lemma KnownStep(curlab: seq<int>, white: seq<int>, i: int, mapping: map<string, int>, next: int,
                  before: seq<int>, after: seq<int>)
    requires 0 <= i < |curlab| && i in white && IntString(curlab[i]) in mapping
    requires Labelling(curlab, white, i, mapping, next, before)
    requires after == before + [mapping[IntString(curlab[i])]]
    ensures Labelling(curlab, white, i + 1, mapping, next, after)
  {
    assert LabelSet(before[..i]) == Upto(|Seen(curlab, white, i)|);
    assert before[..i] == before;
    KnownValue(curlab, white, i, mapping, next, before, after);
    assert after[..i] == before;
    StepOffList(white, i, before, after);
    StepLookup(curlab, white, i, mapping, mapping, before, after);
    StepFirst(curlab, white, i, before, after);
    StepPrefixes(curlab, white, i, before, after);
  }

  lemma NewStep(curlab: seq<int>, white: seq<int>, i: int, mapping: map<string, int>, next: int,
                before: seq<int>, after: seq<int>)
    requires 0 <= i < |curlab| && i in white && IntString(curlab[i]) !in mapping
    requires Labelling(curlab, white, i, mapping, next, before)
    requires after == before + [next]
    ensures Labelling(curlab, white, i + 1, mapping[IntString(curlab[i]) := next], next + 1, after)
  {
    assert LabelSet(before[..i]) == Upto(|Seen(curlab, white, i)|);
    assert before[..i] == before;
    NewValue(curlab, white, i, mapping, next, before, after);
    MapFrame(mapping, IntString(curlab[i]), next);
    assert after[..i] == before;
    StepOffList(white, i, before, after);
    StepLookup(curlab, white, i, mapping, mapping[IntString(curlab[i]) := next], before, after);
    StepFirst(curlab, white, i, before, after);
    StepPrefixes(curlab, white, i, before, after);
  }

  /** Adding a new key leaves the old entries alone. */
  lemma MapFrame(m: map<string, int>, key: string, v: int)
    requires key !in m
    ensures forall k :: k in m ==> k in m[key := v] && m[key := v][k] == m[k]
  {
  }

  lemma StepOffList(white: seq<int>, i: int, before: seq<int>, after: seq<int>)
    requires 0 <= i && |before| == i && |after| == i + 1 && after[..i] == before
    requires forall k :: 0 <= k < i && k !in white ==> before[k] == -2
    requires i !in white ==> after[i] == -2
    ensures forall k :: 0 <= k < i + 1 && k !in white ==> after[k] == -2
  {
    forall k | 0 <= k < i + 1 && k !in white
      ensures after[k] == -2
    {
      if k < i {
        assert after[k] == before[k];
      }
    }
  }

  lemma StepLookup(curlab: seq<int>, white: seq<int>, i: int, mapping: map<string, int>, mapping': map<string, int>,
                   before: seq<int>, after: seq<int>)
    requires 0 <= i < |curlab| && |before| == i && |after| == i + 1 && after[..i] == before
    requires forall k :: 0 <= k < i && k in white ==>
      IntString(curlab[k]) in mapping && before[k] == mapping[IntString(curlab[k])]
    requires forall key :: key in mapping ==> key in mapping' && mapping'[key] == mapping[key]
    requires i in white ==> IntString(curlab[i]) in mapping' && after[i] == mapping'[IntString(curlab[i])]
    ensures forall k :: 0 <= k < i + 1 && k in white ==>
      IntString(curlab[k]) in mapping' && after[k] == mapping'[IntString(curlab[k])]
  {
    forall k | 0 <= k < i + 1 && k in white
      ensures IntString(curlab[k]) in mapping' && after[k] == mapping'[IntString(curlab[k])]
    {
      if k < i {
        assert after[k] == before[k];
      }
    }
  }

  lemma StepFirst(curlab: seq<int>, white: seq<int>, i: int, before: seq<int>, after: seq<int>)
    requires 0 <= i < |curlab| && |before| == i && |after| == i + 1 && after[..i] == before
    requires forall k :: 0 <= k < i && k in white && curlab[k] !in Seen(curlab, white, k) ==>
      before[k] == |Seen(curlab, white, k)| + 1
    requires i in white && curlab[i] !in Seen(curlab, white, i) ==> after[i] == |Seen(curlab, white, i)| + 1
    ensures forall k :: 0 <= k < i + 1 && k in white && curlab[k] !in Seen(curlab, white, k) ==>
      after[k] == |Seen(curlab, white, k)| + 1
  {
    forall k | 0 <= k < i + 1 && k in white && curlab[k] !in Seen(curlab, white, k)
      ensures after[k] == |Seen(curlab, white, k)| + 1
    {
      if k < i {
        assert after[k] == before[k];
      }
    }
  }

  lemma StepPrefixes(curlab: seq<int>, white: seq<int>, i: int, before: seq<int>, after: seq<int>)
    requires 0 <= i < |curlab| && |before| == i && |after| == i + 1 && after[..i] == before
    requires forall k :: 0 <= k <= i ==> LabelSet(before[..k]) == Upto(|Seen(curlab, white, k)|)
    requires LabelSet(after[..i + 1]) == Upto(|Seen(curlab, white, i + 1)|)
    ensures forall k :: 0 <= k <= i + 1 ==> LabelSet(after[..k]) == Upto(|Seen(curlab, white, k)|)
  {
    SamePrefixes(before, after, i);
  }

  lemma SamePrefixes(before: seq<int>, after: seq<int>, i: int)
    requires |before| == i && |after| == i + 1 && after[..i] == before
    ensures forall k :: 0 <= k <= i ==> after[..k] == before[..k]
  {
  }

  /** A pixel whose old value already has a label gets that label. */
  lemma KnownValue(curlab: seq<int>, white: seq<int>, i: int, mapping: map<string, int>, next: int,
                   before: seq<int>, after: seq<int>)
    requires 0 <= i < |curlab| && i in white
    requires MapState(curlab, white, i, mapping, next)
    requires IntString(curlab[i]) in mapping
    requires |before| == i && after == before + [mapping[IntString(curlab[i])]]
    requires LabelSet(before) == Upto(|Seen(curlab, white, i)|)
    ensures curlab[i] in Seen(curlab, white, i)
    ensures Seen(curlab, white, i + 1) == Seen(curlab, white, i)
    ensures MapState(curlab, white, i + 1, mapping, next)
    ensures LabelSet(after[..i + 1]) == Upto(|Seen(curlab, white, i + 1)|)
  {
    SeenStep(curlab, white, i);
    assert after[..i + 1] == after;
    LabelSetSnoc(before, mapping[IntString(curlab[i])]);
  }

  /** A pixel with a new old value gets the next label, which is recorded. */
  lemma NewValue(curlab: seq<int>, white: seq<int>, i: int, mapping: map<string, int>, next: int,
                 before: seq<int>, after: seq<int>)
    requires 0 <= i < |curlab| && i in white
    requires MapState(curlab, white, i, mapping, next)
    requires IntString(curlab[i]) !in mapping
    requires |before| == i && after == before + [next]
    requires LabelSet(before) == Upto(|Seen(curlab, white, i)|)
    ensures curlab[i] !in Seen(curlab, white, i)
    ensures Seen(curlab, white, i + 1) == Seen(curlab, white, i) + {curlab[i]}
    ensures MapState(curlab, white, i + 1, mapping[IntString(curlab[i]) := next], next + 1)
    ensures LabelSet(after[..i + 1]) == Upto(|Seen(curlab, white, i + 1)|)
  {
    SeenStep(curlab, white, i);
    NewMapState(curlab, white, i, mapping, next);
    assert after[..i + 1] == after;
    LabelSetSnoc(before, next);
  }

  /** Recording the next label for a new value keeps the bookkeeping. */
  lemma NewMapState(curlab: seq<int>, white: seq<int>, i: int, mapping: map<string, int>, next: int)
    requires 0 <= i < |curlab| && i in white
    requires MapState(curlab, white, i, mapping, next)
    requires IntString(curlab[i]) !in mapping
    requires Seen(curlab, white, i + 1) == Seen(curlab, white, i) + {curlab[i]}
    ensures curlab[i] !in Seen(curlab, white, i)
    ensures MapState(curlab, white, i + 1, mapping[IntString(curlab[i]) := next], next + 1)
  {
    var cur := curlab[i];
    var seen, seen' := Seen(curlab, white, i), Seen(curlab, white, i + 1);
    assert cur !in seen;
    assert |seen'| == |seen| + 1;
    var m' := mapping[IntString(cur) := next];
    forall v
      ensures IntString(v) in m' <==> v in seen'
    {
      if IntString(v) == IntString(cur) {
        IntStringInjective(v, cur);
      }
    }
    forall v | v in seen'
      ensures 1 <= m'[IntString(v)] < next + 1
      ensures v != cur ==> m'[IntString(v)] == mapping[IntString(v)]
    {
      if v != cur && IntString(v) == IntString(cur) {
        IntStringInjective(v, cur);
      }
    }
  }

  /** At the end the bookkeeping gives the equal-label property. */
  lemma Finish(curlab: seq<int>, white: seq<int>, mapping: map<string, int>, next: int, newlabs: seq<int>)
    requires Labelling(curlab, white, |curlab|, mapping, next, newlabs)
    ensures Relabelled(curlab, white, newlabs)
  {
    var n := |curlab|;
    forall i | 0 <= i < n && i in white
      ensures 1 <= newlabs[i]
      ensures curlab[i] in Seen(curlab, white, n)
    {
    }
  }

  /** Labels on the list run from 1 to the number of distinct old values. */
  lemma LabelsInRange(curlab: seq<int>, white: seq<int>, newlabs: seq<int>)
    requires Relabelled(curlab, white, newlabs)
    ensures forall i :: 0 <= i < |curlab| && i in white ==>
      1 <= newlabs[i] <= |Seen(curlab, white, |curlab|)|
  {
    var n := |curlab|;
    assert newlabs[..n] == newlabs;
    forall i | 0 <= i < n && i in white
      ensures newlabs[i] <= |Seen(curlab, white, n)|
    {
      assert newlabs[i] in LabelSet(newlabs[..n]);
    }
  }

  /** Two pixels on the list share a label exactly when they shared a value. */
  lemma SameLabel(curlab: seq<int>, white: seq<int>, newlabs: seq<int>, i: int, j: int)
    requires Relabelled(curlab, white, newlabs)
    requires 0 <= i < |curlab| && 0 <= j < |curlab| && i in white && j in white
    ensures newlabs[i] == newlabs[j] <==> curlab[i] == curlab[j]
  {
  }

  /** `objCount = max(catchmentDefs)`: Processing's max throws on an empty
      array; with no white pixel it is -2; otherwise it is the number of
      distinct old values among the white pixels. */
  lemma ObjCount(curlab: seq<int>, white: seq<int>, newlabs: seq<int>)
    requires Relabelled(curlab, white, newlabs)
    ensures |curlab| == 0 ==> ArrayMax(newlabs) == None
    ensures (exists i :: 0 <= i < |curlab| && i in white) ==>
      ArrayMax(newlabs) == Some(|Seen(curlab, white, |curlab|)|)
    ensures |curlab| > 0 && (forall i :: 0 <= i < |curlab| ==> i !in white) ==> ArrayMax(newlabs) == Some(-2)
  {
    var n := |curlab|;
    assert newlabs[..n] == newlabs;
    var m := ArrayMax(newlabs);
    if exists i :: 0 <= i < n && i in white {
      var i :| 0 <= i < n && i in white;
      var k := |Seen(curlab, white, n)|;
      assert curlab[i] in Seen(curlab, white, n);
      assert k >= 1;
      assert k in Upto(k);
      assert k in LabelSet(newlabs);
      var j :| 0 <= j < n && newlabs[j] != -2 && newlabs[j] == k;
      assert m.value in LabelSet(newlabs) by {
        var w :| 0 <= w < n && newlabs[w] == m.value;
        assert newlabs[i] in LabelSet(newlabs);
        assert newlabs[i] >= 1;
      }
    }
  }
}
