/** Mirage maintenance (day09/src/main.rs).  A sequence is reduced to its
    table of differences, level by level, until a level is all zeros; the
    next and the previous value are read off that table. */
module Day09 {
  import opened Common

  /** `sequence_differences`: the differences of neighbouring items. */
  function Differences(s: seq<int>): (r: seq<int>)
    ensures |r| == if |s| == 0 then 0 else |s| - 1
  {
    if |s| <= 1 then [] else seq(|s| - 1, i requires 0 <= i < |s| - 1 => s[i + 1] - s[i])
  }

  /** `is_sequence_all_zeros`; true of the empty sequence. */
  predicate AllZeros(s: seq<int>)
  {
    forall i :: 0 <= i < |s| ==> s[i] == 0
  }

  /** The levels of `reduce_sequence_to_zeros`: the sequence, then each
      level's differences, down to the first level that is all zeros.  A
      level that is not all zeros is not empty, so the length drops. */
  function Levels(s: seq<int>): (r: seq<seq<int>>)
    ensures |r| >= 1 && r[0] == s
    decreases |s|
  {
    if AllZeros(s) then [s] else [s] + Levels(Differences(s))
  }

  lemma LevelsUnfold(s: seq<int>)
    requires !AllZeros(s)
    ensures Levels(s) == [s] + Levels(Differences(s))
    ensures Levels(s)[1..] == Levels(Differences(s))
  {
    assert ([s] + Levels(Differences(s)))[1..] == Levels(Differences(s));
  }

  /** The table starts with the sequence, each level is the differences of
      the one above, only the deepest level is all zeros, and level `i` is
      `i` items shorter than the sequence. */
  lemma {:induction false} LevelsShape(s: seq<int>)
    ensures var r := Levels(s);
      AllZeros(r[|r| - 1])
      && (forall i :: 0 <= i < |r| - 1 ==> !AllZeros(r[i]) && r[i + 1] == Differences(r[i]))
      && (forall i :: 0 <= i < |r| ==> |r[i]| == |s| - i)
    decreases |s|
  {
    if !AllZeros(s) {
      LevelsUnfold(s);
      LevelsShape(Differences(s));
      var r := Levels(s);
      forall i | 1 <= i < |r|
        ensures r[i] == Levels(Differences(s))[i - 1]
      {
      }
    }
  }

  /** `reduce_sequence_to_zeros`. */
  method ReduceToZeros(sequence: seq<int>) returns (sequences: seq<seq<int>>)
    ensures sequences == Levels(sequence)
  {
    var currentSequence := sequence;
    sequences := [];
    while !AllZeros(currentSequence)
      invariant sequences + Levels(currentSequence) == Levels(sequence)
      decreases |currentSequence|
    {
      LevelsUnfold(currentSequence);
      sequences := sequences + [currentSequence];
      currentSequence := Differences(currentSequence);
    }
    sequences := sequences + [currentSequence];
  }

  lemma ReduceExample()
    ensures Levels([0, 3, 6, 9, 12, 15]) == [[0, 3, 6, 9, 12, 15], [3, 3, 3, 3, 3], [0, 0, 0, 0]]
  {
    ReduceExampleOf([0, 3, 6, 9, 12, 15]);
  }

  lemma ReduceExampleOf(s: seq<int>)
    requires s == [0, 3, 6, 9, 12, 15]
    ensures Levels(s) == [s, [3, 3, 3, 3, 3], [0, 0, 0, 0]]
  {
    var d1, d2 := Differences(s), Differences(Differences(s));
    assert d1 == [3, 3, 3, 3, 3] by { ConstantDifferences(s, 3); }
    assert d2 == [0, 0, 0, 0] by { ConstantDifferences(d1, 0); }
    assert !AllZeros(s) by { assert s[1] != 0; }
    assert !AllZeros(d1) by { assert d1[0] != 0; }
    ThreeLevels(s);
  }

  /** A sequence whose second differences are all zeros has three levels. */
  lemma ThreeLevels(s: seq<int>)
    requires !AllZeros(s) && !AllZeros(Differences(s)) && AllZeros(Differences(Differences(s)))
    ensures Levels(s) == [s, Differences(s), Differences(Differences(s))]
  {
    var d1, d2 := Differences(s), Differences(Differences(s));
    assert Levels(d2) == [d2];
    LevelsUnfold(s);
    LevelsUnfold(d1);
  }

  /** A sequence that grows by `c` at every step has differences all `c`. */
  lemma ConstantDifferences(s: seq<int>, c: int)
    requires |s| >= 2 && forall i :: 0 <= i < |s| - 1 ==> s[i + 1] - s[i] == c
    ensures Differences(s) == seq(|s| - 1, _ => c)
  {
  }

  // ---------------------------------------------------------------------------
  // Extrapolation

  function Last(s: seq<int>): int
    requires s != []
  {
    s[|s| - 1]
  }

  function First(s: seq<int>): int
    requires s != []
  {
    s[0]
  }

  /** The next value of a sequence: its last item plus the next value of its
      differences; `None` where the table ends in an empty level, on which
      `last().unwrap()` panics. */
  function Next(s: seq<int>): Option<int>
    decreases |s|
  {
    if AllZeros(s) then (if s == [] then None else Some(Last(s)))
    else
      var below := Next(Differences(s));
      if below.None? then None else Some(Last(s) + below.value)
  }

  /** The previous value: the first item minus the previous value of the
      differences. */
  function Prev(s: seq<int>): Option<int>
    decreases |s|
  {
    if AllZeros(s) then (if s == [] then None else Some(First(s)))
    else
      var below := Prev(Differences(s));
      if below.None? then None else Some(First(s) - below.value)
  }

  /** Adding up the last item of every level, deepest first; `None` when a
      level is empty. */
  function NextOf(levels: seq<seq<int>>): Option<int>
  {
    if levels == [] then Some(0)
    else if levels[0] == [] then None
    else match NextOf(levels[1..])
      case None => None
      case Some(v) => Some(Last(levels[0]) + v)
  }

  /** `previous = first - previous`, deepest level first; `None` when a
      level is empty. */
  function PrevOf(levels: seq<seq<int>>): Option<int>
  {
    if levels == [] then Some(0)
    else if levels[0] == [] then None
    else match PrevOf(levels[1..])
      case None => None
      case Some(v) => Some(levels[0][0] - v)
  }

  /** Folding in one more, non-empty, level from above. */
  lemma FoldLevel(levels: seq<seq<int>>, i: nat)
    requires i < |levels| && levels[i] != []
    ensures NextOf(levels[i + 1..]).Some? ==>
      NextOf(levels[i..]) == Some(Last(levels[i]) + NextOf(levels[i + 1..]).value)
    ensures PrevOf(levels[i + 1..]).Some? ==>
      PrevOf(levels[i..]) == Some(levels[i][0] - PrevOf(levels[i + 1..]).value)
  {
    assert levels[i..][1..] == levels[i + 1..];
  }

  lemma {:induction false} EmptyLevelPanics(levels: seq<seq<int>>, i: nat)
    requires i < |levels| && levels[i] == []
    ensures NextOf(levels) == None && PrevOf(levels) == None
  {
    if i > 0 {
      EmptyLevelPanics(levels[1..], i - 1);
    }
  }

  /** The loops over the table compute `Next` and `Prev`. */
  lemma LevelsFold(s: seq<int>)
    ensures NextOf(Levels(s)) == Next(s)
    ensures PrevOf(Levels(s)) == Prev(s)
  {
    NextFold(s);
    PrevFold(s);
  }

  lemma {:induction false} NextFold(s: seq<int>)
    ensures NextOf(Levels(s)) == Next(s)
    decreases |s|
  {
    if AllZeros(s) {
      assert Levels(s) == [s];
      assert [s][1..] == [];
    } else {
      var d := Differences(s);
      assert s != [];
      LevelsUnfold(s);
      NextFold(d);
      assert NextOf(Levels(s)) == NextOf([s] + Levels(d));
    }
  }

  lemma {:induction false} PrevFold(s: seq<int>)
    ensures PrevOf(Levels(s)) == Prev(s)
    decreases |s|
  {
    if AllZeros(s) {
      assert Levels(s) == [s];
      assert [s][1..] == [];
    } else {
      var d := Differences(s);
      assert s != [];
      LevelsUnfold(s);
      PrevFold(d);
      assert PrevOf(Levels(s)) == PrevOf([s] + Levels(d));
    }
  }

  /** `extrapolate_sequence`. */
  method ExtrapolateSequence(sequence: seq<int>) returns (r: Option<int>)
    ensures r == Next(sequence)
  {
    var levels := ReduceToZeros(sequence);
    LevelsFold(sequence);
    var nextValue := 0;
    var i := |levels|;
    while i > 0
      invariant 0 <= i <= |levels|
      invariant NextOf(levels[i..]) == Some(nextValue)
    {
      i := i - 1;
      if levels[i] == [] {
        EmptyLevelPanics(levels, i);
        return None;
      }
      FoldLevel(levels, i);
      nextValue := Last(levels[i]) + nextValue;
    }
    assert levels[0..] == levels;
    return Some(nextValue);
  }

  /** `extrapolate_sequence_backwards`. */
  method ExtrapolateSequenceBackwards(sequence: seq<int>) returns (r: Option<int>)
    ensures r == Prev(sequence)
  {
    var levels := ReduceToZeros(sequence);
    LevelsFold(sequence);
    var previousValue := 0;
    var i := |levels|;
    while i > 0
      invariant 0 <= i <= |levels|
      invariant PrevOf(levels[i..]) == Some(previousValue)
    {
      i := i - 1;
      if levels[i] == [] {
        EmptyLevelPanics(levels, i);
        return None;
      }
      FoldLevel(levels, i);
      previousValue := levels[i][0] - previousValue;
    }
    assert levels[0..] == levels;
    return Some(previousValue);
  }

  /** Only a table that ends in an empty level panics: the empty sequence,
      and any sequence whose differences run out before they vanish. */
  lemma {:induction false} PanicsIffLastLevelEmpty(s: seq<int>)
    ensures Next(s).None? <==> Levels(s)[|Levels(s)| - 1] == []
    ensures Prev(s).None? <==> Levels(s)[|Levels(s)| - 1] == []
    decreases |s|
  {
    if AllZeros(s) {
      assert Levels(s) == [s];
    } else {
      LevelsUnfold(s);
      PanicsIffLastLevelEmpty(Differences(s));
    }
  }

  lemma DifferencesSnoc(s: seq<int>, x: int)
    requires s != []
    ensures Differences(s + [x]) == Differences(s) + [x - Last(s)]
  {
    var t := s + [x];
    var a, b := Differences(t), Differences(s) + [x - Last(s)];
    forall i | 0 <= i < |a|
      ensures a[i] == b[i]
    {
      assert t[i + 1] == if i + 1 < |s| then s[i + 1] else x;
      assert t[i] == s[i];
    }
  }

  /** The extrapolated value is the one that keeps the table as deep as it
      was: appended to the sequence, every level grows by one item and the
      deepest level is still all zeros. */
  lemma {:induction false} NextKeepsDepth(s: seq<int>)
    requires Next(s).Some?
    ensures var x := Next(s).value;
      |Levels(s + [x])| == |Levels(s)| && AllZeros(Levels(s + [x])[|Levels(s)| - 1])
    decreases |s|
  {
    var x := Next(s).value;
    if AllZeros(s) {
      assert Levels(s) == [s];
      assert AllZeros(s + [x]);
      assert Levels(s + [x]) == [s + [x]];
    } else {
      var d := Differences(s);
      var v := Next(d).value;
      NextKeepsDepth(d);
      DifferencesSnoc(s, x);
      assert !AllZeros(s + [x]) by {
        var k :| 0 <= k < |s| && s[k] != 0;
        assert (s + [x])[k] == s[k];
      }
      LevelsUnfold(s);
      LevelsUnfold(s + [x]);
    }
  }

  // ---------------------------------------------------------------------------
  // Backwards is forwards on the reversed sequence

  function Reverse(s: seq<int>): (r: seq<int>)
    ensures |r| == |s|
  {
    seq(|s|, i requires 0 <= i < |s| => s[|s| - 1 - i])
  }

  function Negate(s: seq<int>): (r: seq<int>)
    ensures |r| == |s|
  {
    seq(|s|, i requires 0 <= i < |s| => -s[i])
  }

  lemma DifferencesReverse(s: seq<int>)
    ensures Differences(Reverse(s)) == Negate(Reverse(Differences(s)))
  {
  }

  lemma DifferencesNegate(s: seq<int>)
    ensures Differences(Negate(s)) == Negate(Differences(s))
  {
  }

  lemma AllZerosReverse(s: seq<int>)
    ensures AllZeros(Reverse(s)) <==> AllZeros(s)
  {
    if !AllZeros(s) {
      var k :| 0 <= k < |s| && s[k] != 0;
      assert Reverse(s)[|s| - 1 - k] != 0;
    }
  }

  lemma AllZerosNegate(s: seq<int>)
    ensures AllZeros(Negate(s)) <==> AllZeros(s)
  {
    if !AllZeros(s) {
      var k :| 0 <= k < |s| && s[k] != 0;
      assert Negate(s)[k] != 0;
    }
  }

  lemma LastNegate(s: seq<int>)
    requires s != []
    ensures Last(Negate(s)) == -Last(s)
  {
  }

  lemma LastReverse(s: seq<int>)
    requires s != []
    ensures Last(Reverse(s)) == First(s)
  {
  }

  /** One level of `Next`, for a sequence that is not all zeros. */
  lemma NextStep(s: seq<int>)
    requires !AllZeros(s)
    ensures Next(Differences(s)).None? ==> Next(s).None?
    ensures Next(Differences(s)).Some? ==> Next(s) == Some(Last(s) + Next(Differences(s)).value)
  {
    var below := Next(Differences(s));
    if below.None? {
      assert Next(s) == None;
    } else {
      assert Next(s) == Some(Last(s) + below.value);
    }
  }

  lemma PrevStep(s: seq<int>)
    requires !AllZeros(s)
    ensures Prev(Differences(s)).None? ==> Prev(s).None?
    ensures Prev(Differences(s)).Some? ==> Prev(s) == Some(First(s) - Prev(Differences(s)).value)
  {
    var below := Prev(Differences(s));
    if below.None? {
      assert Prev(s) == None;
    } else {
      assert Prev(s) == Some(First(s) - below.value);
    }
  }

  /** Extrapolation is linear: negating the sequence negates the value. */
  lemma {:induction false} NextNegate(s: seq<int>)
    ensures Next(Negate(s)).Some? <==> Next(s).Some?
    ensures Next(s).Some? ==> Next(Negate(s)).value == -Next(s).value
    decreases |s|
  {
    var ns := Negate(s);
    AllZerosNegate(s);
    if AllZeros(s) {
      if s != [] {
        LastNegate(s);
        assert Next(s) == Some(Last(s));
        assert Next(ns) == Some(Last(ns));
      }
    } else {
      var d := Differences(s);
      NextNegate(d);
      DifferencesNegate(s);
      LastNegate(s);
      NextStep(s);
      NextStep(ns);

    }
  }

  /** Extrapolating backwards is extrapolating the reversed sequence
      forwards: both panic together, and otherwise agree. */
  lemma {:induction false} PrevIsNextOfReverse(s: seq<int>)
    ensures Prev(s).Some? <==> Next(Reverse(s)).Some?
    ensures Prev(s).Some? ==> Prev(s).value == Next(Reverse(s)).value
    decreases |s|
  {
    var rs := Reverse(s);
    if s != [] {
      LastReverse(s);
    }
    AllZerosReverse(s);
    if !AllZeros(s) {
      var d := Differences(s);
      PrevIsNextOfReverse(d);
      DifferencesReverse(s);
      NextNegate(Reverse(d));
      PrevStep(s);
      NextStep(rs);
    }
  }

  /** [0, 3, 6, 9, 12, 15] extrapolates to 18. */
  lemma ExtrapolateExample(s: seq<int>)
    requires s == [0, 3, 6, 9, 12, 15]
    ensures Next(s) == Some(18)
  {
    var d1, d2 := [3, 3, 3, 3, 3], [0, 0, 0, 0];
    assert Differences(s) == d1 by { ConstantDifferences(s, 3); }
    assert Differences(d1) == d2 by { ConstantDifferences(d1, 0); }
    assert AllZeros(d2) && !AllZeros(d1) && !AllZeros(s) by {
      assert d1[0] != 0 && s[1] != 0;
    }
    NextOfThreeLevels(s);
  }

  /** Over three levels the next value is the sum of their last items. */
  lemma NextOfThreeLevels(s: seq<int>)
    requires !AllZeros(s) && !AllZeros(Differences(s))
    requires AllZeros(Differences(Differences(s))) && Differences(Differences(s)) != []
    ensures Next(s) == Some(Last(s) + Last(Differences(s)) + Last(Differences(Differences(s))))
  {
    var d1, d2 := Differences(s), Differences(Differences(s));
    assert Next(d2) == Some(Last(d2));
    NextStep(d1);
    NextStep(s);
  }

  lemma BackwardsExampleTail(d2: seq<int>)
    requires d2 == [0, 2, 4, 6]
    ensures Prev(d2) == Some(-2)
  {
    var d3, d4 := [2, 2, 2], [0, 0];
    assert Differences(d2) == d3;
    assert Differences(d3) == d4;
    assert d2[1] != 0 && d3[0] != 0;
    PrevStep(d2);
    PrevStep(d3);
    assert Prev(d4) == Some(0);
  }

  /** [10, 13, 16, 21, 30, 45] extrapolates backwards to 5. */
  lemma ExtrapolateBackwardsExample(s: seq<int>)
    requires s == [10, 13, 16, 21, 30, 45]
    ensures Prev(s) == Some(5)
  {
    var d1, d2 := [3, 3, 5, 9, 15], [0, 2, 4, 6];
    assert Differences(s) == d1;
    assert Differences(d1) == d2;
    assert s[0] != 0 && d1[0] != 0;
    PrevStep(s);
    PrevStep(d1);
    BackwardsExampleTail(d2);
  }
}
