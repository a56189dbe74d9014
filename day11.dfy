/** Cosmic expansion (day11/src/main.rs).  The galaxies ('#') of an image
    are collected in row-major order; every empty row and then every empty
    column between occupied ones is widened `expansion_rate` times; the
    answer is the sum of the Manhattan distances over all pairs of
    galaxies. */
module Day11 {
  import opened Common

  /** A cell of the image: `row` counts down, `col` to the right. */
  datatype Coord = Coord(row: nat, col: nat)

  /** `Space::distance`: the Manhattan distance; it is zero exactly between
      equal cells. */
  function Distance(a: Coord, b: Coord): (r: nat)
    ensures r == 0 <==> a == b
    ensures r >= Abs(a.row - b.row) && r >= Abs(a.col - b.col)
  {
    Abs(a.row - b.row) + Abs(a.col - b.col)
  }

  lemma DistanceSymmetric(a: Coord, b: Coord)
    ensures Distance(a, b) == Distance(b, a)
  {
  }

  lemma DistanceTriangle(a: Coord, b: Coord, c: Coord)
    ensures Distance(a, c) <= Distance(a, b) + Distance(b, c)
  {
  }

  /** The distances the test checks, in both directions. */
  lemma DistanceExamples()
    ensures Distance(Coord(0, 4), Coord(10, 9)) == 15 && Distance(Coord(10, 9), Coord(0, 4)) == 15
    ensures Distance(Coord(2, 0), Coord(7, 12)) == 17 && Distance(Coord(7, 12), Coord(2, 0)) == 17
    ensures Distance(Coord(11, 0), Coord(11, 5)) == 5 && Distance(Coord(11, 5), Coord(11, 0)) == 5
  {
  }

  // ---------------------------------------------------------------------
  // Collecting the galaxies

  /** A '#' at row `c.row`, column `c.col` of the image. */
  predicate IsGalaxy(lines: seq<string>, c: Coord)
  {
    c.row < |lines| && c.col < |lines[c.row]| && lines[c.row][c.col] == '#'
  }

  /** Row-major order, the order in which the image is scanned. */
  predicate Precedes(a: Coord, b: Coord)
  {
    a.row < b.row || (a.row == b.row && a.col < b.col)
  }

  /** The galaxies of line `y`, left to right. */
  function LineGalaxies(y: nat, line: string): seq<Coord>
  {
    if line == [] then []
    else LineGalaxies(y, line[..|line| - 1]) + (if line[|line| - 1] == '#' then [Coord(y, |line| - 1)] else [])
  }

  /** The galaxies of the image, line by line. */
  function GalaxiesOf(lines: seq<string>): seq<Coord>
  {
    if lines == [] then []
    else GalaxiesOf(lines[..|lines| - 1]) + LineGalaxies(|lines| - 1, lines[|lines| - 1])
  }

  /** The first loop of `parse_input`: push every '#' met in the scan. */
  method CollectGalaxies(lines: seq<string>) returns (galaxies: seq<Coord>)
    ensures galaxies == GalaxiesOf(lines)
  {
    galaxies := [];
    for y := 0 to |lines|
      invariant galaxies == GalaxiesOf(lines[..y])
    {
      var line := lines[y];
      for x := 0 to |line|
        invariant galaxies == GalaxiesOf(lines[..y]) + LineGalaxies(y, line[..x])
      {
        assert line[..x + 1][..x] == line[..x];
        if line[x] == '#' {
          galaxies := galaxies + [Coord(y, x)];
        }
      }
      assert line[..|line|] == line;
      assert lines[..y + 1][..y] == lines[..y];
    }
    assert lines[..|lines|] == lines;
  }

  /** A line's galaxies are its '#' cells, in increasing column order. */
  lemma {:induction false} LineGalaxiesSpec(y: nat, line: string)
    ensures forall c :: c in LineGalaxies(y, line) <==> c.row == y && c.col < |line| && line[c.col] == '#'
    ensures forall i :: 0 <= i < |LineGalaxies(y, line)| ==>
      LineGalaxies(y, line)[i].row == y && LineGalaxies(y, line)[i].col < |line|
    ensures forall i, j :: 0 <= i < j < |LineGalaxies(y, line)| ==>
      LineGalaxies(y, line)[i].col < LineGalaxies(y, line)[j].col
  {
    if line != [] {
      var init := line[..|line| - 1];
      LineGalaxiesSpec(y, init);
      var a := LineGalaxies(y, init);
      var r := LineGalaxies(y, line);
      assert r == a + (if line[|line| - 1] == '#' then [Coord(y, |line| - 1)] else []);
      forall c
        ensures c in r <==> c.row == y && c.col < |line| && line[c.col] == '#'
      {
        if c.col < |init| {
          assert line[c.col] == init[c.col];
        }
      }
      forall i, j | 0 <= i < j < |r|
        ensures r[i].col < r[j].col
      {
        if j < |a| {
          assert r[i] == a[i] && r[j] == a[j];
        } else {
          assert r[i] == a[i];
        }
      }
    }
  }

  /** `parse_input` finds exactly the '#' cells of the image, each once, in
      row-major order. */
  lemma {:induction false} GalaxiesSpec(lines: seq<string>)
    ensures forall c :: c in GalaxiesOf(lines) <==> IsGalaxy(lines, c)
    ensures forall i :: 0 <= i < |GalaxiesOf(lines)| ==> GalaxiesOf(lines)[i].row < |lines|
    ensures forall i, j :: 0 <= i < j < |GalaxiesOf(lines)| ==> Precedes(GalaxiesOf(lines)[i], GalaxiesOf(lines)[j])
  {
    if lines != [] {
      var n := |lines| - 1;
      var init := lines[..n];
      GalaxiesSpec(init);
      LineGalaxiesSpec(n, lines[n]);
      var a := GalaxiesOf(init);
      var b := LineGalaxies(n, lines[n]);
      var r := GalaxiesOf(lines);
      assert r == a + b;
      forall c
        ensures c in r <==> IsGalaxy(lines, c)
      {
        if c.row < n {
          assert lines[c.row] == init[c.row];
        }
      }
      forall i, j | 0 <= i < j < |r|
        ensures Precedes(r[i], r[j])
      {
        if j < |a| {
          assert r[i] == a[i] && r[j] == a[j];
        } else if i < |a| {
          assert r[i] == a[i] && r[j] == b[j - |a|];
        } else {
          assert r[i] == b[i - |a|] && r[j] == b[j - |a|];
        }
      }
    }
  }

  // ---------------------------------------------------------------------
  // Expansion along one axis

  /** Rows are expanded first, then columns. */
  datatype Axis = Rows | Cols

  /** The coordinate an axis groups by: the `BTreeMap` key. */
  function Key(c: Coord, axis: Axis): nat
  {
    if axis == Rows then c.row else c.col
  }

  /** `c` moved `n` further along `axis`. */
  function Shift(c: Coord, axis: Axis, n: nat): (r: Coord)
    ensures Key(r, axis) == Key(c, axis) + n
    ensures axis == Rows ==> r.col == c.col
    ensures axis == Cols ==> r.row == c.row
  {
    if axis == Rows then Coord(c.row + n, c.col) else Coord(c.row, c.col + n)
  }

  /** The occupied lines. */
  function KeySet(gs: seq<Coord>, axis: Axis): set<nat>
  {
    set i | 0 <= i < |gs| :: Key(gs[i], axis)
  }

  /** A line past every occupied one. */
  function Bound(gs: seq<Coord>, axis: Axis): (r: nat)
    ensures forall i :: 0 <= i < |gs| ==> Key(gs[i], axis) < r
  {
    if gs == [] then 0
    else
      var b := Bound(gs[..|gs| - 1], axis);
      var k := Key(gs[|gs| - 1], axis);
      assert forall i :: 0 <= i < |gs| - 1 ==> gs[i] == gs[..|gs| - 1][i];
      if k < b then b else k + 1
  }

  predicate StrictlyIncreasing(s: seq<nat>)
  {
    forall i, j :: 0 <= i < j < |s| ==> s[i] < s[j]
  }

  /** The members of `lines` below `n`, in increasing order. */
  function KeysBelow(lines: set<nat>, n: nat): seq<nat>
  {
    if n == 0 then [] else KeysBelow(lines, n - 1) + (if n - 1 in lines then [n - 1] else [])
  }

  lemma {:induction false} KeysBelowSpec(lines: set<nat>, n: nat)
    ensures StrictlyIncreasing(KeysBelow(lines, n))
    ensures forall k :: k in KeysBelow(lines, n) <==> k in lines && k < n
    ensures forall i :: 0 <= i < |KeysBelow(lines, n)| ==> KeysBelow(lines, n)[i] < n
  {
    if n > 0 {
      KeysBelowSpec(lines, n - 1);
      var a := KeysBelow(lines, n - 1);
      var r := KeysBelow(lines, n);
      assert r == a + (if n - 1 in lines then [n - 1] else []);
      forall i, j | 0 <= i < j < |r|
        ensures r[i] < r[j]
      {
        assert r[i] == a[i];
      }
    }
  }

  /** The keys of the `BTreeMap` that groups the galaxies by line, in the
      order it iterates them. */
  function SortedKeys(gs: seq<Coord>, axis: Axis): seq<nat>
  {
    KeysBelow(KeySet(gs, axis), Bound(gs, axis))
  }

  /** The map's keys are the occupied lines, increasing; there are some
      exactly when there are galaxies. */
  lemma SortedKeysSpec(gs: seq<Coord>, axis: Axis)
    ensures StrictlyIncreasing(SortedKeys(gs, axis))
    ensures forall k :: k in SortedKeys(gs, axis) <==> k in KeySet(gs, axis)
    ensures |SortedKeys(gs, axis)| == 0 <==> gs == []
  {
    KeysBelowSpec(KeySet(gs, axis), Bound(gs, axis));
    if gs != [] {
      assert Key(gs[0], axis) in KeySet(gs, axis);
      assert Key(gs[0], axis) in SortedKeys(gs, axis);
    }
  }

  lemma SortedKeysIncreasing(gs: seq<Coord>, axis: Axis)
    ensures StrictlyIncreasing(SortedKeys(gs, axis))
  {
    KeysBelowSpec(KeySet(gs, axis), Bound(gs, axis));
  }

  lemma {:induction false} IncreasingSpread(keys: seq<nat>, i: nat)
    requires StrictlyIncreasing(keys) && i < |keys|
    ensures keys[i] >= keys[0] + i
  {
    if i > 0 {
      IncreasingSpread(keys, i - 1);
    }
  }

  /** The empty lines between the first occupied line and the `i`-th:
      `expanded_rows` (or `expanded_cols`) counts them. */
  function Gap(keys: seq<nat>, i: nat): nat
    requires StrictlyIncreasing(keys) && i < |keys|
  {
    IncreasingSpread(keys, i);
    keys[i] - keys[0] - i
  }

  /** The galaxies on line `k`, in their order: one value of the
      `BTreeMap`. */
  function Group(gs: seq<Coord>, axis: Axis, k: nat): seq<Coord>
  {
    if gs == [] then []
    else Group(gs[..|gs| - 1], axis, k) + (if Key(gs[|gs| - 1], axis) == k then [gs[|gs| - 1]] else [])
  }

  lemma {:induction false} GroupKeys(gs: seq<Coord>, axis: Axis, k: nat)
    ensures forall i :: 0 <= i < |Group(gs, axis, k)| ==> Key(Group(gs, axis, k)[i], axis) == k
  {
    if gs != [] {
      GroupKeys(gs[..|gs| - 1], axis, k);
    }
  }

  /** The groups of `keys`, one after another. */
  function GroupsFrom(gs: seq<Coord>, axis: Axis, keys: seq<nat>): seq<Coord>
  {
    if keys == [] then []
    else GroupsFrom(gs, axis, keys[..|keys| - 1]) + Group(gs, axis, keys[|keys| - 1])
  }

  /** Each item moved `n` along `axis`. */
  function Shifted(s: seq<Coord>, axis: Axis, n: nat): (r: seq<Coord>)
    ensures |r| == |s|
  {
    if s == [] then [] else Shifted(s[..|s| - 1], axis, n) + [Shift(s[|s| - 1], axis, n)]
  }

  /** The running shift grows by the lines skipped between neighbouring
      keys. */
  lemma GapStep(keys: seq<nat>, i: nat, step: nat)
    requires StrictlyIncreasing(keys) && 0 < i < |keys|
    ensures keys[i - 1] < keys[i]
    ensures step * Gap(keys, i) == step * Gap(keys, i - 1) + step * (keys[i] - keys[i - 1] - 1)
  {
    assert Gap(keys, i) == Gap(keys, i - 1) + (keys[i] - keys[i - 1] - 1);
  }

  /** The lines added before key `i`: `rate - 1` for each empty line
      skipped since key `i - 1`, bringing the running shift to the one of
      key `i`. */
  function ShiftGrowth(keys: seq<nat>, i: nat, rate: nat, expanded: nat): (r: nat)
    requires StrictlyIncreasing(keys) && 0 < i < |keys| && rate > 0
    requires expanded == StepOf(rate) * Gap(keys, i - 1)
    ensures expanded + r == StepOf(rate) * Gap(keys, i)
  {
    GapStep(keys, i, rate - 1);
    var skipped: nat := keys[i] - keys[i - 1] - 1;
    MulNat(rate - 1, skipped);
    (rate - 1) * skipped
  }

  lemma MulNat(a: nat, b: nat)
    ensures a * b >= 0
  {
    if a > 0 {
      MulNat(a - 1, b);
      assert a * b == (a - 1) * b + b;
    }
  }

  /** What one expansion phase pushes for the first `n` keys: each group in
      key order, moved by `step` for every empty line before it. */
  function Expansion(gs: seq<Coord>, axis: Axis, step: nat, keys: seq<nat>, n: nat): seq<Coord>
    requires StrictlyIncreasing(keys) && n <= |keys|
  {
    if n == 0 then []
    else Expansion(gs, axis, step, keys, n - 1) + Shifted(Group(gs, axis, keys[n - 1]), axis, step * Gap(keys, n - 1))
  }

  /** The lines each empty line adds: `expansion_rate - 1`, and 0 for a
      rate of 0, where the subtraction is only reached when it fails. */
  function StepOf(rate: nat): nat
  {
    if rate == 0 then 0 else rate - 1
  }

  /** The panic messages of an expansion phase. */
  const UnwrapNone := "called `Option::unwrap()` on a `None` value"
  const SubtractOverflow := "attempt to subtract with overflow"

  /** One expansion phase of `parse_input`: the first occupied line's
      `unwrap` fails without galaxies, and `expansion_rate - 1` underflows
      when the rate is 0 and there is a second occupied line. */
  function ExpandSpec(gs: seq<Coord>, axis: Axis, rate: nat): (r: Result<seq<Coord>>)
    ensures r.Ok? <==> gs != [] && (rate > 0 || |SortedKeys(gs, axis)| == 1)
    ensures r.Ok? ==> |SortedKeys(gs, axis)| > 0
  {
    var keys := SortedKeys(gs, axis);
    SortedKeysSpec(gs, axis);
    if |keys| == 0 then Err(UnwrapNone)
    else if rate == 0 && |keys| > 1 then Err(SubtractOverflow)
    else Ok(Expansion(gs, axis, StepOf(rate), keys, |keys|))
  }

  /** The inner loops of an expansion phase: push a group, moved `n`. */
  method PushShifted(out: seq<Coord>, group: seq<Coord>, axis: Axis, n: nat) returns (out': seq<Coord>)
    ensures out' == out + Shifted(group, axis, n)
  {
    out' := out;
    for j := 0 to |group|
      invariant out' == out + Shifted(group[..j], axis, n)
    {
      assert group[..j + 1][..j] == group[..j];
      out' := out' + [Shift(group[j], axis, n)];
    }
    assert group[..|group|] == group;
  }

  /** One expansion phase: the first group as it is, then for each next
      key the lines skipped since the previous key, times `rate - 1`, are
      added to the running shift. */
  method ExpandAxis(gs: seq<Coord>, axis: Axis, rate: nat) returns (r: Result<seq<Coord>>)
    ensures r == ExpandSpec(gs, axis, rate)
  {
    var keys := SortedKeys(gs, axis);
    SortedKeysIncreasing(gs, axis);
    if |keys| == 0 {
      return Err(UnwrapNone);
    }
    ghost var step := StepOf(rate);
    var out := PushShifted([], Group(gs, axis, keys[0]), axis, 0);
    var expanded: nat := 0;
    for i := 1 to |keys|
      invariant expanded == step * Gap(keys, i - 1)
      invariant out == Expansion(gs, axis, step, keys, i)
      invariant rate > 0 || i == 1
    {
      if rate == 0 {
        return Err(SubtractOverflow);
      }
      var newLines := ShiftGrowth(keys, i, rate, expanded);
      expanded := expanded + newLines;
      out := PushShifted(out, Group(gs, axis, keys[i]), axis, expanded);
      assert out == Expansion(gs, axis, step, keys, i + 1);
    }
    return Ok(out);
  }

  // ---------------------------------------------------------------------
  // What an expansion phase does to each galaxy

  /** The empty lines in `[lo, hi)`. */
  function EmptyCount(lines: set<nat>, lo: nat, hi: nat): nat
  {
    if hi <= lo then 0 else EmptyCount(lines, lo, hi - 1) + (if hi - 1 in lines then 0 else 1)
  }

  lemma {:induction false} EmptySplit(lines: set<nat>, a: nat, b: nat, c: nat)
    requires a <= b <= c
    ensures EmptyCount(lines, a, c) == EmptyCount(lines, a, b) + EmptyCount(lines, b, c)
    decreases c
  {
    if c > b {
      EmptySplit(lines, a, b, c - 1);
    }
  }

  lemma {:induction false} EmptyNone(lines: set<nat>, a: nat, b: nat)
    requires a <= b
    requires forall r :: a <= r < b ==> r !in lines
    ensures EmptyCount(lines, a, b) == b - a
    decreases b
  {
    if b > a {
      EmptyNone(lines, a, b - 1);
    }
  }

  lemma NoKeyBetween(keys: seq<nat>, j: nat, m: nat)
    requires StrictlyIncreasing(keys) && j + 1 < |keys| && m < |keys|
    ensures keys[m] <= keys[j] || keys[j + 1] <= keys[m]
  {
    if m > j + 1 {
      assert keys[j + 1] < keys[m];
    }
  }

  /** Every line strictly between two neighbouring keys is empty. */
  lemma EmptyBetweenKeys(gs: seq<Coord>, axis: Axis, j: nat)
    requires j + 1 < |SortedKeys(gs, axis)|
    ensures SortedKeys(gs, axis)[j] < SortedKeys(gs, axis)[j + 1]
    ensures EmptyCount(KeySet(gs, axis), SortedKeys(gs, axis)[j], SortedKeys(gs, axis)[j + 1]) ==
      SortedKeys(gs, axis)[j + 1] - SortedKeys(gs, axis)[j] - 1
  {
    var keys := SortedKeys(gs, axis);
    var lines := KeySet(gs, axis);
    KeysBelowSpec(lines, Bound(gs, axis));
    assert keys[j] < keys[j + 1];
    forall r | keys[j] + 1 <= r < keys[j + 1]
      ensures r !in lines
    {
      forall m | 0 <= m < |keys|
        ensures keys[m] != r
      {
        NoKeyBetween(keys, j, m);
      }
      assert r !in keys;
    }
    EmptyNone(lines, keys[j] + 1, keys[j + 1]);
    EmptySplit(lines, keys[j], keys[j] + 1, keys[j + 1]);
    assert keys[j] in lines;
  }

  /** The running shift of the `i`-th key is `step` times the empty lines
      between the first key and it. */
  lemma {:induction false} GapCountsEmpty(gs: seq<Coord>, axis: Axis, i: nat)
    requires StrictlyIncreasing(SortedKeys(gs, axis)) && i < |SortedKeys(gs, axis)|
    ensures Gap(SortedKeys(gs, axis), i) == EmptyCount(KeySet(gs, axis), SortedKeys(gs, axis)[0], SortedKeys(gs, axis)[i])
  {
    var keys := SortedKeys(gs, axis);
    if i > 0 {
      GapCountsEmpty(gs, axis, i - 1);
      EmptyBetweenKeys(gs, axis, i - 1);
      IncreasingSpread(keys, i - 1);
      EmptySplit(KeySet(gs, axis), keys[0], keys[i - 1], keys[i]);
    }
  }

  /** Where an expansion phase sends a galaxy: `step` further along the
      axis for every empty line between the first occupied line and its
      own. */
  function Moved(c: Coord, axis: Axis, step: nat, lines: set<nat>, first: nat): Coord
  {
    Shift(c, axis, step * EmptyCount(lines, first, Key(c, axis)))
  }

  function MovedAll(s: seq<Coord>, axis: Axis, step: nat, lines: set<nat>, first: nat): (r: seq<Coord>)
    ensures |r| == |s|
  {
    if s == [] then [] else MovedAll(s[..|s| - 1], axis, step, lines, first) + [Moved(s[|s| - 1], axis, step, lines, first)]
  }

  /** Two moved galaxies lie as far apart as before plus `step` for every
      empty line between them. */
  lemma MovedSpacing(a: Coord, b: Coord, axis: Axis, step: nat, lines: set<nat>, first: nat)
    requires first <= Key(a, axis) <= Key(b, axis)
    ensures Key(Moved(b, axis, step, lines, first), axis) - Key(Moved(a, axis, step, lines, first), axis) ==
      Key(b, axis) - Key(a, axis) + step * EmptyCount(lines, Key(a, axis), Key(b, axis))
  {
    EmptySplit(lines, first, Key(a, axis), Key(b, axis));
    var x := EmptyCount(lines, first, Key(a, axis));
    var y := EmptyCount(lines, Key(a, axis), Key(b, axis));
    assert step * (x + y) == step * x + step * y;
  }

  /** Without extra lines nothing moves. */
  lemma {:induction false} MovedAllStill(s: seq<Coord>, axis: Axis, lines: set<nat>, first: nat)
    ensures MovedAll(s, axis, 0, lines, first) == s
  {
    if s != [] {
      MovedAllStill(s[..|s| - 1], axis, lines, first);
      assert s[..|s| - 1] + [s[|s| - 1]] == s;
    }
  }

  lemma {:induction false} MovedAppend(a: seq<Coord>, b: seq<Coord>, axis: Axis, step: nat, lines: set<nat>, first: nat)
    ensures MovedAll(a + b, axis, step, lines, first) == MovedAll(a, axis, step, lines, first) + MovedAll(b, axis, step, lines, first)
    decreases |b|
  {
    if b != [] {
      assert (a + b)[..|a + b| - 1] == a + b[..|b| - 1];
      MovedAppend(a, b[..|b| - 1], axis, step, lines, first);
    } else {
      assert a + b == a;
    }
  }

  /** A group all on line `k` is shifted as `Moved` says. */
  lemma {:induction false} ShiftedIsMoved(s: seq<Coord>, axis: Axis, step: nat, lines: set<nat>, first: nat, k: nat)
    requires forall i :: 0 <= i < |s| ==> Key(s[i], axis) == k
    ensures Shifted(s, axis, step * EmptyCount(lines, first, k)) == MovedAll(s, axis, step, lines, first)
  {
    if s != [] {
      ShiftedIsMoved(s[..|s| - 1], axis, step, lines, first, k);
    }
  }

  /** The first `n` groups of a phase are the galaxies of the first `n`
      keys, moved. */
  lemma {:induction false} ExpansionIsMoved(gs: seq<Coord>, axis: Axis, step: nat, n: nat)
    requires StrictlyIncreasing(SortedKeys(gs, axis)) && 0 < |SortedKeys(gs, axis)| && n <= |SortedKeys(gs, axis)|
    ensures Expansion(gs, axis, step, SortedKeys(gs, axis), n) ==
      MovedAll(GroupsFrom(gs, axis, SortedKeys(gs, axis)[..n]), axis, step, KeySet(gs, axis), SortedKeys(gs, axis)[0])
  {
    var keys := SortedKeys(gs, axis);
    var lines := KeySet(gs, axis);
    if n > 0 {
      ExpansionIsMoved(gs, axis, step, n - 1);
      assert keys[..n][..n - 1] == keys[..n - 1];
      var group := Group(gs, axis, keys[n - 1]);
      assert GroupsFrom(gs, axis, keys[..n]) == GroupsFrom(gs, axis, keys[..n - 1]) + group;
      MovedAppend(GroupsFrom(gs, axis, keys[..n - 1]), group, axis, step, lines, keys[0]);
      GroupKeys(gs, axis, keys[n - 1]);
      GapCountsEmpty(gs, axis, n - 1);
      ShiftedIsMoved(group, axis, step, lines, keys[0], keys[n - 1]);
    } else {
      assert keys[..0] == [];
    }
  }

  lemma {:induction false} GroupsOfNothing(axis: Axis, keys: seq<nat>)
    ensures GroupsFrom([], axis, keys) == []
  {
    if keys != [] {
      GroupsOfNothing(axis, keys[..|keys| - 1]);
    }
  }

  lemma GroupSnoc(gs: seq<Coord>, g: Coord, axis: Axis, k: nat)
    ensures Group(gs + [g], axis, k) == Group(gs, axis, k) + (if Key(g, axis) == k then [g] else [])
  {
    assert (gs + [g])[..|gs|] == gs;
  }

  lemma IncreasingInit(keys: seq<nat>)
    requires StrictlyIncreasing(keys) && keys != []
    ensures StrictlyIncreasing(keys[..|keys| - 1])
    ensures keys[|keys| - 1] !in keys[..|keys| - 1]
    ensures keys == keys[..|keys| - 1] + [keys[|keys| - 1]]
  {
    var init := keys[..|keys| - 1];
    forall i | 0 <= i < |init|
      ensures init[i] != keys[|keys| - 1]
    {
      assert init[i] == keys[i];
    }
  }

  /** What a galaxy adds to the groups of `keys`. */
  function Added(g: Coord, axis: Axis, keys: seq<nat>, step: nat, lines: set<nat>, first: nat): multiset<Coord>
  {
    if Key(g, axis) in keys then multiset{Moved(g, axis, step, lines, first)} else multiset{}
  }

  lemma AddedSplit(g: Coord, axis: Axis, keys: seq<nat>, step: nat, lines: set<nat>, first: nat)
    requires StrictlyIncreasing(keys) && keys != []
    ensures StrictlyIncreasing(keys[..|keys| - 1])
    ensures Added(g, axis, keys, step, lines, first) ==
      Added(g, axis, keys[..|keys| - 1], step, lines, first) +
      multiset(MovedAll(if Key(g, axis) == keys[|keys| - 1] then [g] else [], axis, step, lines, first))
  {
    IncreasingInit(keys);
    if Key(g, axis) == keys[|keys| - 1] {
      assert MovedAll([g], axis, step, lines, first) == [Moved(g, axis, step, lines, first)];
    }
  }

  /** A further galaxy adds itself to exactly the group of its key. */
  lemma {:induction false} GroupsSnoc(gs: seq<Coord>, g: Coord, axis: Axis, keys: seq<nat>, step: nat, lines: set<nat>, first: nat)
    requires StrictlyIncreasing(keys)
    ensures multiset(MovedAll(GroupsFrom(gs + [g], axis, keys), axis, step, lines, first)) ==
      multiset(MovedAll(GroupsFrom(gs, axis, keys), axis, step, lines, first)) + Added(g, axis, keys, step, lines, first)
  {
    if keys != [] {
      IncreasingInit(keys);
      GroupsSnoc(gs, g, axis, keys[..|keys| - 1], step, lines, first);
      GroupsSnocStep(gs, g, axis, keys, step, lines, first);
    } else {
      assert GroupsFrom(gs + [g], axis, keys) == [] && GroupsFrom(gs, axis, keys) == [];
    }
  }

  /** The groups of `keys` end with the group of the last key. */
  lemma GroupsLast(gs: seq<Coord>, g: Coord, axis: Axis, keys: seq<nat>)
    requires keys != []
    ensures GroupsFrom(gs + [g], axis, keys) == GroupsFrom(gs + [g], axis, keys[..|keys| - 1]) +
      (Group(gs, axis, keys[|keys| - 1]) + (if Key(g, axis) == keys[|keys| - 1] then [g] else []))
    ensures GroupsFrom(gs, axis, keys) == GroupsFrom(gs, axis, keys[..|keys| - 1]) + Group(gs, axis, keys[|keys| - 1])
  {
    GroupSnoc(gs, g, axis, keys[|keys| - 1]);
  }

  lemma Regroup<T>(mA: multiset<T>, mB: multiset<T>, mG: multiset<T>, mE: multiset<T>, x: multiset<T>, y: multiset<T>)
    requires mA == mB + x && y == x + mE
    ensures mA + (mG + mE) == (mB + mG) + y
  {
  }

  /** The step of `GroupsSnoc` for the last key. */
  lemma GroupsSnocStep(gs: seq<Coord>, g: Coord, axis: Axis, keys: seq<nat>, step: nat, lines: set<nat>, first: nat)
    requires StrictlyIncreasing(keys) && keys != []
    requires multiset(MovedAll(GroupsFrom(gs + [g], axis, keys[..|keys| - 1]), axis, step, lines, first)) ==
      multiset(MovedAll(GroupsFrom(gs, axis, keys[..|keys| - 1]), axis, step, lines, first)) +
      Added(g, axis, keys[..|keys| - 1], step, lines, first)
    ensures multiset(MovedAll(GroupsFrom(gs + [g], axis, keys), axis, step, lines, first)) ==
      multiset(MovedAll(GroupsFrom(gs, axis, keys), axis, step, lines, first)) + Added(g, axis, keys, step, lines, first)
  {
    var init := keys[..|keys| - 1];
    var k := keys[|keys| - 1];
    AddedSplit(g, axis, keys, step, lines, first);
    var extra: seq<Coord> := if Key(g, axis) == k then [g] else [];
    GroupsLast(gs, g, axis, keys);
    var before := GroupsFrom(gs, axis, init);
    var after := GroupsFrom(gs + [g], axis, init);
    var group := Group(gs, axis, k);
    MovedAppend(after, group + extra, axis, step, lines, first);
    MovedAppend(group, extra, axis, step, lines, first);
    MovedAppend(before, group, axis, step, lines, first);
    Regroup(multiset(MovedAll(after, axis, step, lines, first)), multiset(MovedAll(before, axis, step, lines, first)),
            multiset(MovedAll(group, axis, step, lines, first)), multiset(MovedAll(extra, axis, step, lines, first)),
            Added(g, axis, init, step, lines, first), Added(g, axis, keys, step, lines, first));
  }

  /** Grouping by key loses and duplicates nothing. */
  lemma {:induction false} GroupsPermute(gs: seq<Coord>, axis: Axis, keys: seq<nat>, step: nat, lines: set<nat>, first: nat)
    requires StrictlyIncreasing(keys)
    requires forall i :: 0 <= i < |gs| ==> Key(gs[i], axis) in keys
    ensures multiset(MovedAll(GroupsFrom(gs, axis, keys), axis, step, lines, first)) == multiset(MovedAll(gs, axis, step, lines, first))
  {
    if gs == [] {
      GroupsOfNothing(axis, keys);
    } else {
      var init := gs[..|gs| - 1];
      var g := gs[|gs| - 1];
      assert init + [g] == gs;
      GroupsPermute(init, axis, keys, step, lines, first);
      GroupsSnoc(init, g, axis, keys, step, lines, first);
    }
  }

  /** An expansion phase moves every galaxy once, as `Moved` says, and
      pushes nothing else. */
  lemma ExpansionMovesGalaxies(gs: seq<Coord>, axis: Axis, rate: nat)
    requires ExpandSpec(gs, axis, rate).Ok?
    ensures multiset(ExpandSpec(gs, axis, rate).value) ==
      multiset(MovedAll(gs, axis, StepOf(rate), KeySet(gs, axis), SortedKeys(gs, axis)[0]))
    ensures |ExpandSpec(gs, axis, rate).value| == |gs|
  {
    var keys := SortedKeys(gs, axis);
    SortedKeysSpec(gs, axis);
    ExpansionIsMoved(gs, axis, StepOf(rate), |keys|);
    assert keys[..|keys|] == keys;
    forall i | 0 <= i < |gs|
      ensures Key(gs[i], axis) in keys
    {
      assert Key(gs[i], axis) in KeySet(gs, axis);
    }
    GroupsPermute(gs, axis, keys, StepOf(rate), KeySet(gs, axis), keys[0]);
    assert |multiset(ExpandSpec(gs, axis, rate).value)| == |ExpandSpec(gs, axis, rate).value|;
  }

  /** At rate 1 a phase only regroups the galaxies. */
  lemma RateOneKeeps(gs: seq<Coord>, axis: Axis)
    requires gs != []
    ensures ExpandSpec(gs, axis, 1).Ok?
    ensures multiset(ExpandSpec(gs, axis, 1).value) == multiset(gs)
  {
    ExpansionMovesGalaxies(gs, axis, 1);
    MovedAllStill(gs, axis, KeySet(gs, axis), SortedKeys(gs, axis)[0]);
  }

  // ---------------------------------------------------------------------
  // parse_input

  /** `parse_input`: collect the galaxies, expand the rows, then the
      columns of the row-expanded galaxies. */
  function ParseSpec(lines: seq<string>, rate: nat): Result<seq<Coord>>
  {
    var rows := ExpandSpec(GalaxiesOf(lines), Rows, rate);
    if rows.Err? then Err(rows.msg) else ExpandSpec(rows.value, Cols, rate)
  }

  method ParseInput(lines: seq<string>, rate: nat) returns (r: Result<seq<Coord>>)
    ensures r == ParseSpec(lines, rate)
  {
    var galaxies := CollectGalaxies(lines);
    var rows := ExpandAxis(galaxies, Rows, rate);
    if rows.Err? {
      return Err(rows.msg);
    }
    r := ExpandAxis(rows.value, Cols, rate);
  }

  /** With a positive rate parsing fails only on an image without
      galaxies, and keeps one galaxy per '#'. */
  lemma ParseKeepsCount(lines: seq<string>, rate: nat)
    requires rate > 0
    ensures ParseSpec(lines, rate).Ok? <==> GalaxiesOf(lines) != []
    ensures ParseSpec(lines, rate).Ok? ==> |ParseSpec(lines, rate).value| == |GalaxiesOf(lines)|
  {
    var rows := ExpandSpec(GalaxiesOf(lines), Rows, rate);
    if rows.Ok? {
      ExpansionMovesGalaxies(GalaxiesOf(lines), Rows, rate);
      ExpansionMovesGalaxies(rows.value, Cols, rate);
    }
  }

  /** At rate 1 parsing yields the image's galaxies, reordered. */
  lemma ParseRateOne(lines: seq<string>)
    requires GalaxiesOf(lines) != []
    ensures ParseSpec(lines, 1).Ok?
    ensures multiset(ParseSpec(lines, 1).value) == multiset(GalaxiesOf(lines))
  {
    var gs := GalaxiesOf(lines);
    RateOneKeeps(gs, Rows);
    var rows := ExpandSpec(gs, Rows, 1).value;
    assert |multiset(rows)| == |gs|;
    assert rows != [];
    RateOneKeeps(rows, Cols);
  }

  // ---------------------------------------------------------------------
  // compute_total_distance

  /** The inner loop: distances from `a` to the galaxies of `gs` other
      than itself. */
  function RowSum(a: Coord, gs: seq<Coord>): nat
  {
    if gs == [] then 0
    else RowSum(a, gs[..|gs| - 1]) + (if a == gs[|gs| - 1] then 0 else Distance(a, gs[|gs| - 1]))
  }

  /** The outer loop: the inner sums of every galaxy of `fs`. */
  function PairSum(fs: seq<Coord>, gs: seq<Coord>): nat
  {
    if fs == [] then 0 else PairSum(fs[..|fs| - 1], gs) + RowSum(fs[|fs| - 1], gs)
  }

  /** Distances from the galaxies of `fs` to `b`. */
  function ColSum(fs: seq<Coord>, b: Coord): nat
  {
    if fs == [] then 0 else ColSum(fs[..|fs| - 1], b) + Distance(fs[|fs| - 1], b)
  }

  /** The puzzle's answer: the distance of every unordered pair, counted
      once. */
  function UnorderedSum(gs: seq<Coord>): nat
  {
    if gs == [] then 0 else UnorderedSum(gs[..|gs| - 1]) + ColSum(gs[..|gs| - 1], gs[|gs| - 1])
  }

  lemma {:induction false} RowSumIsColSum(b: Coord, s: seq<Coord>)
    ensures RowSum(b, s) == ColSum(s, b)
  {
    if s != [] {
      RowSumIsColSum(b, s[..|s| - 1]);
      DistanceSymmetric(b, s[|s| - 1]);
    }
  }

  lemma RowSumSnoc(a: Coord, s: seq<Coord>, x: Coord)
    ensures RowSum(a, s + [x]) == RowSum(a, s) + Distance(a, x)
  {
    assert (s + [x])[..|s|] == s;
  }

  lemma {:induction false} PairSumSnoc(fs: seq<Coord>, s: seq<Coord>, x: Coord)
    ensures PairSum(fs, s + [x]) == PairSum(fs, s) + ColSum(fs, x)
  {
    if fs != [] {
      PairSumSnoc(fs[..|fs| - 1], s, x);
      RowSumSnoc(fs[|fs| - 1], s, x);
    }
  }

  /** Summing over ordered pairs counts each unordered pair twice, and
      skipping equal galaxies loses nothing, so the halving is exact. */
  lemma {:induction false} PairSumTwice(gs: seq<Coord>)
    ensures PairSum(gs, gs) == 2 * UnorderedSum(gs)
  {
    if gs != [] {
      var init := gs[..|gs| - 1];
      var x := gs[|gs| - 1];
      assert gs == init + [x];
      PairSumTwice(init);
      PairSumSnoc(init, init, x);
      RowSumSnoc(x, init, x);
      RowSumIsColSum(x, init);
    }
  }

  /** `compute_total_distance`: the nested loops over ordered pairs, then
      the halving. */
  method TotalDistance(galaxies: seq<Coord>) returns (total: nat)
    ensures total == UnorderedSum(galaxies)
  {
    var sum := 0;
    for i := 0 to |galaxies|
      invariant sum == PairSum(galaxies[..i], galaxies)
    {
      for j := 0 to |galaxies|
        invariant sum == PairSum(galaxies[..i], galaxies) + RowSum(galaxies[i], galaxies[..j])
      {
        assert galaxies[..j + 1][..j] == galaxies[..j];
        if galaxies[i] == galaxies[j] {
          continue;
        }
        var distance := Distance(galaxies[i], galaxies[j]);
        sum := sum + distance;
      }
      assert galaxies[..|galaxies|] == galaxies;
      assert galaxies[..i + 1][..i] == galaxies[..i];
    }
    assert galaxies[..|galaxies|] == galaxies;
    PairSumTwice(galaxies);
    total := sum / 2;
  }

  /** Both parts: parse at the given rate, then total the distances. */
  method Solve(lines: seq<string>, rate: nat) returns (r: Result<nat>)
    ensures r.Ok? <==> ParseSpec(lines, rate).Ok?
    ensures r.Ok? ==> r.value == UnorderedSum(ParseSpec(lines, rate).value)
  {
    var space := ParseInput(lines, rate);
    if space.Err? {
      return Err(space.msg);
    }
    var total := TotalDistance(space.value);
    return Ok(total);
  }
}
