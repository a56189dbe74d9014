/** Day 21: the garden plots an elf can stand on after exactly a number of
    single steps, counted by a memoised recursion. */
module Day21 {
  import opened Common
  import opened Text

  datatype Tile = Empty | Blocked

  type Grid = seq<seq<Tile>>

  /** (row, column); the source's `usize` pairs, kept as integers so that a
      step off the top or left edge is simply off the grid. */
  type Cell = (int, int)

  // ---------------------------------------------------------------------
  // Parsing

  /** '.' and 'S' are plots, '#' is rock; anything else panics. */
  function TileOf(c: char): (r: Option<Tile>)
    ensures r.Some? <==> c == '.' || c == '#' || c == 'S'
    ensures r.Some? ==> (r.value == Blocked <==> c == '#')
  {
    match c
    case '.' => Some(Empty)
    case '#' => Some(Blocked)
    case 'S' => Some(Empty)
    case _ => None
  }

  predicate Valid(c: char)
  {
    c == '.' || c == '#' || c == 'S'
  }

  /** The grid of `parse_input`: one row per line, one tile per character;
      None when some character panics. */
  function GridOf(lines: seq<string>): (r: Option<Grid>)
    ensures r.Some? <==> forall i, j :: 0 <= i < |lines| && 0 <= j < |lines[i]| ==> Valid(lines[i][j])
    ensures r.Some? ==> |r.value| == |lines| && forall i :: 0 <= i < |lines| ==> |r.value[i]| == |lines[i]|
    ensures r.Some? ==> forall i, j :: 0 <= i < |lines| && 0 <= j < |lines[i]| ==>
      r.value[i][j] == TileOf(lines[i][j]).value
  {
    if forall i, j :: 0 <= i < |lines| && 0 <= j < |lines[i]| ==> Valid(lines[i][j]) then
      Some(seq(|lines|, i requires 0 <= i < |lines| =>
             seq(|lines[i]|, j requires 0 <= j < |lines[i]| => TileOf(lines[i][j]).value)))
    else None
  }

  /** The start after scanning the first characters of row `i`: the last
      'S' among them, or `before`. */
  function StartInRow(line: string, i: int, before: Cell): Cell
  {
    if line == [] then before
    else if line[|line| - 1] == 'S' then (i, |line| - 1)
    else StartInRow(line[..|line| - 1], i, before)
  }

  /** The start after scanning whole rows: the last 'S' in reading order,
      (0, 0) when there is none. */
  function StartOf(lines: seq<string>): Cell
  {
    if lines == [] then (0, 0)
    else StartInRow(lines[|lines| - 1], |lines| - 1, StartOf(lines[..|lines| - 1]))
  }

  /** What `parse_input` returns for the lines of the input. */
  function Parsed(lines: seq<string>): Option<(Cell, Grid)>
  {
    match GridOf(lines)
    case None => None
    case Some(g) => Some((StartOf(lines), g))
  }

  /** `parse_input`: the nested loops pushing tiles and remembering where an
      'S' was seen; the inner loop is `ParseRow`. */
  method ParseInput(input: string) returns (r: Option<(Cell, Grid)>)
    ensures r == Parsed(Lines(input))
  {
    var lines := Lines(input);
    var grid: Grid := [];
    var start: Cell := (0, 0);
    for i := 0 to |lines|
      invariant |grid| == i && forall k :: 0 <= k < i ==> RowOf(lines[k]) == Some(grid[k])
      invariant start == StartOf(lines[..i])
    {
      var line;
      line, start := ParseRow(lines[i], i, start);
      if line.None? {
        RowPanics(lines, i);
        return None;
      }
      assert lines[..i + 1][..i] == lines[..i];
      grid := grid + [line.value];
    }
    assert lines[..|lines|] == lines;
    RowsMakeGrid(lines, grid);
    return Some((start, grid));
  }

  /** The inner loop of `parse_input` over the characters of row `i`. */
  method ParseRow(text: string, i: int, before: Cell) returns (r: Option<seq<Tile>>, start: Cell)
    ensures r == RowOf(text)
    ensures r.Some? ==> start == StartInRow(text, i, before)
  {
    var line: seq<Tile> := [];
    start := before;
    for j := 0 to |text|
      invariant RowOf(text[..j]) == Some(line)
      invariant start == StartInRow(text[..j], i, before)
    {
      assert text[..j + 1][..j] == text[..j];
      var t := TileOf(text[j]);
      if t.None? {
        RowStops(text, j + 1);
        return None, start;
      }
      if text[j] == 'S' {
        start := (i, j);
      }
      line := line + [t.value];
    }
    assert text[..|text|] == text;
    return Some(line), start;
  }

  /** One line's tiles, None when a character panics. */
  function RowOf(line: string): (r: Option<seq<Tile>>)
    ensures r.Some? <==> forall j :: 0 <= j < |line| ==> Valid(line[j])
    ensures r.Some? ==> |r.value| == |line| && forall j :: 0 <= j < |line| ==> r.value[j] == TileOf(line[j]).value
  {
    if line == [] then Some([])
    else match RowOf(line[..|line| - 1])
      case None => None
      case Some(ts) =>
        match TileOf(line[|line| - 1])
        case None => None
        case Some(t) => Some(ts + [t])
  }

  lemma {:induction false} RowStops(line: string, n: nat)
    requires n <= |line| && RowOf(line[..n]).None?
    ensures RowOf(line).None?
  {
    assert !Valid(line[..n][n - 1]) || exists j :: 0 <= j < n && !Valid(line[..n][j]);
  }

  lemma RowPanics(lines: seq<string>, i: nat)
    requires i < |lines| && RowOf(lines[i]).None?
    ensures Parsed(lines).None?
  {
  }

  lemma RowsMakeGrid(lines: seq<string>, grid: Grid)
    requires |grid| == |lines| && forall k :: 0 <= k < |lines| ==> RowOf(lines[k]) == Some(grid[k])
    ensures GridOf(lines) == Some(grid)
  {
    forall k | 0 <= k < |lines|
      ensures forall j :: 0 <= j < |lines[k]| ==> Valid(lines[k][j])
    {
      assert RowOf(lines[k]) == Some(grid[k]);
    }
    var gg := GridOf(lines).value;
    forall k | 0 <= k < |lines|
      ensures gg[k] == grid[k]
    {
      assert RowOf(lines[k]) == Some(grid[k]);
      assert forall j :: 0 <= j < |gg[k]| ==> gg[k][j] == grid[k][j];
    }
    assert gg == grid;
  }

  /** Without an 'S' in row `i`, the start carries over. */
  lemma {:induction false} StartInRowKeeps(line: string, i: int, before: Cell)
    requires 'S' !in line
    ensures StartInRow(line, i, before) == before
    decreases |line|
  {
    if line != [] {
      assert line[..|line| - 1] <= line;
      StartInRowKeeps(line[..|line| - 1], i, before);
    }
  }

  /** With an 'S' in the row, the start is the last 'S' of that row. */
  lemma {:induction false} StartInRowLast(line: string, i: int, before: Cell)
    requires 'S' in line
    ensures var (r, c) := StartInRow(line, i, before);
      r == i && 0 <= c < |line| && line[c] == 'S' && forall k :: c < k < |line| ==> line[k] != 'S'
    decreases |line|
  {
    if line[|line| - 1] != 'S' {
      var init := line[..|line| - 1];
      assert 'S' in init by {
        var k :| 0 <= k < |line| && line[k] == 'S';
        assert init[k] == 'S';
      }
      StartInRowLast(init, i, before);
    }
  }

  /** The start is the last 'S' in reading order, or (0, 0) without one. */
  lemma {:induction false} StartIsLastS(lines: seq<string>)
    ensures (forall i :: 0 <= i < |lines| ==> 'S' !in lines[i]) ==> StartOf(lines) == (0, 0)
    ensures (exists i :: 0 <= i < |lines| && 'S' in lines[i]) ==>
      var (r, c) := StartOf(lines);
      0 <= r < |lines| && 0 <= c < |lines[r]| && lines[r][c] == 'S' &&
      (forall k :: c < k < |lines[r]| ==> lines[r][k] != 'S') &&
      (forall i :: r < i < |lines| ==> 'S' !in lines[i])
    decreases |lines|
  {
    if lines != [] {
      var init := lines[..|lines| - 1];
      var last := lines[|lines| - 1];
      StartIsLastS(init);
      assert forall i :: 0 <= i < |init| ==> init[i] == lines[i];
      if 'S' in last {
        StartInRowLast(last, |lines| - 1, StartOf(init));
      } else {
        StartInRowKeeps(last, |lines| - 1, StartOf(init));
      }
    }
  }

  /** When there is an 'S', the start is a plot of the parsed grid. */
  lemma StartIsPlot(lines: seq<string>)
    requires Parsed(lines).Some? && exists i :: 0 <= i < |lines| && 'S' in lines[i]
    ensures Plot(Parsed(lines).value.1, Parsed(lines).value.0)
  {
    StartIsLastS(lines);
  }

  // ---------------------------------------------------------------------
  // Reachable plots

  /** An in-grid plot; `grid.get(r).and_then(|row| row.get(c))` is a plot. */
  predicate Plot(g: Grid, c: Cell)
  {
    0 <= c.0 < |g| && 0 <= c.1 < |g[c.0]| && g[c.0][c.1] == Empty
  }

  /** The cells reachable in exactly `steps` single steps, in the order the
      source tries the neighbours: row + 1, column + 1, row - 1, column - 1. */
  function Reach(g: Grid, from: Cell, steps: nat): set<Cell>
    decreases steps
  {
    if !Plot(g, from) then {}
    else if steps == 0 then {from}
    else
      Reach(g, (from.0 + 1, from.1), steps - 1) + Reach(g, (from.0, from.1 + 1), steps - 1) +
      Reach(g, (from.0 - 1, from.1), steps - 1) + Reach(g, (from.0, from.1 - 1), steps - 1)
  }

  /** Every reachable cell is a plot, at most `steps` away and an even
      number of steps short of it (each step changes the parity). */
  lemma {:induction false} ReachPlot(g: Grid, from: Cell, steps: nat, c: Cell)
    requires c in Reach(g, from, steps)
    ensures Plot(g, c) && Abs(c.0 - from.0) + Abs(c.1 - from.1) <= steps
    ensures (steps - Abs(c.0 - from.0) - Abs(c.1 - from.1)) % 2 == 0
    decreases steps
  {
    if steps > 0 {
      var n: Cell;
      if c in Reach(g, (from.0 + 1, from.1), steps - 1) {
        n := (from.0 + 1, from.1);
      } else if c in Reach(g, (from.0, from.1 + 1), steps - 1) {
        n := (from.0, from.1 + 1);
      } else if c in Reach(g, (from.0 - 1, from.1), steps - 1) {
        n := (from.0 - 1, from.1);
      } else {
        n := (from.0, from.1 - 1);
      }
      ReachPlot(g, n, steps - 1, c);
      OneStepParity(from, n, c, steps);
    }
  }

  /** A cell `n` one step from `from`, and `c` reached from `n` in `steps - 1`. */
  lemma OneStepParity(from: Cell, n: Cell, c: Cell, steps: nat)
    requires steps > 0 && Abs(n.0 - from.0) + Abs(n.1 - from.1) == 1
    requires Abs(c.0 - n.0) + Abs(c.1 - n.1) <= steps - 1
    requires (steps - 1 - Abs(c.0 - n.0) - Abs(c.1 - n.1)) % 2 == 0
    ensures Abs(c.0 - from.0) + Abs(c.1 - from.1) <= steps
    ensures (steps - Abs(c.0 - from.0) - Abs(c.1 - from.1)) % 2 == 0
  {
  }

  /** The walk back and forth: a plot next to the start is reachable in one
      step, and the start again in two. */
  lemma BackAndForth(g: Grid, from: Cell, n: Cell)
    requires Plot(g, from) && Plot(g, n)
    requires n in {(from.0 + 1, from.1), (from.0, from.1 + 1), (from.0 - 1, from.1), (from.0, from.1 - 1)}
    ensures n in Reach(g, from, 1)
    ensures from in Reach(g, from, 2)
  {
    var back := (from.0 - (n.0 - from.0), from.1 - (n.1 - from.1));
    assert from == (n.0 + 1, n.1) || from == (n.0, n.1 + 1) || from == (n.0 - 1, n.1) || from == (n.0, n.1 - 1);
    assert from in Reach(g, n, 1);
  }

  /** Every cache entry holds the set it stands for. */
  ghost predicate Memo(g: Grid, cache: map<(Cell, nat), set<Cell>>)
  {
    forall k :: k in cache ==> cache[k] == Reach(g, k.0, k.1)
  }

  /** `reachable_after_steps`: the recursion with its cache; the cache stays
      faithful, keeps what it had, and the answer is the reachable set. */
  method ReachableAfterSteps(cache: map<(Cell, nat), set<Cell>>, g: Grid, from: Cell, steps: nat)
    returns (res: set<Cell>, cache': map<(Cell, nat), set<Cell>>)
    requires Memo(g, cache)
    ensures res == Reach(g, from, steps)
    ensures Memo(g, cache') && cache.Keys <= cache'.Keys
    decreases steps, 1
  {
    if !Plot(g, from) {
      return {}, cache;
    }
    if steps == 0 {
      return {from}, cache;
    }
    if (from, steps) in cache {
      return cache[(from, steps)], cache;
    }
    var north := (from.0 + 1, from.1);
    var east := (from.0, from.1 + 1);
    var south := (from.0 - 1, from.1);
    var west := (from.0, from.1 - 1);
    res, cache' := ReachableAfterSteps(cache, g, north, steps - 1);
    res, cache' := Extend(cache', g, res, east, steps - 1);
    res, cache' := Extend(cache', g, res, south, steps - 1);
    res, cache' := Extend(cache', g, res, west, steps - 1);
    cache' := cache'[(from, steps) := res];
  }

  /** `res.extend(reachable_after_steps(cache, grid, n, steps))`. */
  method Extend(cache: map<(Cell, nat), set<Cell>>, g: Grid, acc: set<Cell>, n: Cell, steps: nat)
    returns (res: set<Cell>, cache': map<(Cell, nat), set<Cell>>)
    requires Memo(g, cache)
    ensures res == acc + Reach(g, n, steps)
    ensures Memo(g, cache') && cache.Keys <= cache'.Keys
    decreases steps + 1, 0
  {
    var part;
    part, cache' := ReachableAfterSteps(cache, g, n, steps);
    res := acc + part;
  }

  /** `part_1`: the number of plots reachable in exactly `steps` steps,
      starting from an empty cache. */
  method Part1(g: Grid, from: Cell, steps: nat) returns (n: nat)
    ensures n == |Reach(g, from, steps)|
  {
    var res, _ := ReachableAfterSteps(map[], g, from, steps);
    n := |res|;
  }

  // ---------------------------------------------------------------------
  // The unsigned neighbours at the top and left edges

  /** `reachable_after_steps` as written in a build with overflow checks:
      the row above and the column to the left are computed as
      `from_r - 1` and `from_c - 1` on `usize` before any recursion, so a
      plot in row 0 or column 0 with steps left panics (None). */
  function ReachChecked(g: Grid, from: Cell, steps: nat): (r: Option<set<Cell>>)
    requires from.0 >= 0 && from.1 >= 0
    ensures r.Some? ==> r.value == Reach(g, from, steps)
    decreases steps
  {
    if !Plot(g, from) then Some({})
    else if steps == 0 then Some({from})
    else if from.0 == 0 || from.1 == 0 then None
    else
      var a := ReachChecked(g, (from.0 + 1, from.1), steps - 1);
      var b := ReachChecked(g, (from.0, from.1 + 1), steps - 1);
      var c := ReachChecked(g, (from.0 - 1, from.1), steps - 1);
      var d := ReachChecked(g, (from.0, from.1 - 1), steps - 1);
      if a.None? || b.None? || c.None? || d.None? then None
      else Some(a.value + b.value + c.value + d.value)
  }

  /** A single plot with one step to take: the checked build panics, while
      the intended answer is that nothing is reachable. */
  lemma CornerPanics()
    ensures ReachChecked([[Empty]], (0, 0), 1).None?
    ensures Reach([[Empty]], (0, 0), 1) == {}
  {
    var g := [[Empty]];
    assert !Plot(g, (1, 0)) && !Plot(g, (0, 1)) && !Plot(g, (-1, 0)) && !Plot(g, (0, -1));
  }

  /** Away from the top and left edges the checked build agrees. */
  lemma {:induction false} InteriorAgrees(g: Grid, from: Cell, steps: nat)
    requires from.0 >= steps && from.1 >= steps
    ensures ReachChecked(g, from, steps) == Some(Reach(g, from, steps))
    decreases steps
  {
    if Plot(g, from) && steps > 0 {
      InteriorAgrees(g, (from.0 + 1, from.1), steps - 1);
      InteriorAgrees(g, (from.0, from.1 + 1), steps - 1);
      InteriorAgrees(g, (from.0 - 1, from.1), steps - 1);
      InteriorAgrees(g, (from.0, from.1 - 1), steps - 1);
    }
  }
}
