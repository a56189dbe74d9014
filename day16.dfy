/** Day 16: a beam of light entering a grid of mirrors ('/', '\') and
    splitters ('-', '|'), and the tiles it energizes. */
module Day16 {
  import opened Common
  import Day14

  /** The contraption, row by row; the same character grid as day 14's,
      parsed by `Day14.ParseGrid`. */
  type Grid = Day14.Grid

  /** A beam at row `y`, column `x`, heading (`dy`, `dx`). */
  datatype State = State(y: int, x: int, dy: int, dx: int)

  predicate Inside(g: Grid, y: int, x: int)
  {
    0 <= y < |g| && 0 <= x < Day14.Width(g)
  }

  /** One of the four directions of a beam. */
  predicate Unit(dy: int, dx: int)
  {
    Abs(dy) + Abs(dx) == 1
  }

  /** The five tiles a contraption is made of. */
  predicate Known(c: char)
  {
    c == '.' || c == '/' || c == '\\' || c == '-' || c == '|'
  }

  /** The beam one tile further, heading (`dy`, `dx`). */
  function Ahead(s: State, dy: int, dx: int): State
  {
    State(s.y + dy, s.x + dx, dy, dx)
  }

  /** The beams that leave the tile under `s`: straight on through '.' and
      through a splitter met edge-on, turned by a mirror, split both ways by
      a splitter met flat.  Any other tile sends nothing on. */
  function Successors(g: Grid, s: State): (r: seq<State>)
    requires Day14.IsGrid(g) && Inside(g, s.y, s.x)
    ensures |r| <= 2
    ensures Unit(s.dy, s.dx) ==> forall i :: 0 <= i < |r| ==> Unit(r[i].dy, r[i].dx)
    ensures !Known(g[s.y][s.x]) <==> r == []
  {
    var c := g[s.y][s.x];
    if c == '.' then [Ahead(s, s.dy, s.dx)]
    else if c == '/' then [Ahead(s, -s.dx, -s.dy)]
    else if c == '\\' then [Ahead(s, s.dx, s.dy)]
    else if c == '-' then
      if s.dx != 0 then [Ahead(s, s.dy, s.dx)] else [Ahead(s, 0, -1), Ahead(s, 0, 1)]
    else if c == '|' then
      if s.dy != 0 then [Ahead(s, s.dy, s.dx)] else [Ahead(s, 1, 0), Ahead(s, -1, 0)]
    else []
  }

  /** A beam on a tile that is none of the five: the source panics there. */
  predicate Bad(g: Grid, s: State)
    requires Day14.IsGrid(g)
  {
    Inside(g, s.y, s.x) && !Known(g[s.y][s.x])
  }

  // ---------------------------------------------------------------------
  // The energized beams, as a fixpoint

  /** Every beam state there can be in the grid. */
  function Universe(g: Grid): (u: set<State>)
    ensures forall s :: s in u ==> Inside(g, s.y, s.x) && Unit(s.dy, s.dx)
  {
    set y, x, dy, dx | 0 <= y < |g| && 0 <= x < Day14.Width(g) && -1 <= dy <= 1 && -1 <= dx <= 1
      && Unit(dy, dx) :: State(y, x, dy, dx)
  }

  lemma InUniverse(g: Grid, s: State)
    requires Inside(g, s.y, s.x) && Unit(s.dy, s.dx)
    ensures s in Universe(g)
  {
    assert s == State(s.y, s.x, s.dy, s.dx);
  }

  /** A set of beams that holds every beam leaving each of its own beams
      and staying in the grid. */
  ghost predicate Closed(g: Grid, C: set<State>)
    requires Day14.IsGrid(g)
  {
    forall s, t :: s in C && Inside(g, s.y, s.x) && t in Successors(g, s) && Inside(g, t.y, t.x) ==> t in C
  }

  /** `S` and the in-grid beams leaving it. */
  function Grow(g: Grid, S: set<State>): (r: set<State>)
    requires Day14.IsGrid(g)
  {
    S + set s, t | s in S && Inside(g, s.y, s.x) && t in Successors(g, s) && Inside(g, t.y, t.x) :: t
  }

  lemma GrowHas(g: Grid, S: set<State>, s: State, t: State)
    requires Day14.IsGrid(g) && s in S && Inside(g, s.y, s.x)
    requires t in Successors(g, s) && Inside(g, t.y, t.x)
    ensures t in Grow(g, S)
  {
  }

  lemma GrowWithin(g: Grid, S: set<State>)
    requires Day14.IsGrid(g) && S <= Universe(g)
    ensures S <= Grow(g, S) <= Universe(g)
  {
    forall t | t in Grow(g, S)
      ensures t in Universe(g)
    {
      if t !in S {
        var s :| s in S && Inside(g, s.y, s.x) && t in Successors(g, s) && Inside(g, t.y, t.x);
        InUniverse(g, t);
      }
    }
  }

  /** The least closed set holding `S`: grow until nothing changes. */
  function Lit(g: Grid, S: set<State>): (r: set<State>)
    requires Day14.IsGrid(g) && S <= Universe(g)
    ensures S <= r <= Universe(g)
    decreases |Universe(g) - S|
  {
    GrowWithin(g, S);
    var S' := Grow(g, S);
    if S' == S then S
    else
      SmallerRest(Universe(g), S, S');
      Lit(g, S')
  }

  /** What `Lit` returns is closed. */
  lemma {:induction false} LitClosed(g: Grid, S: set<State>)
    requires Day14.IsGrid(g) && S <= Universe(g)
    ensures Closed(g, Lit(g, S))
    decreases |Universe(g) - S|
  {
    GrowWithin(g, S);
    var S' := Grow(g, S);
    if S' == S {
      forall s, t | s in S && Inside(g, s.y, s.x) && t in Successors(g, s) && Inside(g, t.y, t.x)
        ensures t in S
      {
        GrowHas(g, S, s, t);
      }
    } else {
      SmallerRest(Universe(g), S, S');
      LitClosed(g, S');
    }
  }

  /** ... and lies inside every closed set holding `S`. */
  lemma {:induction false} LitLeast(g: Grid, S: set<State>, C: set<State>)
    requires Day14.IsGrid(g) && S <= Universe(g) && S <= C && Closed(g, C)
    ensures Lit(g, S) <= C
    decreases |Universe(g) - S|
  {
    GrowWithin(g, S);
    var S' := Grow(g, S);
    if S' != S {
      SmallerRest(Universe(g), S, S');
      LitLeast(g, S', C);
    }
  }

  /** The beams a start energizes: none when it starts off the grid. */
  function StartSet(g: Grid, s: State): (r: set<State>)
    requires Unit(s.dy, s.dx)
    ensures r <= Universe(g)
  {
    if Inside(g, s.y, s.x) then InUniverse(g, s); {s} else {}
  }

  /** The tiles of a set of beams. */
  function Positions(S: set<State>): set<(int, int)>
  {
    set s | s in S :: (s.y, s.x)
  }

  predicate NoBad(g: Grid, S: set<State>)
    requires Day14.IsGrid(g)
  {
    forall s :: s in S ==> !Bad(g, s)
  }

  /** The number of tiles energized from `s`, or None when the light reaches
      a tile that is none of the five. */
  function Energized(g: Grid, s: State): Option<nat>
    requires Day14.IsGrid(g) && Unit(s.dy, s.dx)
  {
    var lit := Lit(g, StartSet(g, s));
    if NoBad(g, lit) then Some(|Positions(lit)|) else None
  }

  // ---------------------------------------------------------------------
  // Set sizes

  lemma {:induction false} SubsetSize<T>(a: set<T>, b: set<T>)
    requires a <= b
    ensures |a| <= |b|
    decreases |a|
  {
    if a != {} {
      var x :| x in a;
      SubsetSize(a - {x}, b - {x});
    }
  }

  /** Taking more out of `u` leaves less. */
  lemma SmallerRest<T>(u: set<T>, a: set<T>, b: set<T>)
    requires a < b <= u
    ensures |u - b| < |u - a|
  {
    var x :| x in b && x !in a;
    SubsetSize(u - b, u - a - {x});
  }

  // ---------------------------------------------------------------------
  // next_beam

  /** Every beam added beyond `P` sits on one of the five tiles and has the
      beams leaving it in `r`. */
  ghost predicate SettledBeyond(g: Grid, P: set<State>, r: set<State>)
    requires Day14.IsGrid(g)
  {
    forall u :: u in r && u !in P ==>
      Inside(g, u.y, u.x) && Known(g[u.y][u.x]) &&
      forall t :: t in Successors(g, u) && Inside(g, t.y, t.x) ==> t in r
  }

  /** Every beam added beyond `P` belongs to each closed set holding `s`. */
  ghost predicate Reached(g: Grid, P: set<State>, r: set<State>, s: State)
    requires Day14.IsGrid(g)
  {
    forall C :: Closed(g, C) && s in C ==> r - P <= C
  }

  /** `next_beam`: follow the beam from `s`, recording in the path each
      in-grid beam state the first time it is met, and stopping on a state
      already recorded or off the grid.  `ok` is false when the light met a
      tile that is none of the five, where the source panics. */
  method NextBeam(g: Grid, path: set<State>, s: State) returns (r: set<State>, ok: bool)
    requires Day14.IsGrid(g) && Unit(s.dy, s.dx) && path <= Universe(g)
    ensures path <= r <= Universe(g)
    ensures !Inside(g, s.y, s.x) || s in path ==> r == path && ok
    ensures Inside(g, s.y, s.x) ==> s in r
    ensures ok ==> SettledBeyond(g, path, r)
    ensures !ok ==> exists u :: u in r && u !in path && Bad(g, u)
    ensures Reached(g, path, r, s)
    decreases |Universe(g) - path|
  {
    if s.y < 0 || s.x < 0 {
      return path, true;
    }
    if s in path {
      return path, true;
    }
    if !Inside(g, s.y, s.x) {
      return path, true;
    }
    InUniverse(g, s);
    r := path + {s};
    SmallerRest(Universe(g), path, r);
    if !Known(g[s.y][s.x]) {
      assert Bad(g, s);
      return r, false;
    }
    var next := Successors(g, s);
    var r1, ok1 := NextBeam(g, r, next[0]);
    if !ok1 || |next| == 1 {
      FirstOnly(g, path, s, r, r1, ok1);
      return r1, ok1;
    }
    SmallerRest(Universe(g), path, r1);
    var r2, ok2 := NextBeam(g, r1, next[1]);
    Both(g, path, s, r, r1, r2, ok2);
    return r2, ok2;
  }

  /** The beams the first leaving beam added are all that `s` adds when
      there is one leaving beam, or when the light stopped there. */
  lemma FirstOnly(g: Grid, path: set<State>, s: State, r: set<State>, r1: set<State>, ok1: bool)
    requires Day14.IsGrid(g) && Inside(g, s.y, s.x) && Known(g[s.y][s.x]) && s !in path
    requires r == path + {s} && r <= r1
    requires var next := Successors(g, s);
      !ok1 || |next| == 1
    requires var t := Successors(g, s)[0];
      (!Inside(g, t.y, t.x) || t in r ==> r1 == r && ok1) &&
      (Inside(g, t.y, t.x) ==> t in r1) &&
      (ok1 ==> SettledBeyond(g, r, r1)) &&
      (!ok1 ==> exists u :: u in r1 && u !in r && Bad(g, u)) &&
      Reached(g, r, r1, t)
    ensures ok1 ==> SettledBeyond(g, path, r1)
    ensures !ok1 ==> exists u :: u in r1 && u !in path && Bad(g, u)
    ensures Reached(g, path, r1, s)
  {
    var t := Successors(g, s)[0];
    forall C | Closed(g, C) && s in C
      ensures r1 - path <= C
    {
      if Inside(g, t.y, t.x) {
        assert t in C;
      }
    }
  }

  /** Both leaving beams of a splitter met flat, one after the other. */
  lemma Both(g: Grid, path: set<State>, s: State, r: set<State>, r1: set<State>, r2: set<State>,
             ok2: bool)
    requires Day14.IsGrid(g) && Inside(g, s.y, s.x) && Known(g[s.y][s.x]) && s !in path
    requires r == path + {s} && r <= r1 <= r2 && |Successors(g, s)| == 2
    requires var t := Successors(g, s)[0];
      (!Inside(g, t.y, t.x) || t in r ==> r1 == r) &&
      (Inside(g, t.y, t.x) ==> t in r1) &&
      SettledBeyond(g, r, r1) && Reached(g, r, r1, t)
    requires var t := Successors(g, s)[1];
      (!Inside(g, t.y, t.x) || t in r1 ==> r2 == r1 && ok2) &&
      (Inside(g, t.y, t.x) ==> t in r2) &&
      (ok2 ==> SettledBeyond(g, r1, r2)) &&
      (!ok2 ==> exists u :: u in r2 && u !in r1 && Bad(g, u)) &&
      Reached(g, r1, r2, t)
    ensures ok2 ==> SettledBeyond(g, path, r2)
    ensures !ok2 ==> exists u :: u in r2 && u !in path && Bad(g, u)
    ensures Reached(g, path, r2, s)
  {
    var t0, t1 := Successors(g, s)[0], Successors(g, s)[1];
    forall C | Closed(g, C) && s in C
      ensures r2 - path <= C
    {
      if Inside(g, t0.y, t0.x) {
        assert t0 in C;
      }
      if Inside(g, t1.y, t1.x) {
        assert t1 in C;
      }
    }
  }

  /** From an empty path, `next_beam` records exactly the least closed set
      holding the start. */
  lemma BeamIsLit(g: Grid, s: State, r: set<State>)
    requires Day14.IsGrid(g) && Unit(s.dy, s.dx) && r <= Universe(g)
    requires Inside(g, s.y, s.x) ==> s in r
    requires !Inside(g, s.y, s.x) ==> r == {}
    requires SettledBeyond(g, {}, r) && Reached(g, {}, r, s)
    ensures r == Lit(g, StartSet(g, s))
  {
    var S := StartSet(g, s);
    if Inside(g, s.y, s.x) {
      assert Closed(g, r);
      LitLeast(g, S, r);
      LitClosed(g, S);
      assert r - {} == r;
    } else {
      LitLeast(g, S, r);
    }
  }

  /** A tile that is none of the five met on the way is one the light
      reaches. */
  lemma BeamPanics(g: Grid, s: State, r: set<State>)
    requires Day14.IsGrid(g) && Unit(s.dy, s.dx) && Inside(g, s.y, s.x)
    requires exists u :: u in r && u !in {} && Bad(g, u)
    requires Reached(g, {}, r, s)
    ensures Energized(g, s).None?
  {
    var S := StartSet(g, s);
    var u :| u in r && Bad(g, u);
    LitClosed(g, S);
    assert r - {} <= Lit(g, S);
  }

  /** Without a tile that is none of the five, the path's tiles are the
      energized ones. */
  lemma BeamCounts(g: Grid, s: State, r: set<State>)
    requires Day14.IsGrid(g) && Unit(s.dy, s.dx) && r <= Universe(g)
    requires Inside(g, s.y, s.x) ==> s in r
    requires !Inside(g, s.y, s.x) ==> r == {}
    requires SettledBeyond(g, {}, r) && Reached(g, {}, r, s)
    ensures Energized(g, s) == Some(|Positions(r)|)
  {
    BeamIsLit(g, s, r);
    assert NoBad(g, r);
  }

  /** `count_energized_tiles`: the distinct tiles of the recorded path. */
  method CountEnergized(g: Grid, start: State) returns (count: Option<nat>)
    requires Day14.IsGrid(g) && Unit(start.dy, start.dx)
    ensures count == Energized(g, start)
  {
    var path, ok := NextBeam(g, {}, start);
    if !ok {
      BeamPanics(g, start, path);
      return None;
    }
    BeamCounts(g, start, path);
    var tiles := set u | u in path :: (u.y, u.x);
    assert tiles == Positions(path);
    return Some(|tiles|);
  }

  /** Light that reaches a beam also lights everything that beam lights. */
  lemma LitDownstream(g: Grid, s: State, t: State)
    requires Day14.IsGrid(g) && Unit(s.dy, s.dx) && Unit(t.dy, t.dx)
    requires t in Lit(g, StartSet(g, s))
    ensures Lit(g, StartSet(g, t)) <= Lit(g, StartSet(g, s))
  {
    LitClosed(g, StartSet(g, s));
    LitLeast(g, StartSet(g, t), Lit(g, StartSet(g, s)));
  }

  /** A beam starting off the grid lights nothing. */
  lemma OffGridLightsNothing(g: Grid, s: State)
    requires Day14.IsGrid(g) && Unit(s.dy, s.dx) && !Inside(g, s.y, s.x)
    ensures Energized(g, s) == Some(0)
  {
    assert Grow(g, {}) == {};
    assert Positions({}) == {};
  }

  // ---------------------------------------------------------------------
  // Part 2

  /** From the left and from the right edge of each of the first `n` rows. */
  function RowStarts(g: Grid, n: nat): (r: seq<State>)
    ensures |r| == 2 * n && forall i :: 0 <= i < |r| ==> Unit(r[i].dy, r[i].dx)
  {
    if n == 0 then []
    else RowStarts(g, n - 1) + [State(n - 1, 0, 0, 1), State(n - 1, Day14.Width(g) - 1, 0, -1)]
  }

  /** From the top and from the bottom edge of each of the first `n` columns. */
  function ColumnStarts(g: Grid, n: nat): (r: seq<State>)
    ensures |r| == 2 * n && forall i :: 0 <= i < |r| ==> Unit(r[i].dy, r[i].dx)
  {
    if n == 0 then []
    else ColumnStarts(g, n - 1) + [State(0, n - 1, 1, 0), State(|g| - 1, n - 1, -1, 0)]
  }

  /** Every beam entering from an edge, in the order they are tried. */
  function EdgeStarts(g: Grid): (r: seq<State>)
    ensures forall i :: 0 <= i < |r| ==> Unit(r[i].dy, r[i].dx)
  {
    RowStarts(g, |g|) + ColumnStarts(g, Day14.Width(g))
  }

  /** The largest of `cs` (0 for none), or None when any of them is None. */
  function MaxOf(cs: seq<Option<nat>>): Option<nat>
  {
    if cs == [] then Some(0)
    else
      var b, e := MaxOf(cs[..|cs| - 1]), cs[|cs| - 1];
      if b.None? || e.None? then None
      else if b.value < e.value then e
      else b
  }

  /** `r` fails exactly when some count does, and is otherwise the largest
      count: none is larger, and one equals it unless it is 0. */
  ghost predicate IsMax(cs: seq<Option<nat>>, r: Option<nat>)
  {
    (r.Some? <==> forall i :: 0 <= i < |cs| ==> cs[i].Some?) &&
    (r.Some? ==> forall i :: 0 <= i < |cs| ==> cs[i].value <= r.value) &&
    (r.Some? && r.value != 0 ==> exists i :: 0 <= i < |cs| && cs[i] == r)
  }

  lemma {:induction false} MaxOfIsMax(cs: seq<Option<nat>>)
    ensures IsMax(cs, MaxOf(cs))
    decreases |cs|
  {
    if cs != [] {
      var front := cs[..|cs| - 1];
      assert forall i :: 0 <= i < |front| ==> front[i] == cs[i];
      MaxOfIsMax(front);
      var b, e := MaxOf(front), cs[|cs| - 1];
      if b.Some? && e.Some? && b.value < e.value {
        assert cs[|cs| - 1] == MaxOf(cs);
      }
    }
  }

  /** A failing front fails the whole list. */
  lemma MaxOfFails(cs: seq<Option<nat>>, k: nat)
    requires k <= |cs| && MaxOf(cs[..k]).None?
    ensures MaxOf(cs).None?
  {
    MaxOfIsMax(cs[..k]);
    MaxOfIsMax(cs);
    var i :| 0 <= i < k && cs[..k][i].None?;
    assert cs[i].None?;
  }

  /** The count for each start. */
  function Counts(g: Grid, starts: seq<State>): (cs: seq<Option<nat>>)
    requires Day14.IsGrid(g) && forall i :: 0 <= i < |starts| ==> Unit(starts[i].dy, starts[i].dx)
    ensures |cs| == |starts| && forall i :: 0 <= i < |starts| ==> cs[i] == Energized(g, starts[i])
  {
    seq(|starts|, i requires 0 <= i < |starts| => Energized(g, starts[i]))
  }

  lemma {:induction false} RowStartsAt(g: Grid, n: nat, i: nat)
    requires i < n
    ensures RowStarts(g, n)[2 * i] == State(i, 0, 0, 1)
    ensures RowStarts(g, n)[2 * i + 1] == State(i, Day14.Width(g) - 1, 0, -1)
    decreases n
  {
    if i < n - 1 {
      RowStartsAt(g, n - 1, i);
    }
  }

  lemma {:induction false} ColumnStartsAt(g: Grid, n: nat, i: nat)
    requires i < n
    ensures ColumnStarts(g, n)[2 * i] == State(0, i, 1, 0)
    ensures ColumnStarts(g, n)[2 * i + 1] == State(|g| - 1, i, -1, 0)
    decreases n
  {
    if i < n - 1 {
      ColumnStartsAt(g, n - 1, i);
    }
  }

  /** `cs` holds the count of the `k`-th edge start at `k`. */
  ghost predicate TallyAt(g: Grid, cs: seq<Option<nat>>, k: int)
    requires Day14.IsGrid(g)
  {
    var starts := EdgeStarts(g);
    |cs| == |starts| && 0 <= k < |cs| && cs[k] == Energized(g, starts[k])
  }

  /** `cs` holds the count of every edge start. */
  ghost predicate Tally(g: Grid, cs: seq<Option<nat>>)
    requires Day14.IsGrid(g)
  {
    |cs| == 2 * |g| + 2 * Day14.Width(g) && forall k :: 0 <= k < |cs| ==> TallyAt(g, cs, k)
  }

  lemma CountsTally(g: Grid)
    requires Day14.IsGrid(g)
    ensures Tally(g, Counts(g, EdgeStarts(g)))
  {
  }

  lemma TallyGives(g: Grid, cs: seq<Option<nat>>, k: nat, s: State)
    requires Day14.IsGrid(g) && Tally(g, cs) && k < |cs| && EdgeStarts(g)[k] == s
    ensures Unit(s.dy, s.dx) && cs[k] == Energized(g, s)
  {
    assert TallyAt(g, cs, k);
  }

  /** The two starts of row `i` in part 2. */
  lemma EdgeRow(g: Grid, i: nat)
    requires i < |g|
    ensures EdgeStarts(g)[2 * i] == State(i, 0, 0, 1)
    ensures EdgeStarts(g)[2 * i + 1] == State(i, Day14.Width(g) - 1, 0, -1)
  {
    RowStartsAt(g, |g|, i);
  }

  /** The two starts of column `i` in part 2. */
  lemma EdgeColumn(g: Grid, i: nat)
    requires i < Day14.Width(g)
    ensures EdgeStarts(g)[2 * |g| + 2 * i] == State(0, i, 1, 0)
    ensures EdgeStarts(g)[2 * |g| + 2 * i + 1] == State(|g| - 1, i, -1, 0)
  {
    ColumnStartsAt(g, Day14.Width(g), i);
    var rows := RowStarts(g, |g|);
    assert |rows| == 2 * |g|;
  }

  /** One count of `main`'s part 2 folded into the running maximum. */
  method TryStart(g: Grid, s: State, ghost cs: seq<Option<nat>>, k: nat, best: nat)
    returns (c: Option<nat>)
    requires Day14.IsGrid(g) && Tally(g, cs)
    requires k < |cs| && EdgeStarts(g)[k] == s && MaxOf(cs[..k]) == Some(best)
    ensures c == MaxOf(cs[..k + 1])
  {
    TallyGives(g, cs, k, s);
    var e := CountEnergized(g, s);
    assert cs[..k + 1][..k] == cs[..k];
    if e.None? {
      return None;
    }
    return Some(if best < e.value then e.value else best);
  }

  /** Part 2 of `main`: the best count over every beam entering from an
      edge, rows first (from the left, then from the right), then columns
      (from the top, then from the bottom); None when one of them makes the
      source panic. */
  method MaxEnergized(g: Grid) returns (r: Option<nat>)
    requires Day14.IsGrid(g)
    ensures r == MaxOf(Counts(g, EdgeStarts(g)))
  {
    ghost var cs := Counts(g, EdgeStarts(g));
    CountsTally(g);
    r := ScanRows(g, cs);
    if r.Some? {
      r := ScanColumns(g, cs, r.value);
    }
  }

  /** The loop of part 2 over the rows. */
  method ScanRows(g: Grid, ghost cs: seq<Option<nat>>) returns (r: Option<nat>)
    requires Day14.IsGrid(g) && Tally(g, cs)
    ensures r.Some? ==> r == MaxOf(cs[..2 * |g|])
    ensures r.None? ==> MaxOf(cs).None?
  {
    var h, w: int := |g|, Day14.Width(g);
    var best := 0;
    for i := 0 to h
      invariant MaxOf(cs[..2 * i]) == Some(best)
    {
      EdgeRow(g, i);
      var c := TryStart(g, State(i, 0, 0, 1), cs, 2 * i, best);
      if c.None? {
        MaxOfFails(cs, 2 * i + 1);
        return None;
      }
      best := c.value;
      c := TryStart(g, State(i, w - 1, 0, -1), cs, 2 * i + 1, best);
      if c.None? {
        MaxOfFails(cs, 2 * i + 2);
        return None;
      }
      best := c.value;
    }
    return Some(best);
  }

  /** The loop of part 2 over the columns, after the rows gave `best`. */
  method ScanColumns(g: Grid, ghost cs: seq<Option<nat>>, best: nat) returns (r: Option<nat>)
    requires Day14.IsGrid(g) && Tally(g, cs)
    requires MaxOf(cs[..2 * |g|]) == Some(best)
    ensures r == MaxOf(cs)
  {
    var h, w: int := |g|, Day14.Width(g);
    var m := best;
    for i := 0 to w
      invariant MaxOf(cs[..2 * h + 2 * i]) == Some(m)
    {
      EdgeColumn(g, i);
      var c := TryStart(g, State(0, i, 1, 0), cs, 2 * h + 2 * i, m);
      if c.None? {
        MaxOfFails(cs, 2 * h + 2 * i + 1);
        return None;
      }
      m := c.value;
      c := TryStart(g, State(h - 1, i, -1, 0), cs, 2 * h + 2 * i + 1, m);
      if c.None? {
        MaxOfFails(cs, 2 * h + 2 * i + 2);
        return None;
      }
      m := c.value;
    }
    assert cs[..|cs|] == cs;
    return Some(m);
  }
}
