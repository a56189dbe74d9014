/** Day 17: a search over a grid of heat-loss digits from the top-left to
    the bottom-right block, remembering the cheapest cost seen per block. */
module Day17 {
  import opened Common
  import Day14

  /** Heat loss per city block, row by row. */
  type Grid = seq<seq<int>>

  /** A block as (row, column). */
  type Cell = (int, int)

  /** A queued search state: the block reached, the walk to it and its cost. */
  datatype Entry = Entry(at: Cell, path: seq<Cell>, cost: int)

  /** `i32::MAX`, the cost kept when the goal is never reached. */
  const I32Max: int := 0x7fff_ffff

  ghost predicate IsGrid(g: Grid)
  {
    forall r :: 0 <= r < |g| ==> |g[r]| == |g[0]|
  }

  predicate Inside(g: Grid, c: Cell)
  {
    0 <= c.0 < |g| && 0 <= c.1 < |g[c.0]|
  }

  /** The bottom-right block. */
  function Goal(g: Grid): Cell
    requires g != []
  {
    (|g| - 1, |g[0]| - 1)
  }

  predicate Adjacent(a: Cell, b: Cell)
  {
    Abs(a.0 - b.0) + Abs(a.1 - b.1) == 1
  }

  /** The neighbours in the order they are tried: down, right, up, left. */
  function Neighbours(c: Cell): (r: seq<Cell>)
    ensures |r| == 4 && forall k :: 0 <= k < 4 ==> Adjacent(c, r[k])
    ensures forall k, l :: 0 <= k < l < 4 ==> r[k] != r[l]
  {
    [(c.0 + 1, c.1), (c.0, c.1 + 1), (c.0 - 1, c.1), (c.0, c.1 - 1)]
  }

  /** The position of `p` among the neighbours of `c`, 4 when it is none of them. */
  function Order(c: Cell, p: Cell): (r: nat)
    ensures r <= 4 && (r < 4 ==> Neighbours(c)[r] == p)
    ensures forall k :: 0 <= k < 4 && Neighbours(c)[k] == p ==> r == k
  {
    if p == (c.0 + 1, c.1) then 0
    else if p == (c.0, c.1 + 1) then 1
    else if p == (c.0 - 1, c.1) then 2
    else if p == (c.0, c.1 - 1) then 3
    else 4
  }

  /** A walk from the top-left block through the grid, one step at a time. */
  ghost predicate Walk(g: Grid, path: seq<Cell>)
  {
    path != [] && path[0] == (0, 0) &&
    (forall i :: 0 <= i < |path| ==> Inside(g, path[i])) &&
    (forall i :: 0 < i < |path| ==> Adjacent(path[i - 1], path[i]))
  }

  /** The heat lost along a path: the sum of its blocks, the start included. */
  function Cost(g: Grid, path: seq<Cell>): int
    requires forall i :: 0 <= i < |path| ==> Inside(g, path[i])
  {
    if path == [] then 0
    else
      var last := path[|path| - 1];
      assert Inside(g, path[|path| - 1]);
      Cost(g, path[..|path| - 1]) + g[last.0][last.1]
  }

  /** The path ends at the state's block and its cost is the heat along it. */
  ghost predicate Sound(g: Grid, e: Entry)
  {
    Walk(g, e.path) && e.path[|e.path| - 1] == e.at && e.cost == Cost(g, e.path)
  }

  /** Either the goal was never reached (no path, `i32::MAX`), or a sound
      walk to the goal costing less than `i32::MAX`. */
  ghost predicate Best(g: Grid, path: seq<Cell>, cost: int)
    requires g != []
  {
    (path == [] && cost == I32Max) || (cost < I32Max && Sound(g, Entry(Goal(g), path, cost)))
  }

  /** A walk one block longer. */
  lemma WalkStep(g: Grid, e: Entry, n: Cell)
    requires Sound(g, e) && Inside(g, n) && Adjacent(e.at, n)
    ensures Sound(g, Entry(n, e.path + [n], e.cost + g[n.0][n.1]))
  {
    var p := e.path + [n];
    assert p[..|p| - 1] == e.path;
    assert forall i :: 0 <= i < |e.path| ==> p[i] == e.path[i];
  }

  /** With digits as heat losses, a path loses between 0 and 9 per block. */
  lemma {:induction false} CostBounds(g: Grid, path: seq<Cell>)
    requires forall i :: 0 <= i < |path| ==> Inside(g, path[i])
    requires forall r, c :: 0 <= r < |g| && 0 <= c < |g[r]| ==> 0 <= g[r][c] <= 9
    ensures 0 <= Cost(g, path) <= 9 * |path|
    decreases |path|
  {
    if path != [] {
      CostBounds(g, path[..|path| - 1]);
    }
  }

  // ---------------------------------------------------------------------
  // The search

  /** `n` extends the walk of `e` by one block, and that block had no
      recorded cost or a strictly higher one. */
  ghost predicate Improves(g: Grid, e: Entry, visited: map<Cell, int>, n: Entry)
  {
    Sound(g, n) && Adjacent(e.at, n.at) && n.path == e.path + [n.at] &&
    (n.at in visited ==> n.cost < visited[n.at])
  }

  /** What the inner loop knows after trying the first `k` neighbours of
      `e`: the queue only grew, by improving extensions of `e` to those
      neighbours, whose costs are now recorded; recorded costs only fell. */
  ghost predicate Tried(g: Grid, e: Entry, visited: map<Cell, int>, queue: seq<Entry>,
                        visited': map<Cell, int>, queue': seq<Entry>, k: nat)
  {
    k <= 4 &&
    |queue| <= |queue'| <= |queue| + k && queue'[..|queue|] == queue &&
    (forall i :: |queue| <= i < |queue'| ==>
      Improves(g, e, visited, queue'[i]) && Order(e.at, queue'[i].at) < k &&
      queue'[i].at in visited' && visited'[queue'[i].at] == queue'[i].cost) &&
    (forall p :: p in visited ==> p in visited' && visited'[p] <= visited[p]) &&
    (forall p :: p in visited' && p !in visited ==> Order(e.at, p) < k && Inside(g, p))
  }

  /** Passing over the `k`-th neighbour. */
  lemma TrySkip(g: Grid, e: Entry, visited: map<Cell, int>, queue: seq<Entry>,
                visited': map<Cell, int>, queue': seq<Entry>, k: nat)
    requires k < 4 && Tried(g, e, visited, queue, visited', queue', k)
    ensures Tried(g, e, visited, queue, visited', queue', k + 1)
  {
  }

  /** Queueing the `k`-th neighbour with a cost below its recorded one. */
  lemma TryPush(g: Grid, e: Entry, visited: map<Cell, int>, queue: seq<Entry>,
                visited': map<Cell, int>, queue': seq<Entry>, k: nat, cost: int)
    requires k < 4 && Tried(g, e, visited, queue, visited', queue', k) && Sound(g, e)
    requires Inside(g, Neighbours(e.at)[k])
    requires cost == e.cost + g[Neighbours(e.at)[k].0][Neighbours(e.at)[k].1]
    requires Neighbours(e.at)[k] !in visited' || cost < visited'[Neighbours(e.at)[k]]
    ensures var n := Neighbours(e.at)[k];
      Tried(g, e, visited, queue, visited'[n := cost], queue' + [Entry(n, e.path + [n], cost)], k + 1)
  {
    var n := Neighbours(e.at)[k];
    WalkStep(g, e, n);
    var v := visited'[n := cost];
    var q := queue' + [Entry(n, e.path + [n], cost)];
    assert q[..|queue|] == queue by { assert q[..|queue'|] == queue'; }
    forall i | |queue| <= i < |q|
      ensures Improves(g, e, visited, q[i]) && Order(e.at, q[i].at) < k + 1
      ensures q[i].at in v && v[q[i].at] == q[i].cost
    {
      if i < |queue'| {
        assert q[i] == queue'[i];
        assert Order(e.at, q[i].at) < k;
      }
    }
  }

  /** The inner loop of `best_path` for the state `e`: each in-grid
      neighbour, down, right, up and left, is queued with the walk extended
      to it when its block has no recorded cost or the new cost is strictly
      lower, and the recorded cost becomes the new one. */
  method Expand(g: Grid, e: Entry, visited: map<Cell, int>, queue: seq<Entry>)
    returns (visited': map<Cell, int>, queue': seq<Entry>)
    requires Sound(g, e) && forall i :: 0 <= i < |queue| ==> Sound(g, queue[i])
    ensures |queue| <= |queue'| <= |queue| + 4 && queue'[..|queue|] == queue
    ensures forall i :: |queue| <= i < |queue'| ==>
      Improves(g, e, visited, queue'[i]) && queue'[i].at in visited' && visited'[queue'[i].at] == queue'[i].cost
    ensures forall i :: 0 <= i < |queue'| ==> Sound(g, queue'[i])
    ensures forall p :: p in visited ==> p in visited' && visited'[p] <= visited[p]
    ensures forall p :: p in visited' && p !in visited ==> Adjacent(e.at, p) && Inside(g, p)
  {
    var next := Neighbours(e.at);
    visited', queue' := visited, queue;
    for k := 0 to 4
      invariant Tried(g, e, visited, queue, visited', queue', k)
    {
      var n := next[k];
      var cost := if Inside(g, n) then e.cost + g[n.0][n.1] else 0;
      if Inside(g, n) && (n !in visited' || cost < visited'[n]) {
        TryPush(g, e, visited, queue, visited', queue', k, cost);
        visited' := visited'[n := cost];
        queue' := queue' + [Entry(n, e.path + [n], cost)];
      } else {
        TrySkip(g, e, visited, queue, visited', queue', k);
      }
    }
    TriedAll(g, e, visited, queue, visited', queue');
  }

  /** After all four neighbours, every queued state is sound and every newly
      recorded block is a neighbour of `e`. */
  lemma TriedAll(g: Grid, e: Entry, visited: map<Cell, int>, queue: seq<Entry>,
                 visited': map<Cell, int>, queue': seq<Entry>)
    requires Tried(g, e, visited, queue, visited', queue', 4)
    requires forall i :: 0 <= i < |queue| ==> Sound(g, queue[i])
    ensures forall i :: 0 <= i < |queue'| ==> Sound(g, queue'[i])
    ensures forall p :: p in visited' && p !in visited ==> Adjacent(e.at, p)
  {
    forall i | 0 <= i < |queue'|
      ensures Sound(g, queue'[i])
    {
      if i < |queue| {
        assert queue'[i] == queue'[..|queue|][i];
      }
    }
  }

  /** `best_path`: breadth-first from the top-left block, keeping the best
      walk to the goal.  None of the source's loop bound is modelled: the
      search stops with an error after `fuel` states; an empty grid makes
      the source panic. */
  method BestPath(g: Grid, fuel: nat) returns (r: Result<(seq<Cell>, int)>)
    requires IsGrid(g)
    ensures r.Err? ==> g == [] || g[0] == [] || r.msg == "out of fuel"
    ensures g == [] || g[0] == [] ==> r.Err?
    ensures r.Ok? ==> g != [] && Best(g, r.value.0, r.value.1)
  {
    if g == [] || g[0] == [] {
      return Err("empty grid");
    }
    var start := Entry((0, 0), [(0, 0)], g[0][0]);
    assert Sound(g, start) by {
      assert [(0, 0)][..0] == [];
    }
    var queue := [start];
    var visited := map[(0, 0) := g[0][0]];
    var best: seq<Cell> := [];
    var bestCost := I32Max;
    var steps := 0;
    while queue != []
      invariant steps <= fuel
      invariant forall i :: 0 <= i < |queue| ==> Sound(g, queue[i])
      invariant Best(g, best, bestCost)
      decreases fuel - steps
    {
      if steps == fuel {
        return Err("out of fuel");
      }
      steps := steps + 1;
      var e := queue[0];
      queue := queue[1..];
      if e.at == Goal(g) {
        if e.cost < bestCost {
          best, bestCost := e.path, e.cost;
        }
        continue;
      }
      visited, queue := Expand(g, e, visited, queue);
    }
    return Ok((best, bestCost));
  }

  // ---------------------------------------------------------------------
  // Input

  predicate IsDigit(c: char)
  {
    '0' <= c <= '9'
  }

  /** Each character parsed as a one-digit number; None when one is not a
      digit, where the source panics. */
  function DigitGrid(G: Day14.Grid): (r: Option<Grid>)
    ensures r.Some? <==> forall i, j :: 0 <= i < |G| && 0 <= j < |G[i]| ==> IsDigit(G[i][j])
    ensures r.Some? ==> |r.value| == |G|
    ensures r.Some? ==> forall i :: 0 <= i < |G| ==> |r.value[i]| == |G[i]|
    ensures r.Some? ==> forall i, j :: 0 <= i < |G| && 0 <= j < |G[i]| ==>
      r.value[i][j] == G[i][j] as int - '0' as int
  {
    if forall i, j :: 0 <= i < |G| && 0 <= j < |G[i]| ==> IsDigit(G[i][j])
    then Some(seq(|G|, i requires 0 <= i < |G| =>
                seq(|G[i]|, j requires 0 <= j < |G[i]| => G[i][j] as int - '0' as int)))
    else None
  }

  /** `parse_grid`: the lines cut into a rectangle of digits. */
  function ParseDigits(input: string): (r: Option<Grid>)
    ensures r.Some? ==> IsGrid(r.value) && r.value != []
    ensures r.Some? ==> forall i, j :: 0 <= i < |r.value| && 0 <= j < |r.value[i]| ==> 0 <= r.value[i][j] <= 9
  {
    var G := Day14.ParseGrid(input);
    if G.None? then None else DigitGrid(G.value)
  }
}
