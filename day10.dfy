/** Pipe maze (day10/src/main.rs).  A grid of pipe tiles holds one start
    tile; the pipes connected to it form a loop.  Part one is the largest
    breadth-first distance from the start, part two counts the tiles the
    loop encloses by summing vertical crossings along each row. */
module Day10 {
  import opened Common

  datatype Tile = NorthSouth | EastWest | NorthEast | NorthWest | SouthWest | SouthEast | Ground | Start

  /** `Tile::try_from`: the eight tile characters, anything else an error. */
  function TileOf(c: char): (r: Result<Tile>)
    ensures r.Ok? <==> c in "|-LJ7F.S"
  {
    match c
    case '|' => Ok(NorthSouth)
    case '-' => Ok(EastWest)
    case 'L' => Ok(NorthEast)
    case 'J' => Ok(NorthWest)
    case '7' => Ok(SouthWest)
    case 'F' => Ok(SouthEast)
    case '.' => Ok(Ground)
    case 'S' => Ok(Start)
    case _ => Err("Invalid tile")
  }

  /** The character the `Debug` implementation writes for a tile. */
  function TileChar(t: Tile): char
  {
    match t
    case NorthSouth => '|'
    case EastWest => '-'
    case NorthEast => 'L'
    case NorthWest => 'J'
    case SouthWest => '7'
    case SouthEast => 'F'
    case Ground => '.'
    case Start => 'S'
  }

  /** Reading back a written tile gives the tile. */
  lemma TileOfChar(t: Tile)
    ensures TileOf(TileChar(t)) == Ok(t)
  {
  }

  /** Every accepted character is the one written for its tile. */
  lemma CharOfTile(c: char)
    requires TileOf(c).Ok?
    ensures TileChar(TileOf(c).value) == c
  {
  }

  /** `Coord(row, col)`. */
  datatype Coord = Coord(row: int, col: int)

  /** `Map`: rows of tiles with the width of the first input line and the
      number of lines. */
  datatype Map = Map(tiles: seq<seq<Tile>>, width: nat, height: nat)

  /** What `parse_input` guarantees of the maps it builds: `height` rows of
      `width` tiles each. */
  predicate WellFormed(m: Map)
  {
    |m.tiles| == m.height && forall y :: 0 <= y < m.height ==> |m.tiles[y]| == m.width
  }

  predicate InBounds(m: Map, c: Coord)
  {
    0 <= c.row < |m.tiles| && 0 <= c.col < |m.tiles[c.row]|
  }

  /** `Map::get_tile`: `None` for a negative or too large row or column. */
  function GetTile(m: Map, c: Coord): (r: Option<Tile>)
    ensures r.Some? <==> InBounds(m, c)
    ensures r.Some? ==> r.value == m.tiles[c.row][c.col]
  {
    if c.row < 0 || c.col < 0 then None
    else if c.row < |m.tiles| && c.col < |m.tiles[c.row]| then Some(m.tiles[c.row][c.col])
    else None
  }

  /** One row of `parse_input`: the tiles of `line` written over a row of
      `width` ground tiles.  A character past the width indexes out of the
      row and panics; a bad character stops the parse with `Err`. */
  function ParseRow(line: string, width: nat): (r: Result<seq<Tile>>)
    ensures r.Ok? <==> |line| <= width && forall i :: 0 <= i < |line| ==> TileOf(line[i]).Ok?
    ensures r.Ok? ==> |r.value| == width
    ensures r.Ok? ==> forall i :: 0 <= i < width ==>
      r.value[i] == if i < |line| then TileOf(line[i]).value else Ground
  {
    if line == [] then Ok(seq(width, _ => Ground))
    else if width == 0 then Err("index out of bounds")
    else
      var t := TileOf(line[0]);
      if t.Err? then Err(t.msg)
      else
        var rest := ParseRow(line[1..], width - 1);
        if rest.Err? then
          assert forall i :: 0 <= i < |line[1..]| ==> line[1..][i] == line[i + 1];
          Err(rest.msg)
        else
          assert forall i :: 1 <= i < |line| ==> line[i] == line[1..][i - 1];
          Ok([t.value] + rest.value)
  }

  /** `parse_input` over the input's lines.  With no line at all the width
      lookup panics. */
  function ParseInput(lines: seq<string>): (r: Result<Map>)
    ensures r.Ok? <==> |lines| > 0 && forall y :: 0 <= y < |lines| ==> ParseRow(lines[y], |lines[0]|).Ok?
    ensures r.Ok? ==> WellFormed(r.value) && r.value.height == |lines| && r.value.width == |lines[0]|
    ensures r.Ok? ==> forall y :: 0 <= y < |lines| ==> r.value.tiles[y] == ParseRow(lines[y], |lines[0]|).value
  {
    if lines == [] then Err("index out of bounds")
    else
      var parsed := seq(|lines|, y requires 0 <= y < |lines| => ParseRow(lines[y], |lines[0]|));
      var rows := Collect(parsed);
      assert forall y :: 0 <= y < |lines| ==> parsed[y] == ParseRow(lines[y], |lines[0]|);
      if rows.Err? then Err(rows.msg) else Ok(Map(rows.value, |lines[0]|, |lines|))
  }

  /** The tile read from a cell of the input: the character's tile, or ground
      past the end of a short line. */
  lemma ParseInputTile(lines: seq<string>, c: Coord)
    requires ParseInput(lines).Ok? && InBounds(ParseInput(lines).value, c)
    ensures GetTile(ParseInput(lines).value, c) ==
      Some(if c.col < |lines[c.row]| then TileOf(lines[c.row][c.col]).value else Ground)
  {
    assert ParseRow(lines[c.row], |lines[0]|).Ok?;
  }

  /** The lines a well-formed map is written as. */
  function ShowMap(m: Map): (r: seq<string>)
    requires WellFormed(m)
    ensures |r| == m.height
  {
    seq(m.height, y requires 0 <= y < m.height =>
      seq(m.width, x requires 0 <= x < m.width => TileChar(m.tiles[y][x])))
  }

  /** Parsing a written row gives it back. */
  lemma ParseShowRow(row: seq<Tile>, line: string)
    requires line == seq(|row|, x requires 0 <= x < |row| => TileChar(row[x]))
    ensures ParseRow(line, |row|) == Ok(row)
  {
    forall i | 0 <= i < |line|
      ensures TileOf(line[i]) == Ok(row[i])
    {
      TileOfChar(row[i]);
    }
    var r := ParseRow(line, |row|);
    assert r.Ok?;
    assert r.value == row;
  }

  /** Parsing a written map with at least one row gives it back. */
  lemma ParseShowMap(m: Map)
    requires WellFormed(m) && m.height > 0
    ensures ParseInput(ShowMap(m)) == Ok(m)
  {
    var lines := ShowMap(m);
    forall y | 0 <= y < |lines|
      ensures ParseRow(lines[y], |lines[0]|) == Ok(m.tiles[y])
    {
      ParseShowRow(m.tiles[y], lines[y]);
    }
    var r := ParseInput(lines);
    assert r.Ok?;
    assert r.value.tiles == m.tiles;
  }

  /** Whether cell (y, x) comes before cell (y', x') in row-major order. */
  predicate Before(a: Coord, b: Coord)
  {
    a.row < b.row || (a.row == b.row && a.col < b.col)
  }

  /** `c` holds the first start tile of the map in row-major order. */
  predicate IsFirstStart(m: Map, c: Coord)
  {
    GetTile(m, c) == Some(Start) &&
    forall y, x :: 0 <= y < |m.tiles| && 0 <= x < |m.tiles[y]| && Before(Coord(y, x), c) ==> m.tiles[y][x] != Start
  }

  predicate HasStart(m: Map)
  {
    exists y, x :: 0 <= y < |m.tiles| && 0 <= x < |m.tiles[y]| && m.tiles[y][x] == Start
  }

  /** There is at most one first start tile. */
  lemma FirstStartUnique(m: Map, a: Coord, b: Coord)
    requires IsFirstStart(m, a) && IsFirstStart(m, b)
    ensures a == b
  {
  }

  /** `Map::find_start`: the first start tile scanning row by row, or `None`
      when there is none. */
  method FindStart(m: Map) returns (r: Option<Coord>)
    ensures r.Some? ==> IsFirstStart(m, r.value)
    ensures r.None? <==> !HasStart(m)
  {
    for y := 0 to |m.tiles|
      invariant forall y', x :: 0 <= y' < y && 0 <= x < |m.tiles[y']| ==> m.tiles[y'][x] != Start
    {
      for x := 0 to |m.tiles[y]|
        invariant forall y', x' :: 0 <= y' < y && 0 <= x' < |m.tiles[y']| ==> m.tiles[y'][x'] != Start
        invariant forall x' :: 0 <= x' < x ==> m.tiles[y][x'] != Start
      {
        if m.tiles[y][x] == Start {
          return Some(Coord(y, x));
        }
      }
    }
    return None;
  }

  datatype Dir = North | South | East | West

  /** The neighbouring coordinate one step in direction `d`; north is the
      previous row. */
  function Step(c: Coord, d: Dir): (r: Coord)
    ensures Abs(r.row - c.row) + Abs(r.col - c.col) == 1
  {
    match d
    case North => Coord(c.row - 1, c.col)
    case South => Coord(c.row + 1, c.col)
    case East => Coord(c.row, c.col + 1)
    case West => Coord(c.row, c.col - 1)
  }

  function Opposite(d: Dir): Dir
  {
    match d
    case North => South
    case South => North
    case East => West
    case West => East
  }

  /** Stepping one way and then back returns to the cell. */
  lemma StepBack(c: Coord, d: Dir)
    ensures Step(Step(c, d), Opposite(d)) == c
  {
  }

  /** The two openings of a pipe, in the order `compute_edges` lists them;
      ground and the start tile have none of their own. */
  function Openings(t: Tile): (r: seq<Dir>)
    ensures |r| <= 2
  {
    match t
    case NorthSouth => [North, South]
    case EastWest => [East, West]
    case NorthEast => [North, East]
    case NorthWest => [North, West]
    case SouthWest => [South, West]
    case SouthEast => [South, East]
    case Ground => []
    case Start => []
  }

  /** The directions `compute_edges` looks in: the start tile looks all
      four ways, north, south, east, west. */
  function Candidates(t: Tile): (r: seq<Dir>)
    ensures |r| <= 4
  {
    if t == Start then [North, South, East, West] else Openings(t)
  }

  /** Whether the neighbour in direction `d` becomes an edge: it must be in
      the grid, and for the start tile its pipe must open back towards the
      start. */
  predicate Admits(m: Map, c: Coord, d: Dir, fromStart: bool)
  {
    var n := GetTile(m, Step(c, d));
    n.Some? && (!fromStart || Opposite(d) in Openings(n.value))
  }

  /** The admitted neighbours among `ds`, in order. */
  function Kept(m: Map, c: Coord, ds: seq<Dir>, fromStart: bool): (r: seq<Coord>)
    ensures |r| <= |ds|
  {
    if ds == [] then []
    else
      var rest := Kept(m, c, ds[..|ds| - 1], fromStart);
      var d := ds[|ds| - 1];
      if Admits(m, c, d, fromStart) then rest + [Step(c, d)] else rest
  }

  /** The edges of cell `c`, as `compute_edges` lists them. */
  function Edges(m: Map, c: Coord): (r: seq<Coord>)
    requires InBounds(m, c)
  {
    var t := m.tiles[c.row][c.col];
    Kept(m, c, Candidates(t), t == Start)
  }

  /** A neighbour is kept exactly when it lies in one of the directions
      looked in and is admitted. */
  lemma {:induction false} KeptMember(m: Map, c: Coord, ds: seq<Dir>, fromStart: bool, n: Coord)
    ensures n in Kept(m, c, ds, fromStart) <==>
      exists i :: 0 <= i < |ds| && n == Step(c, ds[i]) && Admits(m, c, ds[i], fromStart)
    decreases |ds|
  {
    if ds != [] {
      var init := ds[..|ds| - 1];
      KeptMember(m, c, init, fromStart, n);
      if n in Kept(m, c, ds, fromStart) {
        if n in Kept(m, c, init, fromStart) {
          var i :| 0 <= i < |init| && n == Step(c, init[i]) && Admits(m, c, init[i], fromStart);
          assert ds[i] == init[i];
        } else {
          assert n == Step(c, ds[|ds| - 1]);
        }
      }
      if exists i :: 0 <= i < |ds| && n == Step(c, ds[i]) && Admits(m, c, ds[i], fromStart) {
        var i :| 0 <= i < |ds| && n == Step(c, ds[i]) && Admits(m, c, ds[i], fromStart);
        if i < |ds| - 1 {
          assert init[i] == ds[i];
        }
      }
    }
  }

  /** Every kept neighbour is in the grid, one step from the cell. */
  lemma {:induction false} KeptAdjacent(m: Map, c: Coord, ds: seq<Dir>, fromStart: bool)
    ensures forall n :: n in Kept(m, c, ds, fromStart) ==>
      InBounds(m, n) && Abs(n.row - c.row) + Abs(n.col - c.col) == 1
  {
    forall n | n in Kept(m, c, ds, fromStart)
      ensures InBounds(m, n) && Abs(n.row - c.row) + Abs(n.col - c.col) == 1
    {
      KeptMember(m, c, ds, fromStart, n);
    }
  }

  /** Every edge is in the grid and one step away; a cell has at most four
      edges, a pipe at most two and ground none. */
  lemma EdgesShape(m: Map, c: Coord)
    requires InBounds(m, c)
    ensures forall n :: n in Edges(m, c) ==> InBounds(m, n) && Abs(n.row - c.row) + Abs(n.col - c.col) == 1
    ensures |Edges(m, c)| <= 4
    ensures m.tiles[c.row][c.col] != Start ==> |Edges(m, c)| <= 2
    ensures m.tiles[c.row][c.col] == Ground ==> Edges(m, c) == []
  {
    var t := m.tiles[c.row][c.col];
    KeptAdjacent(m, c, Candidates(t), t == Start);
  }

  /** A pipe's edges are exactly its in-grid openings, whatever tile lies
      there. */
  lemma PipeEdges(m: Map, c: Coord, n: Coord)
    requires InBounds(m, c) && m.tiles[c.row][c.col] != Start
    ensures n in Edges(m, c) <==>
      InBounds(m, n) && exists d :: d in Openings(m.tiles[c.row][c.col]) && n == Step(c, d)
  {
    var t := m.tiles[c.row][c.col];
    KeptMember(m, c, Openings(t), false, n);
    if InBounds(m, n) && exists d :: d in Openings(t) && n == Step(c, d) {
      var d :| d in Openings(t) && n == Step(c, d);
      var i :| 0 <= i < |Openings(t)| && Openings(t)[i] == d;
      assert Admits(m, c, Openings(t)[i], false);
    }
  }

  /** The start's edges are exactly its in-grid neighbours whose pipe opens
      back towards it. */
  lemma StartEdges(m: Map, c: Coord, n: Coord)
    requires InBounds(m, c) && m.tiles[c.row][c.col] == Start
    ensures n in Edges(m, c) <==>
      InBounds(m, n) && exists d :: n == Step(c, d) && Opposite(d) in Openings(m.tiles[n.row][n.col])
  {
    var all := [North, South, East, West];
    KeptMember(m, c, all, true, n);
    if InBounds(m, n) && exists d :: n == Step(c, d) && Opposite(d) in Openings(m.tiles[n.row][n.col]) {
      var d :| n == Step(c, d) && Opposite(d) in Openings(m.tiles[n.row][n.col]);
      var i := match d case North => 0 case South => 1 case East => 2 case West => 3;
      assert all[i] == d && Admits(m, c, all[i], true);
    }
  }

  /** The start is linked both ways: each edge of the start is a pipe that
      lists the start among its own edges. */
  lemma StartEdgesMutual(m: Map, c: Coord, n: Coord)
    requires InBounds(m, c) && m.tiles[c.row][c.col] == Start && n in Edges(m, c)
    ensures InBounds(m, n) && c in Edges(m, n)
  {
    StartEdges(m, c, n);
    var d :| n == Step(c, d) && Opposite(d) in Openings(m.tiles[n.row][n.col]);
    StepBack(c, d);
    PipeEdges(m, n, c);
  }

  /** `compute_edges`: for each direction looked in, push the neighbour when
      it is admitted. */
  method ComputeEdges(m: Map, c: Coord) returns (edges: seq<Coord>)
    requires InBounds(m, c)
    ensures edges == Edges(m, c)
  {
    var t := m.tiles[c.row][c.col];
    var ds := Candidates(t);
    edges := [];
    for i := 0 to |ds|
      invariant edges == Kept(m, c, ds[..i], t == Start)
    {
      assert ds[..i + 1][..i] == ds[..i];
      var n := GetTile(m, Step(c, ds[i]));
      if n.Some? && (t != Start || Opposite(ds[i]) in Openings(n.value)) {
        edges := edges + [Step(c, ds[i])];
      }
    }
    assert ds[..|ds|] == ds;
  }

  /** Row `y` of an adjacency matrix: the edge list of each of its cells. */
  predicate IsEdgeRow(m: Map, y: int, row: seq<seq<Coord>>)
    requires WellFormed(m) && 0 <= y < m.height
  {
    |row| == m.width && forall x :: 0 <= x < m.width ==> row[x] == Edges(m, Coord(y, x))
  }

  /** An adjacency matrix of the map's shape whose every entry is the cell's
      edge list. */
  predicate IsAdjacency(m: Map, adj: seq<seq<seq<Coord>>>)
    requires WellFormed(m)
  {
    |adj| == m.height && forall y :: 0 <= y < m.height ==> IsEdgeRow(m, y, adj[y])
  }

  /** `compute_adjacency_matrix`: the edges of every cell. */
  method ComputeAdjacencyMatrix(m: Map) returns (adj: seq<seq<seq<Coord>>>)
    requires WellFormed(m)
    ensures IsAdjacency(m, adj)
  {
    adj := [];
    for y := 0 to m.height
      invariant |adj| == y
      invariant forall y' :: 0 <= y' < y ==> IsEdgeRow(m, y', adj[y'])
    {
      var row := ComputeEdgeRow(m, y);
      adj := adj + [row];
    }
  }

  /** The inner loop of `compute_adjacency_matrix`, over one row. */
  method ComputeEdgeRow(m: Map, y: int) returns (row: seq<seq<Coord>>)
    requires WellFormed(m) && 0 <= y < m.height
    ensures IsEdgeRow(m, y, row)
  {
    row := [];
    for x := 0 to m.width
      invariant |row| == x
      invariant EdgeRowPrefix(m, y, row)
    {
      var edges := ComputeEdges(m, Coord(y, x));
      EdgeRowGrows(m, y, row, edges);
      row := row + [edges];
    }
  }

  /** `row` holds the edge lists of the first `|row|` cells of row `y`. */
  predicate EdgeRowPrefix(m: Map, y: int, row: seq<seq<Coord>>)
    requires WellFormed(m) && 0 <= y < m.height
  {
    |row| <= m.width && forall x :: 0 <= x < |row| ==> row[x] == Edges(m, Coord(y, x))
  }

  lemma EdgeRowGrows(m: Map, y: int, row: seq<seq<Coord>>, edges: seq<Coord>)
    requires WellFormed(m) && 0 <= y < m.height && |row| < m.width
    requires EdgeRowPrefix(m, y, row) && edges == Edges(m, Coord(y, |row|))
    ensures EdgeRowPrefix(m, y, row + [edges])
  {
    var row' := row + [edges];
    forall x | 0 <= x < |row'| ensures row'[x] == Edges(m, Coord(y, x)) {
      if x < |row| {
        assert row'[x] == row[x];
      } else {
        assert x == |row| && row'[x] == edges;
      }
    }
  }

  /** The matrix has the map's shape and names only cells of the grid, as
      one built by `compute_adjacency_matrix` does. */
  predicate AdjValid(m: Map, adj: seq<seq<seq<Coord>>>)
  {
    WellFormed(m) && |adj| == m.height &&
    forall y :: 0 <= y < m.height ==>
      (|adj[y]| == m.width && forall x :: 0 <= x < m.width ==> forall e :: e in adj[y][x] ==> InBounds(m, e))
  }

  lemma AdjacencyValid(m: Map, adj: seq<seq<seq<Coord>>>)
    requires WellFormed(m) && IsAdjacency(m, adj)
    ensures AdjValid(m, adj)
  {
    forall y, x | 0 <= y < m.height && 0 <= x < m.width
      ensures forall e :: e in adj[y][x] ==> InBounds(m, e)
    {
      assert IsEdgeRow(m, y, adj[y]);
      EdgesShape(m, Coord(y, x));
    }
  }

  /** The edge list of a cell, empty outside the matrix. */
  function EdgesAt(adj: seq<seq<seq<Coord>>>, c: Coord): seq<Coord>
  {
    if 0 <= c.row < |adj| && 0 <= c.col < |adj[c.row]| then adj[c.row][c.col] else []
  }

  /** A walk along the matrix's edges. */
  ghost predicate IsWalk(adj: seq<seq<seq<Coord>>>, p: seq<Coord>)
  {
    |p| >= 1 && forall i :: 0 <= i < |p| - 1 ==> p[i + 1] in EdgesAt(adj, p[i])
  }

  function Last<T>(p: seq<T>): T
    requires |p| > 0
  {
    p[|p| - 1]
  }

  /** Every edge out of a recorded cell leads to a recorded cell at most one
      further away. */
  predicate Expanded(adj: seq<seq<seq<Coord>>>, dist: map<Coord, nat>, c: Coord)
    requires c in dist
  {
    forall e :: e in EdgesAt(adj, c) ==> e in dist && dist[e] <= dist[c] + 1
  }

  /** Along a walk through expanded cells the recorded distance grows by at
      most one per step. */
  lemma {:induction false} WalkBound(adj: seq<seq<seq<Coord>>>, dist: map<Coord, nat>, p: seq<Coord>)
    requires forall c :: c in dist ==> Expanded(adj, dist, c)
    requires IsWalk(adj, p) && p[0] in dist
    ensures Last(p) in dist && dist[Last(p)] <= dist[p[0]] + |p| - 1
    decreases |p|
  {
    if |p| > 1 {
      var q := p[..|p| - 1];
      assert IsWalk(adj, q) by {
        forall i | 0 <= i < |q| - 1
          ensures q[i + 1] in EdgesAt(adj, q[i])
        {
          assert q[i] == p[i] && q[i + 1] == p[i + 1];
        }
      }
      WalkBound(adj, dist, q);
      assert Last(p) in EdgesAt(adj, Last(q));
    }
  }

  /** The queue holds recorded cells with their distances, in non-decreasing
      order, all within one of the level being expanded; no recorded distance
      exceeds that level plus one. */
  predicate QueueOk(queue: seq<(Coord, nat)>, dist: map<Coord, nat>, level: nat)
  {
    (forall i :: 0 <= i < |queue| ==>
      queue[i].0 in dist && dist[queue[i].0] == queue[i].1 && level <= queue[i].1 <= level + 1) &&
    (forall i, j :: 0 <= i < j < |queue| ==> queue[i].1 <= queue[j].1) &&
    (forall c :: c in dist ==> dist[c] <= level + 1)
  }

  predicate Queued(queue: seq<(Coord, nat)>, c: Coord)
  {
    exists i :: 0 <= i < |queue| && queue[i].0 == c
  }

  /** Every recorded cell has a recorded walk from `start` of length its
      distance. */
  ghost predicate Witnessed(adj: seq<seq<seq<Coord>>>, start: Coord, dist: map<Coord, nat>, paths: map<Coord, seq<Coord>>)
  {
    forall c :: c in dist ==>
      c in paths && IsWalk(adj, paths[c]) && paths[c][0] == start && Last(paths[c]) == c && |paths[c]| == dist[c] + 1
  }

  /** Every recorded cell off the queue, other than `except`, is expanded. */
  predicate ExpandedOff(adj: seq<seq<seq<Coord>>>, dist: map<Coord, nat>, queue: seq<(Coord, nat)>, except: Option<Coord>)
  {
    forall c :: c in dist && Some(c) != except && !Queued(queue, c) ==> Expanded(adj, dist, c)
  }

  /** What holds of the search between any two steps. */
  ghost predicate Searching(m: Map, adj: seq<seq<seq<Coord>>>, start: Coord, dist: map<Coord, nat>,
                      queue: seq<(Coord, nat)>, paths: map<Coord, seq<Coord>>, level: nat)
  {
    (forall c :: c in dist ==> InBounds(m, c)) &&
    start in dist && dist[start] == 0 &&
    QueueOk(queue, dist, level) &&
    Witnessed(adj, start, dist, paths)
  }

  /** Taking the head of the queue moves the level up to its distance. */
  lemma PopOk(m: Map, adj: seq<seq<seq<Coord>>>, start: Coord, dist: map<Coord, nat>,
              queue: seq<(Coord, nat)>, paths: map<Coord, seq<Coord>>, level: nat)
    requires Searching(m, adj, start, dist, queue, paths, level) && queue != []
    requires ExpandedOff(adj, dist, queue, None)
    ensures Searching(m, adj, start, dist, queue[1..], paths, queue[0].1)
    ensures ExpandedOff(adj, dist, queue[1..], Some(queue[0].0))
  {
    var d := queue[0].1;
    assert forall i :: 1 <= i < |queue| ==> d <= queue[i].1;
    forall c | c in dist && Some(c) != Some(queue[0].0) && !Queued(queue[1..], c)
      ensures Expanded(adj, dist, c)
    {
      forall i | 1 <= i < |queue|
        ensures queue[i].0 != c
      {
        assert queue[1..][i - 1] == queue[i];
      }
    }
  }

  /** Recording a newly found cell `e` one step beyond `u`. */
  lemma PushOk(m: Map, adj: seq<seq<seq<Coord>>>, start: Coord, dist: map<Coord, nat>,
               queue: seq<(Coord, nat)>, paths: map<Coord, seq<Coord>>, d: nat, u: Coord, e: Coord)
    requires Searching(m, adj, start, dist, queue, paths, d)
    requires u in dist && dist[u] == d && e in EdgesAt(adj, u) && e !in dist && InBounds(m, e)
    requires ExpandedOff(adj, dist, queue, Some(u))
    ensures Searching(m, adj, start, dist[e := d + 1], queue + [(e, d + 1)], paths[e := paths[u] + [e]], d)
    ensures ExpandedOff(adj, dist[e := d + 1], queue + [(e, d + 1)], Some(u))
  {
    PushWitnessed(adj, start, dist, paths, u, e);
    PushQueueOk(queue, dist, d, e);
    PushExpanded(adj, dist, queue, d, u, e);
  }

  /** The walk to `u` extended by the edge to `e` witnesses `e`. */
  lemma PushWitnessed(adj: seq<seq<seq<Coord>>>, start: Coord, dist: map<Coord, nat>,
                      paths: map<Coord, seq<Coord>>, u: Coord, e: Coord)
    requires Witnessed(adj, start, dist, paths) && u in dist && e in EdgesAt(adj, u)
    ensures Witnessed(adj, start, dist[e := dist[u] + 1], paths[e := paths[u] + [e]])
  {
    var p := paths[u] + [e];
    forall i | 0 <= i < |p| - 1
      ensures p[i + 1] in EdgesAt(adj, p[i])
    {
      if i < |p| - 2 {
        assert p[i] == paths[u][i] && p[i + 1] == paths[u][i + 1];
      }
    }
    assert IsWalk(adj, p);
  }

  /** Queuing `e` at the next level keeps the queue sorted by distance. */
  lemma PushQueueOk(queue: seq<(Coord, nat)>, dist: map<Coord, nat>, d: nat, e: Coord)
    requires QueueOk(queue, dist, d) && e !in dist
    ensures QueueOk(queue + [(e, d + 1)], dist[e := d + 1], d)
  {
    var queue' := queue + [(e, d + 1)];
    assert forall i :: 0 <= i < |queue| ==> queue'[i] == queue[i];
  }

  /** The only cell recorded anew is queued, so nothing else needs
      expanding. */
  lemma PushExpanded(adj: seq<seq<seq<Coord>>>, dist: map<Coord, nat>, queue: seq<(Coord, nat)>,
                     d: nat, u: Coord, e: Coord)
    requires ExpandedOff(adj, dist, queue, Some(u)) && e !in dist
    ensures ExpandedOff(adj, dist[e := d + 1], queue + [(e, d + 1)], Some(u))
  {
    var dist', queue' := dist[e := d + 1], queue + [(e, d + 1)];
    forall c | c in dist' && Some(c) != Some(u) && !Queued(queue', c)
      ensures Expanded(adj, dist', c)
    {
      forall i | 0 <= i < |queue|
        ensures queue[i].0 != c
      {
        assert queue'[i] == queue[i];
      }
      assert queue'[|queue|].0 == e;
    }
  }

  /** The cells of the grid. */
  function Cells(m: Map): set<Coord>
  {
    set y, x | 0 <= y < m.height && 0 <= x < m.width :: Coord(y, x)
  }

  /** Recording more cells of the grid leaves fewer unrecorded ones. */
  lemma Shrinks(cells: set<Coord>, before: set<Coord>, after: set<Coord>)
    requires before <= after <= cells
    ensures after == before || |cells - after| < |cells - before|
  {
    if after - before == {} {
      forall x | x in after
        ensures x in before
      {
        assert x !in after - before;
      }
    } else {
      assert cells - before == (cells - after) + (after - before);
    }
  }

  /** The search starts with the start cell recorded at distance 0 and
      queued. */
  lemma SearchBegins(m: Map, adj: seq<seq<seq<Coord>>>, origin: Coord)
    requires WellFormed(m) && InBounds(m, origin)
    ensures Searching(m, adj, origin, map[origin := 0], [(origin, 0)], map[origin := [origin]], 0)
    ensures ExpandedOff(adj, map[origin := 0], [(origin, 0)], None)
    ensures map[origin := 0].Keys <= Cells(m)
  {
    var queue := [(origin, 0)];
    assert queue[0].0 == origin;
    assert origin == Coord(origin.row, origin.col);
  }

  /** The state of the inner loop after the first `i` edges of `u`: the
      search invariant, those edges recorded at most one beyond `u`, and
      only grid cells added to the map and the queue since it began from
      `dist0` and `queue0`. */
  ghost predicate Expanding(m: Map, adj: seq<seq<seq<Coord>>>, start: Coord, u: Coord, d: nat,
                            dist0: map<Coord, nat>, queue0: seq<(Coord, nat)>, edges: seq<Coord>, i: int,
                            dist: map<Coord, nat>, queue: seq<(Coord, nat)>, paths: map<Coord, seq<Coord>>)
  {
    0 <= i <= |edges| &&
    Searching(m, adj, start, dist, queue, paths, d) && u in dist && dist[u] == d &&
    ExpandedOff(adj, dist, queue, Some(u)) &&
    (forall j :: 0 <= j < i ==> edges[j] in dist && dist[edges[j]] <= d + 1) &&
    dist0.Keys <= dist.Keys <= dist0.Keys + Cells(m) &&
    (dist.Keys == dist0.Keys ==> queue == queue0)
  }

  /** An edge found unvisited is recorded and queued. */
  lemma DiscoverStep(m: Map, adj: seq<seq<seq<Coord>>>, start: Coord, u: Coord, d: nat,
                     dist0: map<Coord, nat>, queue0: seq<(Coord, nat)>, edges: seq<Coord>, i: int,
                     dist: map<Coord, nat>, queue: seq<(Coord, nat)>, paths: map<Coord, seq<Coord>>)
    requires AdjValid(m, adj) && InBounds(m, u) && edges == EdgesAt(adj, u)
    requires Expanding(m, adj, start, u, d, dist0, queue0, edges, i, dist, queue, paths)
    requires i < |edges| && edges[i] !in dist
    ensures Expanding(m, adj, start, u, d, dist0, queue0, edges, i + 1, dist[edges[i] := d + 1],
                      queue + [(edges[i], d + 1)], paths[edges[i] := paths[u] + [edges[i]]])
  {
    var e := edges[i];
    InCells(m, e);
    PushOk(m, adj, start, dist, queue, paths, d, u, e);
  }

  /** An edge already visited changes nothing; it lies at most one beyond
      `u` because no recorded distance exceeds the level plus one. */
  lemma SeenStep(m: Map, adj: seq<seq<seq<Coord>>>, start: Coord, u: Coord, d: nat,
                 dist0: map<Coord, nat>, queue0: seq<(Coord, nat)>, edges: seq<Coord>, i: int,
                 dist: map<Coord, nat>, queue: seq<(Coord, nat)>, paths: map<Coord, seq<Coord>>)
    requires Expanding(m, adj, start, u, d, dist0, queue0, edges, i, dist, queue, paths)
    requires i < |edges| && edges[i] in dist
    ensures Expanding(m, adj, start, u, d, dist0, queue0, edges, i + 1, dist, queue, paths)
  {
  }

  /** After the last edge, `u` is expanded as well. */
  lemma ExpandDone(m: Map, adj: seq<seq<seq<Coord>>>, start: Coord, u: Coord, d: nat,
                   dist0: map<Coord, nat>, queue0: seq<(Coord, nat)>, edges: seq<Coord>,
                   dist: map<Coord, nat>, queue: seq<(Coord, nat)>, paths: map<Coord, seq<Coord>>)
    requires edges == EdgesAt(adj, u)
    requires Expanding(m, adj, start, u, d, dist0, queue0, edges, |edges|, dist, queue, paths)
    ensures Searching(m, adj, start, dist, queue, paths, d)
    ensures ExpandedOff(adj, dist, queue, None)
  {
    assert Expanded(adj, dist, u);
    ExpandedAll(adj, dist, queue, u);
  }

  /** The inner loop of `compute_longest_distance`: every edge of `u` not yet
      visited is recorded at distance `d + 1` and queued. */
  method ExpandCell(ghost m: Map, adj: seq<seq<seq<Coord>>>, ghost start: Coord, u: Coord, d: nat,
                    visited: map<Coord, nat>, queue: seq<(Coord, nat)>, ghost paths: map<Coord, seq<Coord>>)
    returns (visited': map<Coord, nat>, queue': seq<(Coord, nat)>, ghost paths': map<Coord, seq<Coord>>)
    requires AdjValid(m, adj) && InBounds(m, u)
    requires Searching(m, adj, start, visited, queue, paths, d) && u in visited && visited[u] == d
    requires ExpandedOff(adj, visited, queue, Some(u))
    ensures Searching(m, adj, start, visited', queue', paths', d)
    ensures ExpandedOff(adj, visited', queue', None)
    ensures visited.Keys <= visited'.Keys <= visited.Keys + Cells(m)
    ensures visited'.Keys == visited.Keys ==> queue' == queue
  {
    var edges := adj[u.row][u.col];
    assert edges == EdgesAt(adj, u);
    visited', queue', paths' := visited, queue, paths;
    for i := 0 to |edges|
      invariant Expanding(m, adj, start, u, d, visited, queue, edges, i, visited', queue', paths')
    {
      var e := edges[i];
      if e !in visited' {
        DiscoverStep(m, adj, start, u, d, visited, queue, edges, i, visited', queue', paths');
        var next: nat := d + 1;
        var entry: (Coord, nat) := (e, next);
        ghost var path := paths'[u] + [e];
        visited', queue', paths' := visited'[e := next], queue' + [entry], paths'[e := path];
      } else {
        SeenStep(m, adj, start, u, d, visited, queue, edges, i, visited', queue', paths');
      }
    }
    ExpandDone(m, adj, start, u, d, visited, queue, edges, visited', queue', paths');
  }

  lemma InCells(m: Map, e: Coord)
    requires WellFormed(m) && InBounds(m, e)
    ensures e in Cells(m)
  {
    assert e == Coord(e.row, e.col);
  }

  /** With `u` expanded too, every recorded cell off the queue is. */
  lemma ExpandedAll(adj: seq<seq<seq<Coord>>>, dist: map<Coord, nat>, queue: seq<(Coord, nat)>, u: Coord)
    requires u in dist && Expanded(adj, dist, u) && ExpandedOff(adj, dist, queue, Some(u))
    ensures ExpandedOff(adj, dist, queue, None)
  {
  }

  /** `dist` records, for every cell reachable from `start` along the
      matrix's edges, the length of a shortest walk to it, and nothing else. */
  ghost predicate ShortestDistances(adj: seq<seq<seq<Coord>>>, start: Coord, dist: map<Coord, nat>)
  {
    start in dist && dist[start] == 0 &&
    (forall c :: c in dist ==>
      exists p :: IsWalk(adj, p) && p[0] == start && Last(p) == c && |p| == dist[c] + 1) &&
    (forall p :: IsWalk(adj, p) && p[0] == start ==> Last(p) in dist && dist[Last(p)] <= |p| - 1)
  }

  /** Once the queue is empty every recorded cell is expanded, so the
      recorded distances are the shortest ones. */
  lemma SearchDone(m: Map, adj: seq<seq<seq<Coord>>>, start: Coord, dist: map<Coord, nat>,
                   paths: map<Coord, seq<Coord>>, level: nat)
    requires Searching(m, adj, start, dist, [], paths, level)
    requires ExpandedOff(adj, dist, [], None)
    ensures ShortestDistances(adj, start, dist)
  {
    forall c | c in dist
      ensures exists p :: IsWalk(adj, p) && p[0] == start && Last(p) == c && |p| == dist[c] + 1
    {
      assert IsWalk(adj, paths[c]);
    }
    forall c | c in dist
      ensures Expanded(adj, dist, c)
    {
      assert !Queued([], c);
    }
    forall p | IsWalk(adj, p) && p[0] == start
      ensures Last(p) in dist && dist[Last(p)] <= |p| - 1
    {
      WalkBound(adj, dist, p);
    }
  }

  /** The `while let` loop of `compute_longest_distance` from `origin`. */
  method Search(ghost m: Map, adj: seq<seq<seq<Coord>>>, origin: Coord) returns (visited: map<Coord, nat>)
    requires AdjValid(m, adj) && InBounds(m, origin)
    ensures ShortestDistances(adj, origin, visited)
  {
    visited := map[origin := 0];
    var queue := [(origin, 0)];
    ghost var paths := map[origin := [origin]];
    ghost var level := 0;
    ghost var cells := Cells(m);
    SearchBegins(m, adj, origin);
    while queue != []
      invariant Searching(m, adj, origin, visited, queue, paths, level)
      invariant ExpandedOff(adj, visited, queue, None)
      invariant visited.Keys <= cells
      decreases |cells - visited.Keys|, |queue|
    {
      PopOk(m, adj, origin, visited, queue, paths, level);
      var (u, d) := queue[0];
      ghost var before := visited;
      queue := queue[1..];
      level := d;
      visited, queue, paths := ExpandCell(m, adj, origin, u, d, visited, queue, paths);
      Shrinks(cells, before.Keys, visited.Keys);
    }
    SearchDone(m, adj, origin, visited, paths, level);
  }

  /** `compute_longest_distance`: the largest shortest-walk distance from the
      first start tile, `None` where the source's `unwrap` of a missing start
      panics.  `dist` is its map of visited distances. */
  method LongestDistance(m: Map, adj: seq<seq<seq<Coord>>>)
    returns (r: Option<nat>, ghost start: Coord, ghost dist: map<Coord, nat>)
    requires AdjValid(m, adj)
    ensures r.None? <==> !HasStart(m)
    ensures r.Some? ==> IsFirstStart(m, start) && ShortestDistances(adj, start, dist)
    ensures r.Some? ==> r.value in dist.Values && forall c :: c in dist ==> dist[c] <= r.value
  {
    var found := FindStart(m);
    start, dist := Coord(0, 0), map[];
    if found.None? {
      return None, start, dist;
    }
    var visited := Search(m, adj, found.value);
    var longest := MaxValue(visited);
    return Some(longest), found.value, visited;
  }

  /** `values().max()` over a non-empty map. */
  method MaxValue(dist: map<Coord, nat>) returns (mx: nat)
    requires dist != map[]
    ensures mx in dist.Values && forall c :: c in dist ==> dist[c] <= mx
  {
    var keys := dist.Keys;
    var k :| k in keys;
    mx := dist[k];
    keys := keys - {k};
    while keys != {}
      invariant keys <= dist.Keys
      invariant mx in dist.Values
      invariant forall c :: c in dist && c !in keys ==> dist[c] <= mx
      decreases |keys|
    {
      var c :| c in keys;
      if dist[c] > mx {
        mx := dist[c];
      }
      keys := keys - {c};
    }
  }

  /** The first edge other than `prev`, the neighbour the loop trace moves
      on to; `None` where the source's `unwrap` panics. */
  function NextNode(edges: seq<Coord>, prev: Coord): (r: Option<Coord>)
    ensures r.Some? <==> exists i :: 0 <= i < |edges| && edges[i] != prev
    ensures r.Some? ==> r.value in edges && r.value != prev
  {
    if edges == [] then None
    else if edges[0] != prev then Some(edges[0])
    else
      var rest := NextNode(edges[1..], prev);
      assert forall i :: 1 <= i < |edges| ==> edges[i] == edges[1..][i - 1];
      rest
  }

  /** The node the trace moves to from `nodes[i]`: the first edge of the
      start, then the first edge that does not go back. */
  function Successor(adj: seq<seq<seq<Coord>>>, nodes: seq<Coord>, i: nat): Option<Coord>
    requires i < |nodes|
  {
    var edges := EdgesAt(adj, nodes[i]);
    if i == 0 then (if edges == [] then None else Some(edges[0]))
    else NextNode(edges, nodes[i - 1])
  }

  /** `nodes` is how `compute_main_loop` walks from `start` so far: each
      node is the successor of the one before, and only the first is the
      start. */
  predicate IsTrace(adj: seq<seq<seq<Coord>>>, start: Coord, nodes: seq<Coord>)
  {
    |nodes| >= 1 && nodes[0] == start &&
    (forall i :: 1 <= i < |nodes| ==> nodes[i] != start) &&
    (forall i :: 0 <= i < |nodes| - 1 ==> Successor(adj, nodes, i) == Some(nodes[i + 1]))
  }

  /** The walk is determined: of two traces from the same start the
      shorter is a prefix of the longer. */
  lemma {:induction false} TraceDeterministic(adj: seq<seq<seq<Coord>>>, start: Coord, a: seq<Coord>, b: seq<Coord>)
    requires IsTrace(adj, start, a) && IsTrace(adj, start, b) && |a| <= |b|
    ensures a == b[..|a|]
    decreases |a|
  {
    if |a| > 1 {
      var a', b' := a[..|a| - 1], b[..|a| - 1];
      assert IsTrace(adj, start, a') by {
        assert forall i :: 0 <= i < |a'| - 1 ==> Successor(adj, a', i) == Successor(adj, a, i);
      }
      assert IsTrace(adj, start, b') by {
        assert forall i :: 0 <= i < |b'| - 1 ==> Successor(adj, b', i) == Successor(adj, b, i);
      }
      TraceDeterministic(adj, start, a', b');
      assert b'[..|a'|] == b';
      var k := |a| - 2;
      assert Successor(adj, a, k) == Successor(adj, b, k);
    }
  }

  /** A trace grows by the successor of its last node, unless that is the
      start. */
  lemma TraceSnoc(adj: seq<seq<seq<Coord>>>, start: Coord, nodes: seq<Coord>, next: Coord)
    requires IsTrace(adj, start, nodes) && Successor(adj, nodes, |nodes| - 1) == Some(next) && next != start
    ensures IsTrace(adj, start, nodes + [next])
    ensures Successor(adj, nodes + [next], |nodes|) == NextNode(EdgesAt(adj, next), nodes[|nodes| - 1])
  {
    var t := nodes + [next];
    forall i | 0 <= i < |t| - 1
      ensures Successor(adj, t, i) == Some(t[i + 1])
    {
      assert t[i] == nodes[i];
      if i > 0 {
        assert t[i - 1] == nodes[i - 1];
      }
      assert Successor(adj, t, i) == Successor(adj, nodes, i);
      if i < |nodes| - 1 {
        assert t[i + 1] == nodes[i + 1];
      }
    }
  }

  /** How the trace of `compute_main_loop` ends: back at the start, stuck
      where the source panics, or past the step bound of the model. */
  datatype Trace = Closed(nodes: seq<Coord>) | Stuck(nodes: seq<Coord>) | Unfinished(nodes: seq<Coord>)

  /** The first loop of `compute_main_loop`, run for at most `fuel` steps. */
  method TraceMainLoop(adj: seq<seq<seq<Coord>>>, start: Coord, fuel: nat) returns (r: Trace)
    ensures IsTrace(adj, start, r.nodes)
    ensures r.Closed? ==> Successor(adj, r.nodes, |r.nodes| - 1) == Some(start)
    ensures r.Stuck? ==> Successor(adj, r.nodes, |r.nodes| - 1) == None
    ensures r.Unfinished? ==> |r.nodes| == fuel + 1
  {
    var mainLoop := [start];
    var first := EdgesAt(adj, start);
    if first == [] {
      return Stuck(mainLoop);
    }
    var next := first[0];
    while next != start
      invariant IsTrace(adj, start, mainLoop) && |mainLoop| <= fuel + 1
      invariant Successor(adj, mainLoop, |mainLoop| - 1) == Some(next)
      decreases fuel + 1 - |mainLoop|
    {
      if |mainLoop| == fuel + 1 {
        return Unfinished(mainLoop);
      }
      var previous := mainLoop[|mainLoop| - 1];
      TraceSnoc(adj, start, mainLoop, next);
      mainLoop := mainLoop + [next];
      var following := NextNode(EdgesAt(adj, next), previous);
      if following.None? {
        return Stuck(mainLoop);
      }
      next := following.value;
    }
    return Closed(mainLoop);
  }

  /** The loop node after node `i`, cyclically: `(i + 1) % len`. */
  function After(nodes: seq<Coord>, i: int): Coord
    requires 0 <= i < |nodes|
  {
    if i + 1 < |nodes| then nodes[i + 1] else nodes[0]
  }

  /** The loop node before node `i`, cyclically: `(i + len - 1) % len`. */
  function Preceding(nodes: seq<Coord>, i: int): Coord
    requires 0 <= i < |nodes|
  {
    if i > 0 then nodes[i - 1] else nodes[|nodes| - 1]
  }

  /** The two neighbours are the source's modular indices. */
  lemma CyclicIndices(nodes: seq<Coord>, i: int)
    requires 0 <= i < |nodes|
    ensures After(nodes, i) == nodes[(i + 1) % |nodes|]
    ensures Preceding(nodes, i) == nodes[(i + |nodes| - 1) % |nodes|]
  {
    var n := |nodes|;
    if i + 1 < n {
      ModBelow(i + 1, n);
    } else {
      ModShift(0, n);
    }
    if i > 0 {
      ModShift(i - 1, n);
    } else {
      ModBelow(n - 1, n);
    }
  }

  lemma ModBelow(a: int, n: int)
    requires 0 <= a < n
    ensures a % n == a
  {
  }

  lemma ModShift(a: int, n: int)
    requires 0 <= a < n
    ensures (a + n) % n == a
  {
    var q, r := (a + n) / n, (a + n) % n;
    assert a + n == q * n + r && 0 <= r < n;
  }

  /** The direction `compute_main_loop` gives loop node `i`: the row of the
      node after it minus the row of the node before it, so +1 or +2 going
      south and -1 or -2 going north. */
  function Direction(nodes: seq<Coord>, i: int): int
    requires 0 <= i < |nodes|
  {
    After(nodes, i).row - Preceding(nodes, i).row
  }

  /** No loop node before index `end` and after node `i` repeats node `i`. */
  predicate LastBefore(nodes: seq<Coord>, i: int, end: int)
    requires 0 <= i < |nodes| && end <= |nodes|
  {
    forall k :: i < k < end ==> nodes[k] != nodes[i]
  }

  /** No later loop node repeats node `i`, so its entry in the map is the
      one written last. */
  predicate LastOccurrence(nodes: seq<Coord>, i: int)
    requires 0 <= i < |nodes|
  {
    LastBefore(nodes, i, |nodes|)
  }

  /** The second loop of `compute_main_loop`: each node mapped to its
      direction, a later duplicate overwriting an earlier one. */
  method LoopDirections(nodes: seq<Coord>) returns (directions: map<Coord, int>)
    requires |nodes| > 0
    ensures DirectionsOf(nodes, directions)
  {
    directions := map[];
    for i := 0 to |nodes|
      invariant DirectionsUpTo(nodes, directions, i)
    {
      DirectionsStep(nodes, directions, i);
      directions := directions[nodes[i] := Direction(nodes, i)];
    }
    assert nodes[..|nodes|] == nodes;
  }

  /** The map after the first `i` nodes: those nodes, each to the direction
      of its last occurrence so far. */
  ghost predicate DirectionsUpTo(nodes: seq<Coord>, directions: map<Coord, int>, i: int)
    requires 0 <= i <= |nodes|
  {
    (forall c :: c in directions <==> c in nodes[..i]) &&
    forall j {:trigger LastBefore(nodes, j, i)} ::
      0 <= j < i && LastBefore(nodes, j, i) ==> directions[nodes[j]] == Direction(nodes, j)
  }

  /** Writing node `i` keeps the entries of the nodes before it that it
      does not repeat. */
  lemma DirectionsStep(nodes: seq<Coord>, directions: map<Coord, int>, i: int)
    requires 0 <= i < |nodes| && DirectionsUpTo(nodes, directions, i)
    ensures DirectionsUpTo(nodes, directions[nodes[i] := Direction(nodes, i)], i + 1)
  {
    var after := directions[nodes[i] := Direction(nodes, i)];
    assert forall c :: c in after <==> c in nodes[..i + 1] by {
      assert nodes[..i + 1] == nodes[..i] + [nodes[i]];
    }
    forall j | 0 <= j < i + 1 && LastBefore(nodes, j, i + 1)
      ensures after[nodes[j]] == Direction(nodes, j)
    {
      if j < i {
        assert nodes[i] != nodes[j];
        assert LastBefore(nodes, j, i);
      }
    }
  }

  predicate OneApart(a: Coord, b: Coord)
  {
    Abs(a.row - b.row) + Abs(a.col - b.col) == 1
  }

  /** Every node of a closed loop is one step from the node after it, the
      last from the first included. */
  lemma ClosedLoopSteps(m: Map, adj: seq<seq<seq<Coord>>>, start: Coord, nodes: seq<Coord>)
    requires WellFormed(m) && IsAdjacency(m, adj)
    requires IsTrace(adj, start, nodes) && Successor(adj, nodes, |nodes| - 1) == Some(start)
    ensures forall i {:trigger After(nodes, i)} :: 0 <= i < |nodes| ==> OneApart(nodes[i], After(nodes, i))
  {
    forall i | 0 <= i < |nodes|
      ensures OneApart(nodes[i], After(nodes, i))
    {
      TraceStepIsEdge(adj, start, nodes, i);
      AdjacentEdge(m, adj, nodes[i], After(nodes, i));
    }
  }

  /** On a closed trace each node's cyclic successor is one of its edges. */
  lemma TraceStepIsEdge(adj: seq<seq<seq<Coord>>>, start: Coord, nodes: seq<Coord>, i: nat)
    requires IsTrace(adj, start, nodes) && Successor(adj, nodes, |nodes| - 1) == Some(start)
    requires i < |nodes|
    ensures After(nodes, i) in EdgesAt(adj, nodes[i])
  {
    assert Successor(adj, nodes, i) == Some(After(nodes, i));
  }

  /** An edge in the matrix joins cells one step apart. */
  lemma AdjacentEdge(m: Map, adj: seq<seq<seq<Coord>>>, c: Coord, n: Coord)
    requires WellFormed(m) && IsAdjacency(m, adj) && n in EdgesAt(adj, c)
    ensures OneApart(c, n)
  {
    assert IsEdgeRow(m, c.row, adj[c.row]);
    EdgesShape(m, Coord(c.row, c.col));
  }

  /** On a closed loop every direction lies between -2 and 2. */
  lemma DirectionsBounded(m: Map, adj: seq<seq<seq<Coord>>>, start: Coord, nodes: seq<Coord>)
    requires WellFormed(m) && IsAdjacency(m, adj)
    requires IsTrace(adj, start, nodes) && Successor(adj, nodes, |nodes| - 1) == Some(start)
    ensures forall i :: 0 <= i < |nodes| ==> -2 <= Direction(nodes, i) <= 2
  {
    ClosedLoopSteps(m, adj, start, nodes);
    forall i | 0 <= i < |nodes|
      ensures -2 <= Direction(nodes, i) <= 2
    {
      var j := if i > 0 then i - 1 else |nodes| - 1;
      assert After(nodes, j) == nodes[i];
      assert OneApart(nodes[j], nodes[i]);
      assert OneApart(nodes[i], After(nodes, i));
    }
  }

  /** `directions` maps exactly the loop's nodes, each to the direction of
      its last occurrence. */
  ghost predicate DirectionsOf(nodes: seq<Coord>, directions: map<Coord, int>)
  {
    (forall c :: c in directions <==> c in nodes) &&
    forall i {:trigger LastOccurrence(nodes, i)} ::
      0 <= i < |nodes| && LastOccurrence(nodes, i) ==> directions[nodes[i]] == Direction(nodes, i)
  }

  /** `compute_main_loop` once the start is found: the loop traced from
      `start` and its directions, `None` where the trace panics or does not
      close within `fuel` steps. */
  method MainLoopFrom(adj: seq<seq<seq<Coord>>>, start: Coord, fuel: nat)
    returns (r: Option<map<Coord, int>>, ghost nodes: seq<Coord>)
    ensures IsTrace(adj, start, nodes)
    ensures r.Some? ==> Successor(adj, nodes, |nodes| - 1) == Some(start) && DirectionsOf(nodes, r.value)
    ensures r.None? ==> |nodes| == fuel + 1 || Successor(adj, nodes, |nodes| - 1) == None
  {
    var trace := TraceMainLoop(adj, start, fuel);
    nodes := trace.nodes;
    if !trace.Closed? {
      return None, nodes;
    }
    var directions := LoopDirections(trace.nodes);
    return Some(directions), nodes;
  }

  /** `compute_main_loop`: the loop from the first start tile and its
      directions; `None` where the source panics or the loop does not close
      within `fuel` steps. */
  method ComputeMainLoop(m: Map, adj: seq<seq<seq<Coord>>>, fuel: nat)
    returns (r: Option<map<Coord, int>>, ghost start: Coord, ghost nodes: seq<Coord>)
    ensures r.Some? ==> IsFirstStart(m, start)
    ensures r.Some? ==> IsTrace(adj, start, nodes) && Successor(adj, nodes, |nodes| - 1) == Some(start)
    ensures r.Some? ==> DirectionsOf(nodes, r.value)
    ensures r.None? && HasStart(m) ==>
      IsFirstStart(m, start) && IsTrace(adj, start, nodes) &&
      (|nodes| == fuel + 1 || Successor(adj, nodes, |nodes| - 1) == None)
  {
    var found := FindStart(m);
    if found.None? {
      return None, Coord(0, 0), [];
    }
    start := found.value;
    r, nodes := MainLoopFrom(adj, found.value, fuel);
  }

  /** The directions of the loop cells left of column `x` in row `y`. */
  function Crossings(loop: map<Coord, int>, y: int, x: int): int
    decreases x
  {
    if x <= 0 then 0
    else Crossings(loop, y, x - 1) + (if Coord(y, x - 1) in loop then loop[Coord(y, x - 1)] else 0)
  }

  /** A cell of the map off the loop whose row, to its left, crosses the
      loop a non-zero net number of times. */
  predicate Enclosed(m: Map, loop: map<Coord, int>, c: Coord)
  {
    0 <= c.row < m.height && 0 <= c.col < m.width && c !in loop && Crossings(loop, c.row, c.col) != 0
  }

  /** The inner loop of `compute_tiles_contained_by_main_loop` over row `y`:
      its enclosed cells from left to right. */
  method ContainedInRow(m: Map, loop: map<Coord, int>, y: int) returns (tiles: seq<Coord>)
    requires 0 <= y < m.height
    ensures forall c :: c in tiles <==> Enclosed(m, loop, c) && c.row == y
    ensures forall i :: 0 <= i < |tiles| ==> tiles[i].row == y
    ensures forall i, j :: 0 <= i < j < |tiles| ==> tiles[i].col < tiles[j].col
  {
    tiles := [];
    var crosses := 0;
    for x := 0 to m.width
      invariant crosses == Crossings(loop, y, x)
      invariant RowScanned(m, loop, y, x, tiles)
    {
      var c := Coord(y, x);
      RowScanStep(m, loop, y, x, tiles);
      if c in loop {
        crosses := crosses + loop[c];
      } else if crosses != 0 {
        tiles := tiles + [c];
      }
    }
  }

  /** `tiles` are the enclosed cells of row `y` left of column `x`, from left to right. */
  ghost predicate RowScanned(m: Map, loop: map<Coord, int>, y: int, x: int, tiles: seq<Coord>)
  {
    && (forall c :: c in tiles <==> Enclosed(m, loop, c) && c.row == y && c.col < x)
    && (forall i :: 0 <= i < |tiles| ==> tiles[i].row == y && tiles[i].col < x)
    && (forall i, j :: 0 <= i < j < |tiles| ==> tiles[i].col < tiles[j].col)
  }

  lemma RowScanStep(m: Map, loop: map<Coord, int>, y: int, x: int, tiles: seq<Coord>)
    requires 0 <= y < m.height && 0 <= x < m.width && RowScanned(m, loop, y, x, tiles)
    ensures var c := Coord(y, x);
      RowScanned(m, loop, y, x + 1,
                 if c !in loop && Crossings(loop, y, x) != 0 then tiles + [c] else tiles)
  {
    var c := Coord(y, x);
    if c !in loop && Crossings(loop, y, x) != 0 {
      var t := tiles + [c];
      forall d ensures d in t <==> Enclosed(m, loop, d) && d.row == y && d.col < x + 1 {
        assert d in t <==> d in tiles || d == c;
      }
      forall i | 0 <= i < |t| ensures t[i].row == y && t[i].col < x + 1 {
        if i < |tiles| { assert t[i] == tiles[i]; }
      }
      forall i, j | 0 <= i < j < |t| ensures t[i].col < t[j].col {
        if j < |tiles| { assert t[i] == tiles[i] && t[j] == tiles[j]; }
        else { assert t[i] == tiles[i]; }
      }
    } else {
      forall d ensures d in tiles <==> Enclosed(m, loop, d) && d.row == y && d.col < x + 1 {
        if d == c { assert !Enclosed(m, loop, d); }
      }
    }
  }

  /** `compute_tiles_contained_by_main_loop`: the enclosed cells in
      row-major order, each once. */
  method ContainedTiles(m: Map, loop: map<Coord, int>) returns (tiles: seq<Coord>)
    ensures forall c :: c in tiles <==> Enclosed(m, loop, c)
    ensures forall i, j :: 0 <= i < j < |tiles| ==> Before(tiles[i], tiles[j])
  {
    tiles := [];
    for y := 0 to m.height
      invariant forall c :: c in tiles <==> Enclosed(m, loop, c) && c.row < y
      invariant forall i :: 0 <= i < |tiles| ==> tiles[i].row < y
      invariant forall i, j :: 0 <= i < j < |tiles| ==> Before(tiles[i], tiles[j])
    {
      var row := ContainedInRow(m, loop, y);
      tiles := tiles + row;
    }
  }

  /** The five-by-five map of the adjacency test: a square loop through
      rows and columns 1 to 3 with the start at its north-west corner. */
  function Square(): Map
  {
    var g, s, h, v := Ground, Start, EastWest, NorthSouth;
    Map([[g, g, g, g, g],
         [g, s, h, SouthWest, g],
         [g, v, g, v, g],
         [g, NorthEast, h, NorthWest, g],
         [g, g, g, g, g]], 5, 5)
  }

  /** A row whose characters are those written for `row` parses to it. */
  lemma ParseWrittenRow(row: seq<Tile>, line: string)
    requires |line| == |row| && forall i :: 0 <= i < |row| ==> line[i] == TileChar(row[i])
    ensures ParseRow(line, |row|) == Ok(row)
  {
    assert line == seq(|row|, x requires 0 <= x < |row| => TileChar(row[x]));
    ParseShowRow(row, line);
  }

  /** The rows of the test's text, each parsed on its own. */
  lemma SquareBorderRow(line: string)
    requires line == "....."
    ensures ParseRow(line, 5) == Ok(Square().tiles[0])
  {
    ParseWrittenRow(Square().tiles[0], line);
  }

  lemma SquareTopRow(line: string)
    requires line == ".S-7."
    ensures ParseRow(line, 5) == Ok(Square().tiles[1])
  {
    ParseWrittenRow(Square().tiles[1], line);
  }

  lemma SquareMiddleRow(line: string)
    requires line == ".|.|."
    ensures ParseRow(line, 5) == Ok(Square().tiles[2])
  {
    ParseWrittenRow(Square().tiles[2], line);
  }

  lemma SquareBottomRow(line: string)
    requires line == ".L-J."
    ensures ParseRow(line, 5) == Ok(Square().tiles[3])
  {
    ParseWrittenRow(Square().tiles[3], line);
  }

  /** Lines that each parse to a row of a grid parse to the map of that
      grid. */
  lemma ParseRows(lines: seq<string>, rows: seq<seq<Tile>>)
    requires |lines| == |rows| > 0
    requires forall y :: 0 <= y < |lines| ==> ParseRow(lines[y], |lines[0]|) == Ok(rows[y])
    ensures ParseInput(lines) == Ok(Map(rows, |lines[0]|, |lines|))
  {
    var r := ParseInput(lines);
    assert r.Ok?;
    assert r.value.tiles == rows;
  }

  /** The test's text parses to that map. */
  lemma SquareParses(lines: seq<string>)
    requires |lines| == 5 && lines[0] == "....." && lines[1] == ".S-7." && lines[2] == ".|.|."
    requires lines[3] == ".L-J." && lines[4] == "....."
    ensures ParseInput(lines) == Ok(Square())
  {
    var rows := Square().tiles;
    SquareBorderRow(lines[0]);
    SquareTopRow(lines[1]);
    SquareMiddleRow(lines[2]);
    SquareBottomRow(lines[3]);
    SquareBorderRow(lines[4]);
    assert rows[4] == rows[0];
    forall y | 0 <= y < |lines|
      ensures ParseRow(lines[y], |lines[0]|) == Ok(rows[y])
    {
      assert y == 0 || y == 1 || y == 2 || y == 3 || y == 4;
    }
    ParseRows(lines, rows);
  }

  /** A pipe with both neighbours it opens to inside the grid has exactly
      those two edges, in the order of its openings. */
  lemma InnerPipeEdges(m: Map, c: Coord)
    requires InBounds(m, c)
    requires m.tiles[c.row][c.col] !in {Ground, Start}
    requires forall d :: d in Openings(m.tiles[c.row][c.col]) ==> InBounds(m, Step(c, d))
    ensures Edges(m, c) == [Step(c, Openings(m.tiles[c.row][c.col])[0]), Step(c, Openings(m.tiles[c.row][c.col])[1])]
  {
    var ds := Openings(m.tiles[c.row][c.col]);
    assert |ds| == 2 && ds[0] in ds && ds[1] in ds;
    assert Admits(m, c, ds[0], false) && Admits(m, c, ds[1], false);
    assert ds[..1][..0] == [] && ds[..1][0] == ds[0];
    assert Kept(m, c, ds[..1], false) == [Step(c, ds[0])];
    assert ds[..|ds| - 1] == ds[..1];
    assert Kept(m, c, ds, false) == [Step(c, ds[0]), Step(c, ds[1])];
    assert Candidates(m.tiles[c.row][c.col]) == ds;
  }

  /** The corner has no edges; the start links to the pipes south and east
      of it, and the north-east corner to the pipes south and west. */
  lemma SquareEdges(m: Map)
    requires m == Square()
    ensures Edges(m, Coord(0, 0)) == []
    ensures Edges(m, Coord(1, 1)) == [Coord(2, 1), Coord(1, 2)]
    ensures Edges(m, Coord(1, 3)) == [Coord(2, 3), Coord(1, 2)]
  {
    var c := Coord(1, 1);
    var all := [North, South, East, West];
    assert !Admits(m, c, North, true);
    assert Admits(m, c, South, true);
    assert Admits(m, c, East, true);
    assert !Admits(m, c, West, true);
    assert all[..1][..0] == [] && all[..2][..1] == all[..1] && all[..3][..2] == all[..2] && all[..4][..3] == all[..3];
    assert all[..4] == all;
    assert Kept(m, c, all[..1], true) == [];
    assert Kept(m, c, all[..2], true) == [Coord(2, 1)];
    assert Kept(m, c, all[..3], true) == [Coord(2, 1), Coord(1, 2)];
    InnerPipeEdges(m, Coord(1, 3));
  }

  /** The nodes of the square loop in the order they are traced. */
  function SquareLoop(): seq<Coord>
  {
    [Coord(1, 1), Coord(2, 1), Coord(3, 1), Coord(3, 2), Coord(3, 3), Coord(2, 3), Coord(1, 3), Coord(1, 2)]
  }

  /** An entry of the adjacency matrix of a map is that cell's edge list. */
  lemma AdjacencyEntry(m: Map, adj: seq<seq<seq<Coord>>>, c: Coord)
    requires WellFormed(m) && IsAdjacency(m, adj) && InBounds(m, c)
    ensures EdgesAt(adj, c) == Edges(m, c)
  {
    assert IsEdgeRow(m, c.row, adj[c.row]);
    assert c == Coord(c.row, c.col);
  }

  /** The adjacency entry of a pipe of the square whose neighbours are on
      the grid lists the cells its two openings lead to. */
  lemma SquarePipe(adj: seq<seq<seq<Coord>>>, c: Coord)
    requires IsAdjacency(Square(), adj) && InBounds(Square(), c)
    requires Square().tiles[c.row][c.col] !in {Ground, Start}
    requires forall d :: d in Openings(Square().tiles[c.row][c.col]) ==> InBounds(Square(), Step(c, d))
    ensures EdgesAt(adj, c) ==
      [Step(c, Openings(Square().tiles[c.row][c.col])[0]), Step(c, Openings(Square().tiles[c.row][c.col])[1])]
  {
    AdjacencyEntry(Square(), adj, c);
    InnerPipeEdges(Square(), c);
  }

  /** The edge lists along the square loop: the start and its corner
      opposite, */
  lemma SquareCornerEdges(adj: seq<seq<seq<Coord>>>)
    requires IsAdjacency(Square(), adj)
    ensures EdgesAt(adj, Coord(1, 1)) == [Coord(2, 1), Coord(1, 2)]
    ensures EdgesAt(adj, Coord(1, 3)) == [Coord(2, 3), Coord(1, 2)]
  {
    SquareEdges(Square());
    AdjacencyEntry(Square(), adj, Coord(1, 1));
    AdjacencyEntry(Square(), adj, Coord(1, 3));
  }

  /** the west and south sides, */
  lemma SquareWestEdges(adj: seq<seq<seq<Coord>>>)
    requires IsAdjacency(Square(), adj)
    ensures EdgesAt(adj, Coord(2, 1)) == [Coord(1, 1), Coord(3, 1)]
    ensures EdgesAt(adj, Coord(3, 1)) == [Coord(2, 1), Coord(3, 2)]
    ensures EdgesAt(adj, Coord(3, 2)) == [Coord(3, 3), Coord(3, 1)]
  {
    SquarePipe(adj, Coord(2, 1));
    SquarePipe(adj, Coord(3, 1));
    SquarePipe(adj, Coord(3, 2));
  }

  /** and the east and north sides. */
  lemma SquareEastEdges(adj: seq<seq<seq<Coord>>>)
    requires IsAdjacency(Square(), adj)
    ensures EdgesAt(adj, Coord(3, 3)) == [Coord(2, 3), Coord(3, 2)]
    ensures EdgesAt(adj, Coord(2, 3)) == [Coord(1, 3), Coord(3, 3)]
    ensures EdgesAt(adj, Coord(1, 2)) == [Coord(1, 3), Coord(1, 1)]
  {
    SquarePipe(adj, Coord(3, 3));
    SquarePipe(adj, Coord(2, 3));
    SquarePipe(adj, Coord(1, 2));
  }

  /** On a pipe's two edges the walk takes the one it did not come from. */
  lemma NextOfPair(a: Coord, b: Coord, prev: Coord)
    ensures prev == a && b != a ==> NextNode([a, b], prev) == Some(b)
    ensures prev != a ==> NextNode([a, b], prev) == Some(a)
  {
    if prev == a && b != a {
      assert [a, b][1..] == [b];
      assert NextNode([b], prev) == Some(b);
    }
  }

  /** Given those edge lists the walk from the start closes after eight
      nodes. */
  lemma SquareTraceCloses(adj: seq<seq<seq<Coord>>>)
    requires EdgesAt(adj, Coord(1, 1)) == [Coord(2, 1), Coord(1, 2)]
    requires EdgesAt(adj, Coord(2, 1)) == [Coord(1, 1), Coord(3, 1)]
    requires EdgesAt(adj, Coord(3, 1)) == [Coord(2, 1), Coord(3, 2)]
    requires EdgesAt(adj, Coord(3, 2)) == [Coord(3, 3), Coord(3, 1)]
    requires EdgesAt(adj, Coord(3, 3)) == [Coord(2, 3), Coord(3, 2)]
    requires EdgesAt(adj, Coord(2, 3)) == [Coord(1, 3), Coord(3, 3)]
    requires EdgesAt(adj, Coord(1, 3)) == [Coord(2, 3), Coord(1, 2)]
    requires EdgesAt(adj, Coord(1, 2)) == [Coord(1, 3), Coord(1, 1)]
    ensures IsTrace(adj, Coord(1, 1), SquareLoop())
    ensures Successor(adj, SquareLoop(), 7) == Some(Coord(1, 1))
  {
    var nodes := SquareLoop();
    NextOfPair(Coord(1, 1), Coord(3, 1), Coord(1, 1));
    NextOfPair(Coord(2, 1), Coord(3, 2), Coord(2, 1));
    NextOfPair(Coord(2, 3), Coord(1, 2), Coord(2, 3));
    SquareLoopDistinct();
    forall i | 0 <= i < |nodes| - 1
      ensures Successor(adj, nodes, i) == Some(nodes[i + 1])
    {
      assert i == 0 || i == 1 || i == 2 || i == 3 || i == 4 || i == 5 || i == 6;
    }
  }

  /** The trace of the square runs round its eight pipes and closes. */
  lemma SquareTrace(adj: seq<seq<seq<Coord>>>)
    requires IsAdjacency(Square(), adj)
    ensures IsTrace(adj, Coord(1, 1), SquareLoop())
    ensures Successor(adj, SquareLoop(), 7) == Some(Coord(1, 1))
  {
    SquareCornerEdges(adj);
    SquareWestEdges(adj);
    SquareEastEdges(adj);
    SquareTraceCloses(adj);
  }

  /** A map from the nodes of a loop without repeats has one entry per
      node. */
  lemma {:induction false} DistinctDirections(nodes: seq<Coord>, directions: map<Coord, int>)
    requires |nodes| > 0 && DirectionsOf(nodes, directions)
    requires forall i, j :: 0 <= i < j < |nodes| ==> nodes[i] != nodes[j]
    ensures |directions| == |nodes|
  {
    assert directions.Keys == ElementsOf(nodes);
    DistinctElements(nodes);
  }

  function ElementsOf(s: seq<Coord>): (r: set<Coord>)
    ensures forall c :: c in r <==> c in s
  {
    if s == [] then {} else ElementsOf(s[..|s| - 1]) + {s[|s| - 1]}
  }

  lemma {:induction false} DistinctElements(s: seq<Coord>)
    requires forall i, j :: 0 <= i < j < |s| ==> s[i] != s[j]
    ensures |ElementsOf(s)| == |s|
  {
    if s != [] {
      var init := s[..|s| - 1];
      assert forall i, j :: 0 <= i < j < |init| ==> init[i] != init[j] by {
        forall i, j | 0 <= i < j < |init|
          ensures init[i] != init[j]
        {
          assert init[i] == s[i] && init[j] == s[j];
        }
      }
      DistinctElements(init);
      assert s[|s| - 1] !in init;
    }
  }

  /** The position of a cell on the square loop. */
  function SquareRank(c: Coord): (r: nat)
    ensures r < 8 ==> SquareLoop()[r] == c
  {
    if c == Coord(1, 1) then 0
    else if c == Coord(2, 1) then 1
    else if c == Coord(3, 1) then 2
    else if c == Coord(3, 2) then 3
    else if c == Coord(3, 3) then 4
    else if c == Coord(2, 3) then 5
    else if c == Coord(1, 3) then 6
    else if c == Coord(1, 2) then 7
    else 8
  }

  /** The square loop visits no cell twice. */
  lemma SquareLoopDistinct()
    ensures forall i, j :: 0 <= i < j < |SquareLoop()| ==> SquareLoop()[i] != SquareLoop()[j]
  {
    var nodes := SquareLoop();
    forall i | 0 <= i < |nodes|
      ensures SquareRank(nodes[i]) == i
    {
      assert i == 0 || i == 1 || i == 2 || i == 3 || i == 4 || i == 5 || i == 6 || i == 7;
    }
  }

  /** The loop's map has the eight entries the test counts. */
  lemma SquareLoopSize(directions: map<Coord, int>)
    requires DirectionsOf(SquareLoop(), directions)
    ensures |directions| == 8
  {
    SquareLoopDistinct();
    DistinctDirections(SquareLoop(), directions);
  }
}
