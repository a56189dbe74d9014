/** Day 18: a dig plan walked one metre at a time, and the lagoon's size by
    the shoelace formula plus half the perimeter. */
module Day18 {
  import opened Common

  datatype Coord = Coord(x: int, y: int)

  /** One line of the plan; the colour is parsed but never used when
      digging, so it is left out. */
  datatype Instruction = Instruction(direction: char, distance: int)

  const Origin := Coord(0, 0)

  predicate Known(d: char)
  {
    d == 'L' || d == 'R' || d == 'U' || d == 'D'
  }

  /** `n` metres from `p` in direction `d`: L and R change x, U adds to y
      and D takes from it. */
  function Move(p: Coord, d: char, n: int): Coord
  {
    match d
    case 'L' => Coord(p.x - n, p.y)
    case 'R' => Coord(p.x + n, p.y)
    case 'U' => Coord(p.x, p.y + n)
    case 'D' => Coord(p.x, p.y - n)
    case _ => p
  }

  /** One metre of digging; None for a letter the source panics on. */
  function Step(p: Coord, d: char): (r: Option<Coord>)
    ensures r.Some? <==> Known(d)
    ensures r.Some? ==> r.value == Move(p, d, 1) && Manhattan(p, r.value) == 1
  {
    if Known(d) then Some(Move(p, d, 1)) else None
  }

  function Manhattan(a: Coord, b: Coord): nat
  {
    Abs(a.x - b.x) + Abs(a.y - b.y)
  }

  /** How many metres an instruction digs: a range `0..distance` is empty
      when the distance is not positive. */
  function Metres(i: Instruction): nat
  {
    if i.distance > 0 then i.distance else 0
  }

  /** The plan's position and holes after its instructions, or None when an
      instruction with an unknown letter digs at least once (a panic). */
  function Run(plan: seq<Instruction>): Option<(Coord, seq<Coord>)>
  {
    if plan == [] then Some((Origin, []))
    else
      var prev := Run(plan[..|plan| - 1]);
      if prev.None? then None
      else
        var (p, h) := prev.value;
        var seg := Segment(p, plan[|plan| - 1]);
        if seg.None? then None else Some((seg.value.0, h + seg.value.1))
  }

  /** The end and the holes of one instruction from `p`: one hole per metre
      along a straight line; None when it digs with an unknown letter. */
  function Segment(p: Coord, ins: Instruction): Option<(Coord, seq<Coord>)>
  {
    if Metres(ins) > 0 && !Known(ins.direction) then None
    else Some((Move(p, ins.direction, Metres(ins)), Line(p, ins.direction, Metres(ins))))
  }

  /** The `n` blocks after `p` in direction `d`. */
  function Line(p: Coord, d: char, n: nat): seq<Coord>
  {
    seq(n, k => Move(p, d, k + 1))
  }

  /** The inner loop of `run_instructions` for one instruction: `distance`
      times, move one metre and record the new position. */
  method DigSegment(pos: Coord, holes: seq<Coord>, ins: Instruction)
    returns (r: Option<(Coord, seq<Coord>)>)
    ensures Segment(pos, ins).None? ==> r.None?
    ensures Segment(pos, ins).Some? ==>
      r == Some((Segment(pos, ins).value.0, holes + Segment(pos, ins).value.1))
  {
    var at, dug := pos, holes;
    var j := 0;
    while j < ins.distance
      invariant 0 <= j <= Metres(ins)
      invariant j > 0 ==> Known(ins.direction)
      invariant at == Move(pos, ins.direction, j)
      invariant dug == holes + Line(pos, ins.direction, j)
    {
      var next := Step(at, ins.direction);
      if next.None? {
        return None;
      }
      LineGrows(pos, ins.direction, j);
      at := next.value;
      dug := dug + [at];
      j := j + 1;
    }
    return Some((at, dug));
  }

  lemma LineGrows(p: Coord, d: char, j: nat)
    ensures Line(p, d, j + 1) == Line(p, d, j) + [Move(p, d, j + 1)]
    ensures Move(Move(p, d, j), d, 1) == Move(p, d, j + 1)
  {
  }

  /** The holes of `run_instructions`. */
  function Dug(plan: seq<Instruction>): Option<seq<Coord>>
  {
    match Run(plan)
    case None => None
    case Some((_, h)) => Some(h)
  }

  /** `run_instructions`: the instructions in order, each digging from
      where the last one stopped. */
  method RunInstructions(plan: seq<Instruction>) returns (r: Option<seq<Coord>>)
    ensures r == Dug(plan)
  {
    var holes: seq<Coord> := [];
    var pos := Origin;
    for i := 0 to |plan|
      invariant Run(plan[..i]) == Some((pos, holes))
    {
      assert plan[..i + 1][..i] == plan[..i];
      var next := DigSegment(pos, holes, plan[i]);
      if next.None? {
        RunStopped(plan, i + 1);
        return None;
      }
      pos, holes := next.value.0, next.value.1;
    }
    assert plan[..|plan|] == plan;
    return Some(holes);
  }

  /** One more instruction digs on from where the plan stopped. */
  lemma RunSnoc(plan: seq<Instruction>, ins: Instruction)
    ensures Run(plan + [ins]) ==
      if Run(plan).None? || Segment(Run(plan).value.0, ins).None? then None
      else Some((Segment(Run(plan).value.0, ins).value.0,
                 Run(plan).value.1 + Segment(Run(plan).value.0, ins).value.1))
  {
    assert (plan + [ins])[..|plan|] == plan;
  }

  /** A plan that panics on a prefix panics. */
  lemma {:induction false} RunStopped(plan: seq<Instruction>, n: nat)
    requires n <= |plan| && Run(plan[..n]).None?
    ensures Run(plan).None?
    decreases |plan| - n
  {
    if n < |plan| {
      assert plan[..n + 1][..n] == plan[..n];
      RunStopped(plan, n + 1);
    } else {
      assert plan[..n] == plan;
    }
  }

  // ---------------------------------------------------------------------
  // Properties of the dig

  /** The metres of all instructions. */
  function Total(plan: seq<Instruction>): nat
  {
    if plan == [] then 0 else Total(plan[..|plan| - 1]) + Metres(plan[|plan| - 1])
  }

  /** Digging fails exactly when some instruction with an unknown letter
      would dig. */
  lemma {:induction false} RunPanics(plan: seq<Instruction>)
    ensures Run(plan).None? <==> exists i :: 0 <= i < |plan| && Metres(plan[i]) > 0 && !Known(plan[i].direction)
    decreases |plan|
  {
    if plan != [] {
      var init := plan[..|plan| - 1];
      RunPanics(init);
      assert forall i :: 0 <= i < |init| ==> init[i] == plan[i];
    }
  }

  /** One hole per metre: the holes number the plan's total distance. */
  lemma {:induction false} RunLength(plan: seq<Instruction>)
    requires Run(plan).Some?
    ensures |Run(plan).value.1| == Total(plan)
    decreases |plan|
  {
    if plan != [] {
      RunLength(plan[..|plan| - 1]);
    }
  }

  /** Every hole is one metre from the one before, the first one metre from
      the origin (so the origin itself is not the first hole). */
  ghost predicate Chain(start: Coord, h: seq<Coord>)
  {
    (h != [] ==> Manhattan(start, h[0]) == 1) &&
    forall i :: 0 < i < |h| ==> Manhattan(h[i - 1], h[i]) == 1
  }

  /** The holes form a chain of one-metre steps from the origin, and the
      position is the last hole (the origin when nothing was dug). */
  lemma {:induction false} RunChain(plan: seq<Instruction>)
    requires Run(plan).Some?
    ensures Chain(Origin, Run(plan).value.1)
    ensures Run(plan).value.0 == if Run(plan).value.1 == [] then Origin else Last(Run(plan).value.1)
    decreases |plan|
  {
    if plan != [] {
      var init := plan[..|plan| - 1];
      RunChain(init);
      var (p, h) := Run(init).value;
      var ins := plan[|plan| - 1];
      var s := Line(p, ins.direction, Metres(ins));
      SegmentChain(p, ins.direction, Metres(ins));
      ChainAppend(Origin, h, p, s);
    }
  }

  function Last(h: seq<Coord>): Coord
    requires h != []
  {
    h[|h| - 1]
  }

  /** A straight run of known direction is a chain from where it starts. */
  lemma SegmentChain(p: Coord, d: char, n: nat)
    requires n > 0 ==> Known(d)
    ensures Chain(p, Line(p, d, n))
    ensures n > 0 ==> Last(Line(p, d, n)) == Move(p, d, n)
  {
  }

  /** Chains glue where the first ends. */
  lemma ChainAppend(start: Coord, h: seq<Coord>, p: Coord, s: seq<Coord>)
    requires Chain(start, h) && p == (if h == [] then start else Last(h)) && Chain(p, s)
    ensures Chain(start, h + s)
  {
    var t := h + s;
    forall i | 0 < i < |t|
      ensures Manhattan(t[i - 1], t[i]) == 1
    {
      if i > |h| {
        assert t[i - 1] == s[i - 1 - |h|] && t[i] == s[i - |h|];
      } else if i == |h| {
        assert t[i] == s[0];
      }
    }
  }

  // ---------------------------------------------------------------------
  // Shoelace

  /** The cross term of the shoelace sum. */
  function Cross(p1: Coord, p2: Coord): int
  {
    p1.y * p2.x - p1.x * p2.y
  }

  /** The fold of `shoelace_formula` over the first `k` points, each paired
      with its cyclic successor: the cross sum and the perimeter. */
  function AreaSum(points: seq<Coord>, k: nat): int
    requires k <= |points|
  {
    if k == 0 then 0
    else AreaSum(points, k - 1) + Cross(points[k - 1], points[k % |points|])
  }

  function PerimeterSum(points: seq<Coord>, k: nat): (r: int)
    requires k <= |points|
    ensures r >= 0
  {
    if k == 0 then 0
    else PerimeterSum(points, k - 1) + Manhattan(points[k - 1], points[k % |points|])
  }

  /** `shoelace_formula`: half of |cross sum| + perimeter, plus one; both
      sums are non-negative after `abs`, so isize's truncating division
      agrees with Dafny's. */
  function Shoelace(points: seq<Coord>): (r: int)
    ensures r >= 1
  {
    (Abs(AreaSum(points, |points|)) + PerimeterSum(points, |points|)) / 2 + 1
  }

  /** The same sums over consecutive pairs of an open path. */
  function PathArea(ps: seq<Coord>): int
  {
    if |ps| < 2 then 0 else PathArea(ps[..|ps| - 1]) + Cross(ps[|ps| - 2], ps[|ps| - 1])
  }

  function PathLength(ps: seq<Coord>): int
  {
    if |ps| < 2 then 0 else PathLength(ps[..|ps| - 1]) + Manhattan(ps[|ps| - 2], ps[|ps| - 1])
  }

  /** Before the last point, the cyclic successor is the next point. */
  lemma {:induction false} SumsArePath(points: seq<Coord>, k: nat)
    requires 0 < k < |points|
    ensures AreaSum(points, k) == PathArea(points[..k + 1])
    ensures PerimeterSum(points, k) == PathLength(points[..k + 1])
  {
    assert k % |points| == k;
    if k > 1 {
      SumsArePath(points, k - 1);
      assert points[..k + 1][..k] == points[..k];
    }
  }

  /** On a closed list (last point = first point) the wrap-around pair adds
      nothing: the formula is the open path's sums. */
  lemma ClosedNeedsNoWrap(points: seq<Coord>)
    requires |points| >= 2 && points[0] == points[|points| - 1]
    ensures Shoelace(points) == (Abs(PathArea(points)) + PathLength(points)) / 2 + 1
  {
    var n := |points|;
    SumsArePath(points, n - 1);
    assert points[..n] == points;
  }

  /** A chain of one-metre steps is as long as its number of steps. */
  lemma {:induction false} ChainLength(start: Coord, h: seq<Coord>)
    requires Chain(start, h)
    ensures PathLength([start] + h) == |h|
    decreases |h|
  {
    if h != [] {
      var init := h[..|h| - 1];
      assert Chain(start, init);
      ChainLength(start, init);
      assert ([start] + h)[..|h|] == [start] + init;
    }
  }

  /** The lagoon of `main`: the holes closed by their first one, measured
      by the shoelace formula; None when digging panics or nothing is dug
      (indexing the first hole panics). */
  function Lagoon(plan: seq<Instruction>): (r: Option<int>)
    ensures r.Some? <==> Dug(plan).Some? && Dug(plan).value != []
  {
    var h := Dug(plan);
    if h.None? || h.value == [] then None
    else Some(Shoelace(h.value + [h.value[0]]))
  }

  /** A trench that comes back to the origin: the perimeter term is the
      number of holes, so the lagoon is (|cross sum| + holes) / 2 + 1. */
  lemma ClosedTrench(plan: seq<Instruction>)
    requires Run(plan).Some? && Run(plan).value.0 == Origin && Run(plan).value.1 != []
    ensures var h := Run(plan).value.1;
      PathLength(h + [h[0]]) == |h| &&
      Lagoon(plan) == Some((Abs(PathArea(h + [h[0]])) + |h|) / 2 + 1)
  {
    var h := Run(plan).value.1;
    var ps := h + [h[0]];
    assert PathLength(ps) == |h| by {
      RunChain(plan);
      ClosedPerimeter(h);
    }
    assert Shoelace(ps) == (Abs(PathArea(ps)) + PathLength(ps)) / 2 + 1 by {
      ClosedNeedsNoWrap(ps);
    }
    assert Lagoon(plan) == Some(Shoelace(ps)) by {
      assert Dug(plan) == Some(h);
    }
  }

  /** A chain from the origin that ends at the origin, closed by its first
      block, is as long as its number of blocks. */
  lemma ClosedPerimeter(h: seq<Coord>)
    requires Chain(Origin, h) && h != [] && Last(h) == Origin
    ensures PathLength(h + [h[0]]) == |h|
  {
    ChainLength(Origin, h);
    TailLength(Origin, h);
    var ps := h + [h[0]];
    assert ps[..|ps| - 1] == h;
    if |h| >= 2 {
      assert ps[|ps| - 2] == Origin;
    }
  }

  /** Dropping the first step of a chain drops one from its length. */
  lemma {:induction false} TailLength(start: Coord, h: seq<Coord>)
    requires Chain(start, h) && h != []
    ensures PathLength([start] + h) == PathLength(h) + 1
    decreases |h|
  {
    if |h| > 1 {
      var init := h[..|h| - 1];
      assert Chain(start, init);
      TailLength(start, init);
      assert ([start] + h)[..|h|] == [start] + init;
      assert h[..|h| - 1] == init;
    } else {
      assert [start] + h == [start, h[0]];
    }
  }

  // ---------------------------------------------------------------------
  // Part 2's direction digit

  /** The last hex digit of part 2's colour: 0 R, 1 D, 2 L, 3 U; any other
      character fails to parse. */
  function HexDirection(c: char): (r: Option<char>)
    ensures r.Some? <==> '0' <= c <= '3'
    ensures r.Some? ==> Known(r.value)
  {
    match c
    case '0' => Some('R')
    case '1' => Some('D')
    case '2' => Some('L')
    case '3' => Some('U')
    case _ => None
  }

  /** The table is a bijection between the digits 0..3 and the four
      directions, so a part-2 plan never panics while digging. */
  lemma HexDirectionBijective(c1: char, c2: char, d: char)
    ensures HexDirection(c1).Some? && HexDirection(c2).Some? && c1 != c2 ==>
      HexDirection(c1).value != HexDirection(c2).value
    ensures Known(d) ==> exists c :: '0' <= c <= '3' && HexDirection(c) == Some(d)
  {
    if Known(d) {
      var c := if d == 'R' then '0' else if d == 'D' then '1' else if d == 'L' then '2' else '3';
      assert HexDirection(c) == Some(d);
    }
  }
}
