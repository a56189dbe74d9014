/** Haunted wasteland (day08/src/main.rs).  A walk starts at node AAA and
    follows the left/right instructions over and over until it stands on
    node ZZZ. */
module Day08 {
  import opened Common

  datatype Direction = Left | Right

  /** One character of the instruction line; anything but 'L' and 'R' panics. */
  function DirectionOf(c: char): (r: Option<Direction>)
    ensures r.Some? <==> c == 'L' || c == 'R'
  {
    if c == 'L' then Some(Left) else if c == 'R' then Some(Right) else None
  }

  /** The instruction line of `Map::try_from`. */
  function ParseDirections(line: string): (r: Option<seq<Direction>>)
    ensures r.Some? <==> forall i :: 0 <= i < |line| ==> line[i] == 'L' || line[i] == 'R'
    ensures r.Some? ==> |r.value| == |line|
    ensures r.Some? ==> forall i :: 0 <= i < |line| ==> DirectionOf(line[i]) == Some(r.value[i])
  {
    if line == [] then Some([])
    else match (DirectionOf(line[0]), ParseDirections(line[1..]))
      case (Some(d), Some(ds)) =>
        assert forall i :: 1 <= i < |line| ==> line[i] == line[1..][i - 1];
        Some([d] + ds)
      case (None, _) => None
      case (_, None) =>
        assert forall i :: 0 <= i < |line[1..]| ==> line[1..][i] == line[i + 1];
        None
  }

  function DirectionChar(d: Direction): char
  {
    if d == Left then 'L' else 'R'
  }

  lemma {:induction false} ParseShowDirections(ds: seq<Direction>)
    ensures ParseDirections(seq(|ds|, i requires 0 <= i < |ds| => DirectionChar(ds[i]))) == Some(ds)
  {
    var line := seq(|ds|, i requires 0 <= i < |ds| => DirectionChar(ds[i]));
    var r := ParseDirections(line);
    assert r.Some?;
    assert r.value == ds;
  }

  /** `Node`: a name and the names of its two neighbours. */
  datatype Node = Node(name: string, left: string, right: string)

  /** `Map`: the instructions and the nodes by name. */
  datatype Map = Map(directions: seq<Direction>, nodes: map<string, Node>)

  function Child(n: Node, d: Direction): string
  {
    if d == Left then n.left else n.right
  }

  /** The node reached after `k` steps from `start`, step `i` following
      instruction `i` modulo their number; `None` once a name is missing. */
  function Walk(m: Map, start: Node, k: nat): Option<Node>
    requires |m.directions| > 0
  {
    if k == 0 then Some(start)
    else match Walk(m, start, k - 1)
      case None => None
      case Some(n) =>
        var name := Child(n, m.directions[(k - 1) % |m.directions|]);
        if name in m.nodes then Some(m.nodes[name]) else None
  }

  /** What `steps_to_reach_zzz` ends with: a step count, a panic on a
      missing name, or no answer within the step bound of the model. */
  datatype Outcome = Steps(n: nat) | MissingNode | OutOfFuel

  /** `steps_to_reach_zzz`, run for at most `fuel` steps.  It moves before it
      compares, so the start never counts as arrived; with no instructions the
      cycled iterator is empty and the count stays 0. */
  method StepsToReachZzz(m: Map, fuel: nat) returns (r: Outcome)
    ensures r.Steps? ==> "AAA" in m.nodes && "ZZZ" in m.nodes
    ensures r.Steps? && |m.directions| == 0 ==> r.n == 0
    ensures r.Steps? && |m.directions| > 0 ==>
      r.n <= fuel && ArrivesFirstAt(m, m.nodes["AAA"], m.nodes["ZZZ"], r.n)
    ensures r.MissingNode? && "AAA" in m.nodes && "ZZZ" in m.nodes ==>
      |m.directions| > 0 &&
      exists k :: 1 <= k <= fuel && Walk(m, m.nodes["AAA"], k) == None &&
        forall j :: 1 <= j < k ==> Walk(m, m.nodes["AAA"], j) != Some(m.nodes["ZZZ"])
    ensures r.OutOfFuel? ==> "AAA" in m.nodes && "ZZZ" in m.nodes && |m.directions| > 0
    ensures r.OutOfFuel? ==> forall k :: 1 <= k <= fuel ==>
      Walk(m, m.nodes["AAA"], k).Some? && Walk(m, m.nodes["AAA"], k) != Some(m.nodes["ZZZ"])
  {
    if "AAA" !in m.nodes || "ZZZ" !in m.nodes {
      return MissingNode;
    }
    var start := m.nodes["AAA"];
    var currentNode := start;
    var targetNode := m.nodes["ZZZ"];
    if |m.directions| == 0 {
      return Steps(0);
    }
    var steps := 0;
    while steps < fuel
      invariant steps <= fuel
      invariant Walk(m, start, steps) == Some(currentNode)
      invariant forall k :: 1 <= k <= steps ==> Walk(m, start, k).Some? && Walk(m, start, k) != Some(targetNode)
    {
      var next := Child(currentNode, m.directions[steps % |m.directions|]);
      if next !in m.nodes {
        assert Walk(m, start, steps + 1) == None;
        return MissingNode;
      }
      currentNode := m.nodes[next];
      steps := steps + 1;
      if currentNode == targetNode {
        return Steps(steps);
      }
    }
    return OutOfFuel;
  }

  /** A missing name ends the walk for good. */
  lemma {:induction false} WalkStaysMissing(m: Map, start: Node, k: nat, l: nat)
    requires |m.directions| > 0
    requires k <= l && Walk(m, start, k) == None
    ensures Walk(m, start, l) == None
    decreases l - k
  {
    if k < l {
      WalkStaysMissing(m, start, k, l - 1);
    }
  }

  /** `n` is the first step count, from 1 on, at which the walk stands on `target`. */
  predicate ArrivesFirstAt(m: Map, start: Node, target: Node, n: nat)
    requires |m.directions| > 0
  {
    n >= 1 && Walk(m, start, n) == Some(target) && forall k :: 1 <= k < n ==> Walk(m, start, k) != Some(target)
  }

  /** Instructions LLR over AAA = (BBB, BBB), BBB = (AAA, ZZZ),
      ZZZ = (ZZZ, ZZZ): ZZZ is first reached after six steps. */
  lemma LoopingExample(m: Map, aaa: Node, bbb: Node, zzz: Node)
    requires aaa == Node("AAA", "BBB", "BBB") && bbb == Node("BBB", "AAA", "ZZZ") && zzz == Node("ZZZ", "ZZZ", "ZZZ")
    requires m == Map([Left, Left, Right], map["AAA" := aaa, "BBB" := bbb, "ZZZ" := zzz])
    ensures ArrivesFirstAt(m, aaa, zzz, 6)
  {
    assert Walk(m, aaa, 1) == Some(bbb);
    assert Walk(m, aaa, 2) == Some(aaa);
    assert Walk(m, aaa, 3) == Some(bbb);
    assert Walk(m, aaa, 4) == Some(aaa);
    assert Walk(m, aaa, 5) == Some(bbb);
    assert Walk(m, aaa, 6) == Some(zzz);
  }

  /** Instructions RL with AAA = (BBB, CCC) and CCC = (ZZZ, GGG): two steps. */
  lemma TwoStepExample(m: Map, aaa: Node, ccc: Node, zzz: Node)
    requires aaa == Node("AAA", "BBB", "CCC") && ccc == Node("CCC", "ZZZ", "GGG") && zzz == Node("ZZZ", "ZZZ", "ZZZ")
    requires m.directions == [Right, Left] && "AAA" in m.nodes && "CCC" in m.nodes && "ZZZ" in m.nodes
    requires m.nodes["AAA"] == aaa && m.nodes["CCC"] == ccc && m.nodes["ZZZ"] == zzz
    ensures ArrivesFirstAt(m, aaa, zzz, 2)
  {
    assert Walk(m, aaa, 1) == Some(ccc);
    assert Walk(m, aaa, 2) == Some(zzz);
  }
}
