/** Day 19: workflows of rules sending machine parts on to other workflows
    until one accepts ("A") or rejects ("R") them. */
module Day19 {
  import opened Common
  import opened Text

  /** `x<10` or `a>3000`: a field letter, an operator and a bound. */
  datatype Condition = Condition(field: char, operator: char, value: int)

  /** A rule sends a part to `then` when its condition holds, or always
      when it has none. */
  datatype Rule = Rule(condition: Option<Condition>, target: string)

  datatype Workflow = Workflow(name: string, rules: seq<Rule>)

  datatype Part = Part(x: int, m: int, a: int, s: int)

  // ---------------------------------------------------------------------
  // Parsing

  /** `parse_condition`: the first character is the field, the second the
      operator, the rest the bound; a text shorter than two characters or
      a bound that is not an integer panics.  Characters are taken to be
      ASCII, so the byte slice `[2..]` starts at the third character. */
  function ParseCondition(s: string): (r: Option<Condition>)
    ensures r.Some? <==> |s| >= 2 && ParseInt(s[2..]).Some?
    ensures r.Some? ==> r.value.field == s[0] && r.value.operator == s[1]
  {
    if |s| < 2 then None
    else match ParseInt(s[2..])
      case None => None
      case Some(v) => Some(Condition(s[0], s[1], v))
  }

  function ShowCondition(c: Condition): string
  {
    [c.field, c.operator] + ShowInt(c.value)
  }

  /** `parse_rule`: with exactly one ':' the text before it is the
      condition and the text after it the target; otherwise there is no
      condition and the target is the text before the first ':' (all of
      it when there is none). */
  function ParseRule(s: string): (r: Option<Rule>)
    ensures |Split(s, ':')| != 2 ==> r == Some(Rule(None, Split(s, ':')[0]))
    ensures r.Some? && r.value.condition.Some? ==> |Split(s, ':')| == 2 && r.value.target == Split(s, ':')[1]
  {
    var parts := Split(s, ':');
    if |parts| == 2 then
      match ParseCondition(parts[0])
      case None => None
      case Some(c) => Some(Rule(Some(c), parts[1]))
    else Some(Rule(None, parts[0]))
  }

  function ShowRule(r: Rule): string
  {
    match r.condition
    case None => r.target
    case Some(c) => ShowCondition(c) + [':'] + r.target
  }

  /** The rules of a list, None when one panics. */
  function ParseRules(items: seq<string>): (r: Option<seq<Rule>>)
    ensures r.Some? <==> forall i :: 0 <= i < |items| ==> ParseRule(items[i]).Some?
    ensures r.Some? ==> |r.value| == |items|
    ensures r.Some? ==> forall i :: 0 <= i < |items| ==> r.value[i] == ParseRule(items[i]).value
  {
    if items == [] then Some([])
    else
      var first := ParseRule(items[0]);
      var rest := ParseRules(items[1..]);
      assert forall i :: 1 <= i < |items| ==> items[1..][i - 1] == items[i];
      if first.None? || rest.None? then None else Some([first.value] + rest.value)
  }

  function ShowRules(rs: seq<Rule>): (r: seq<string>)
    ensures |r| == |rs| && forall i :: 0 <= i < |rs| ==> r[i] == ShowRule(rs[i])
  {
    if rs == [] then [] else [ShowRule(rs[0])] + ShowRules(rs[1..])
  }

  /** `parse_workflow`: the name is the text before the first '{', the rules
      the ','-separated items between it and the next '}'; a line without
      '{' panics. */
  function ParseWorkflow(line: string): (r: Option<Workflow>)
    ensures r.Some? ==> '{' !in r.value.name && r.value.rules != []
  {
    var parts := Split(line, '{');
    if |parts| < 2 then None
    else
      var rules := ParseRules(Split(Split(parts[1], '}')[0], ','));
      if rules.None? then None else Some(Workflow(parts[0], rules.value))
  }

  function ShowWorkflow(w: Workflow): string
  {
    w.name + ['{'] + Join(ShowRules(w.rules), ',') + ['}']
  }

  /** Characters the rule syntax reserves. */
  predicate Reserved(c: char)
  {
    c == ':' || c == ',' || c == '{' || c == '}'
  }

  predicate Plain(s: string)
  {
    forall k :: 0 <= k < |s| ==> !Reserved(s[k])
  }

  /** A rule its own rendering gives back: no reserved character in the
      target or the condition's letters. */
  predicate WellFormedRule(r: Rule)
  {
    Plain(r.target) &&
    (r.condition.Some? ==> !Reserved(r.condition.value.field) && !Reserved(r.condition.value.operator))
  }

  predicate WellFormedWorkflow(w: Workflow)
  {
    '{' !in w.name && w.rules != [] && forall i :: 0 <= i < |w.rules| ==> WellFormedRule(w.rules[i])
  }

  lemma ConditionRoundTrip(c: Condition)
    ensures ParseCondition(ShowCondition(c)) == Some(c)
  {
    ParseShowInt(c.value);
    assert ShowCondition(c)[2..] == ShowInt(c.value);
  }

  /** A rendered condition uses no reserved character. */
  lemma ShowConditionPlain(c: Condition)
    requires !Reserved(c.field) && !Reserved(c.operator)
    ensures Plain(ShowCondition(c))
  {
    var s := ShowCondition(c);
    forall k | 2 <= k < |s|
      ensures !Reserved(s[k])
    {
      assert s[k] == ShowInt(c.value)[k - 2];
    }
  }

  /** A text with no `sep` splits into itself. */
  lemma SplitWhole(s: string, sep: char)
    requires sep !in s
    ensures Split(s, sep) == [s]
  {
    JoinSplit([s], sep);
  }

  /** `a`, `sep`, `b` with no `sep` in either part splits into the two. */
  lemma SplitTwo(a: string, sep: char, b: string)
    requires sep !in a && sep !in b
    ensures Split(a + [sep] + b, sep) == [a, b]
  {
    JoinCons(a, [b], sep);
    JoinSplit([a, b], sep);
  }

  /** Rendering then parsing a well-formed rule gives it back. */
  lemma RuleRoundTrip(r: Rule)
    requires WellFormedRule(r)
    ensures ParseRule(ShowRule(r)) == Some(r)
    ensures Plain(ShowRule(r)) || r.condition.Some?
    ensures forall k :: 0 <= k < |ShowRule(r)| ==> ShowRule(r)[k] != ',' && ShowRule(r)[k] != '{' && ShowRule(r)[k] != '}'
  {
    assert ':' !in r.target;
    match r.condition
    case None =>
      SplitWhole(r.target, ':');
    case Some(c) =>
      ShowConditionPlain(c);
      SplitTwo(ShowCondition(c), ':', r.target);
      ConditionRoundTrip(c);
      var s := ShowRule(r);
      forall k | 0 <= k < |s|
        ensures s[k] != ',' && s[k] != '{' && s[k] != '}'
      {
        var sc := ShowCondition(c);
        if k < |sc| {
          assert s[k] == sc[k];
        } else if k > |sc| {
          assert s[k] == r.target[k - |sc| - 1];
        }
      }
  }

  lemma {:induction false} RulesRoundTrip(rs: seq<Rule>)
    requires forall i :: 0 <= i < |rs| ==> WellFormedRule(rs[i])
    ensures ParseRules(ShowRules(rs)) == Some(rs)
    ensures forall i :: 0 <= i < |rs| ==> ',' !in ShowRules(rs)[i]
  {
    forall i | 0 <= i < |rs|
      ensures ParseRule(ShowRules(rs)[i]) == Some(rs[i]) && ',' !in ShowRules(rs)[i]
    {
      RuleRoundTrip(rs[i]);
    }
    assert ParseRules(ShowRules(rs)).value == rs;
  }

  /** No '{' or '}' in the joined rendering of well-formed rules. */
  lemma JoinedRulesPlain(rs: seq<Rule>, c: char)
    requires c == '{' || c == '}'
    requires forall i :: 0 <= i < |rs| ==> WellFormedRule(rs[i])
    ensures c !in Join(ShowRules(rs), ',')
  {
    var parts := ShowRules(rs);
    forall i | 0 <= i < |parts|
      ensures c !in parts[i]
    {
      RuleRoundTrip(rs[i]);
    }
    JoinAvoids(parts, ',', c);
  }

  lemma {:induction false} JoinAvoids(parts: seq<string>, sep: char, c: char)
    requires c != sep && forall i :: 0 <= i < |parts| ==> c !in parts[i]
    ensures c !in Join(parts, sep)
    decreases |parts|
  {
    if |parts| > 1 {
      JoinAvoids(parts[1..], sep, c);
      JoinCons(parts[0], parts[1..], sep);
      assert [parts[0]] + parts[1..] == parts;
    }
  }

  /** Rendering then parsing a well-formed workflow gives it back. */
  lemma WorkflowRoundTrip(w: Workflow)
    requires WellFormedWorkflow(w)
    ensures ParseWorkflow(ShowWorkflow(w)) == Some(w)
  {
    var body := Join(ShowRules(w.rules), ',');
    JoinedRulesPlain(w.rules, '{');
    JoinedRulesPlain(w.rules, '}');
    assert '{' !in body + ['}'];
    assert ShowWorkflow(w) == w.name + ['{'] + (body + ['}']);
    SplitTwo(w.name, '{', body + ['}']);
    SplitTwo(body, '}', []);
    assert body + ['}'] + [] == body + ['}'];
    RulesRoundTrip(w.rules);
    JoinSplit(ShowRules(w.rules), ',');
  }

  // ---------------------------------------------------------------------
  // Parts

  const Unrated := Part(0, 0, 0, 0)

  /** One `k=v` item: the text before the first '=' names the field, the
      text after it is the value; a missing value, a value that is not an
      integer or a field other than x, m, a, s panics. */
  function Assign(p: Part, item: string): (r: Option<Part>)
    ensures r.Some? ==> |Split(item, '=')| >= 2 && Split(item, '=')[0] in {"x", "m", "a", "s"}
  {
    var eq := Split(item, '=');
    if |eq| < 2 then None
    else match ParseInt(eq[1])
      case None => None
      case Some(v) =>
        if eq[0] == "x" then Some(p.(x := v))
        else if eq[0] == "m" then Some(p.(m := v))
        else if eq[0] == "a" then Some(p.(a := v))
        else if eq[0] == "s" then Some(p.(s := v))
        else None
  }

  /** The items applied in order. */
  function AssignAll(p: Part, items: seq<string>): Option<Part>
  {
    if items == [] then Some(p)
    else match AssignAll(p, items[..|items| - 1])
      case None => None
      case Some(q) => Assign(q, items[|items| - 1])
  }

  /** The items of a part line: between the first '{' and the next '}',
      split on ','; None when there is no '{'. */
  function PartItems(line: string): Option<seq<string>>
  {
    var parts := Split(line, '{');
    if |parts| < 2 then None else Some(Split(Split(parts[1], '}')[0], ','))
  }

  /** What `parse_part` returns: every field starts at 0 and the items
      assign in order. */
  function PartOf(line: string): Option<Part>
  {
    match PartItems(line)
    case None => None
    case Some(items) => AssignAll(Unrated, items)
  }

  /** `parse_part`: the `for_each` over the items updating the part. */
  method ParsePart(line: string) returns (r: Option<Part>)
    ensures r == PartOf(line)
  {
    var items := PartItems(line);
    if items.None? {
      return None;
    }
    var fs := items.value;
    var part := Unrated;
    for i := 0 to |fs|
      invariant AssignAll(Unrated, fs[..i]) == Some(part)
    {
      assert fs[..i + 1][..i] == fs[..i];
      var next := Assign(part, fs[i]);
      if next.None? {
        AssignStops(fs, i + 1);
        return None;
      }
      part := next.value;
    }
    assert fs[..|fs|] == fs;
    return Some(part);
  }

  /** A panic on some item is a panic of the whole line. */
  lemma {:induction false} AssignStops(items: seq<string>, n: nat)
    requires n <= |items| && AssignAll(Unrated, items[..n]).None?
    ensures AssignAll(Unrated, items).None?
    decreases |items| - n
  {
    if n < |items| {
      assert items[..n + 1][..n] == items[..n];
      AssignStops(items, n + 1);
    } else {
      assert items[..n] == items;
    }
  }

  /** A later item for a field overrides whatever the earlier ones set. */
  lemma LaterItemWins(p: Part, items: seq<string>, v: int)
    requires AssignAll(p, items).Some?
    ensures AssignAll(p, items + [['x', '='] + ShowInt(v)]) == Some(AssignAll(p, items).value.(x := v))
  {
    AssignSnoc(p, items, ['x', '='] + ShowInt(v));
    ItemAssigns(AssignAll(p, items).value, 'x', v);
  }

  /** An item naming any other field makes the line panic. */
  lemma UnknownFieldFails(p: Part, items: seq<string>, item: string)
    requires Split(item, '=')[0] !in {"x", "m", "a", "s"}
    ensures AssignAll(p, items + [item]).None?
  {
    assert (items + [item])[..|items|] == items;
  }

  /** `{x=..,m=..,a=..,s=..}` as in the puzzle input. */
  function ShowPart(p: Part): string
  {
    ['{'] + Join(PartFields(p), ',') + ['}']
  }

  /** The four items of a rendered part. */
  function PartFields(p: Part): seq<string>
  {
    ["x=" + ShowInt(p.x), "m=" + ShowInt(p.m), "a=" + ShowInt(p.a), "s=" + ShowInt(p.s)]
  }

  /** Rendering then parsing a part gives it back. */
  lemma PartRoundTrip(p: Part)
    ensures PartOf(ShowPart(p)) == Some(p)
  {
    var fs := PartFields(p);
    var body := Join(fs, ',');
    assert ShowPart(p) == [] + ['{'] + (body + ['}']);
    FieldsAvoid(p);
    JoinAvoids(fs, ',', '{');
    JoinAvoids(fs, ',', '}');
    assert '{' !in body + ['}'];
    SplitTwo([], '{', body + ['}']);
    SplitTwo(body, '}', []);
    assert body + ['}'] + [] == body + ['}'];
    JoinSplit(fs, ',');
    PartAssigns(p);
  }

  /** The rendered items avoid every separator the parser splits on. */
  lemma FieldsAvoid(p: Part)
    ensures forall i :: 0 <= i < 4 ==> ',' !in PartFields(p)[i] && '{' !in PartFields(p)[i] && '}' !in PartFields(p)[i]
  {
    forall i | 0 <= i < 4
      ensures ',' !in PartFields(p)[i] && '{' !in PartFields(p)[i] && '}' !in PartFields(p)[i]
    {
      var f := PartFields(p)[i];
      assert forall k :: 2 <= k < |f| ==> IsDigit(f[k]) || f[k] == '-';
    }
  }

  /** Each rendered item assigns its field. */
  lemma PartAssigns(p: Part)
    ensures AssignAll(Unrated, PartFields(p)) == Some(p)
  {
    var fs := PartFields(p);
    assert fs == [['x', '='] + ShowInt(p.x), ['m', '='] + ShowInt(p.m), ['a', '='] + ShowInt(p.a), ['s', '='] + ShowInt(p.s)];
    var q1 := Unrated.(x := p.x);
    var q2 := q1.(m := p.m);
    var q3 := q2.(a := p.a);
    var f1, f2, f3 := [fs[0]], [fs[0], fs[1]], [fs[0], fs[1], fs[2]];
    assert AssignAll(Unrated, f1) == Some(q1) by {
      AssignSnoc(Unrated, [], fs[0]);
      ItemAssigns(Unrated, 'x', p.x);
      assert [] + [fs[0]] == f1;
    }
    assert AssignAll(Unrated, f2) == Some(q2) by {
      AssignSnoc(Unrated, f1, fs[1]);
      ItemAssigns(q1, 'm', p.m);
      assert f1 + [fs[1]] == f2;
    }
    assert AssignAll(Unrated, f3) == Some(q3) by {
      AssignSnoc(Unrated, f2, fs[2]);
      ItemAssigns(q2, 'a', p.a);
      assert f2 + [fs[2]] == f3;
    }
    AssignSnoc(Unrated, f3, fs[3]);
    ItemAssigns(q3, 's', p.s);
    assert f3 + [fs[3]] == fs;
  }

  /** One more item applies to what the items before it built. */
  lemma AssignSnoc(p: Part, items: seq<string>, item: string)
    ensures AssignAll(p, items + [item]) ==
      if AssignAll(p, items).None? then None else Assign(AssignAll(p, items).value, item)
  {
    assert (items + [item])[..|items|] == items;
  }

  /** A rendered `k=v` item sets field `k` to `v`. */
  lemma ItemAssigns(q: Part, f: char, v: int)
    requires f in "xmas"
    ensures Assign(q, [f, '='] + ShowInt(v)) ==
      Some(match f case 'x' => q.(x := v) case 'm' => q.(m := v) case 'a' => q.(a := v) case _ => q.(s := v))
  {
    ParseShowInt(v);
    assert '=' !in ShowInt(v);
    SplitTwo([f], '=', ShowInt(v));
    assert [f] + ['='] + ShowInt(v) == [f, '='] + ShowInt(v);
    assert ([f] == "x") == (f == 'x') && ([f] == "m") == (f == 'm');
    assert ([f] == "a") == (f == 'a') && ([f] == "s") == (f == 's');
  }

  // ---------------------------------------------------------------------
  // Evaluation

  const NoRule := "No rule met the condition"
  const UnknownField := "Unknown field"
  const UnknownOperator := "Unknown operator"
  const NoWorkflow := "no such workflow"
  const OutOfFuel := "out of fuel"

  /** The rating a condition reads; None for a letter other than x, m, a, s. */
  function FieldValue(p: Part, f: char): (r: Option<int>)
    ensures r.Some? <==> f in "xmas"
  {
    match f
    case 'x' => Some(p.x)
    case 'm' => Some(p.m)
    case 'a' => Some(p.a)
    case 's' => Some(p.s)
    case _ => None
  }

  /** Whether a rule applies: a rule without condition always does; '<'
      and '>' compare strictly; an unknown field or operator is an error. */
  function Meets(r: Rule, p: Part): (res: Result<bool>)
    ensures r.condition.None? ==> res == Ok(true)
    ensures r.condition.Some? ==>
      (res.Ok? <==> r.condition.value.field in "xmas" && r.condition.value.operator in "<>")
    ensures res.Ok? && r.condition.Some? ==>
      var c := r.condition.value;
      (res.value <==> (if c.operator == '<' then FieldValue(p, c.field).value < c.value
                       else FieldValue(p, c.field).value > c.value))
  {
    match r.condition
    case None => Ok(true)
    case Some(c) =>
      match FieldValue(p, c.field)
      case None => Err(UnknownField)
      case Some(v) =>
        if c.operator == '<' then Ok(v < c.value)
        else if c.operator == '>' then Ok(v > c.value)
        else Err(UnknownOperator)
  }

  /** The target of the first rule that applies, trying them in order; an
      error from a condition before it, or no rule applying, is an error. */
  function FirstMatch(rules: seq<Rule>, p: Part): Result<string>
  {
    if rules == [] then Err(NoRule)
    else match Meets(rules[0], p)
      case Err(e) => Err(e)
      case Ok(true) => Ok(rules[0].target)
      case Ok(false) => FirstMatch(rules[1..], p)
  }

  /** The first applying rule decides, whatever follows it. */
  lemma {:induction false} FirstMatchIsFirst(rules: seq<Rule>, p: Part, i: nat)
    requires i < |rules| && Meets(rules[i], p) == Ok(true)
    requires forall j :: 0 <= j < i ==> Meets(rules[j], p) == Ok(false)
    ensures FirstMatch(rules, p) == Ok(rules[i].target)
    decreases i
  {
    if i > 0 {
      FirstMatchIsFirst(rules[1..], p, i - 1);
    }
  }

  /** A successful match is a rule that applies with none applying before it. */
  lemma {:induction false} FirstMatchFound(rules: seq<Rule>, p: Part)
    requires FirstMatch(rules, p).Ok?
    ensures exists i :: (0 <= i < |rules| && Meets(rules[i], p) == Ok(true) &&
                         rules[i].target == FirstMatch(rules, p).value &&
                         forall j :: 0 <= j < i ==> Meets(rules[j], p) == Ok(false))
    decreases |rules|
  {
    if Meets(rules[0], p) == Ok(false) {
      FirstMatchFound(rules[1..], p);
      var i :| 0 <= i < |rules[1..]| && Meets(rules[1..][i], p) == Ok(true) &&
        rules[1..][i].target == FirstMatch(rules[1..], p).value &&
        forall j :: 0 <= j < i ==> Meets(rules[1..][j], p) == Ok(false);
      assert forall j :: 1 <= j < i + 1 ==> rules[j] == rules[1..][j - 1];
    } else {
      assert Meets(rules[0], p) == Ok(true);
    }
  }

  /** When every rule is evaluated and none applies, the workflow panics. */
  lemma {:induction false} NoMatchPanics(rules: seq<Rule>, p: Part)
    requires forall j :: 0 <= j < |rules| ==> Meets(rules[j], p) == Ok(false)
    ensures FirstMatch(rules, p) == Err(NoRule)
    decreases |rules|
  {
    if rules != [] {
      NoMatchPanics(rules[1..], p);
    }
  }

  /** `test_part_recursive`, with at most `fuel` jumps to other workflows:
      "A" accepts, "R" rejects, any other target continues there; a missing
      workflow is an error. */
  function Accepts(wfs: map<string, Workflow>, name: string, p: Part, fuel: nat): Result<bool>
    decreases fuel
  {
    if name !in wfs then Err(NoWorkflow)
    else match FirstMatch(wfs[name].rules, p)
      case Err(e) => Err(e)
      case Ok(t) =>
        if t == "A" then Ok(true)
        else if t == "R" then Ok(false)
        else if fuel == 0 then Err(OutOfFuel)
        else Accepts(wfs, t, p, fuel - 1)
  }

  /** A verdict reached with some fuel is the verdict with any more fuel. */
  lemma {:induction false} AcceptsMoreFuel(wfs: map<string, Workflow>, name: string, p: Part, fuel: nat, more: nat)
    requires Accepts(wfs, name, p, fuel).Ok?
    ensures Accepts(wfs, name, p, fuel + more) == Accepts(wfs, name, p, fuel)
    decreases fuel
  {
    var t := FirstMatch(wfs[name].rules, p).value;
    if t != "A" && t != "R" {
      AcceptsMoreFuel(wfs, t, p, fuel - 1, more);
    }
  }

  /** A workflow whose first rule sends every part back to itself never
      decides: the source recurses until its stack overflows. */
  lemma {:induction false} SelfLoopNeverDecides(wfs: map<string, Workflow>, name: string, p: Part, fuel: nat)
    requires name in wfs && wfs[name].rules != [] && wfs[name].rules[0] == Rule(None, name)
    requires name != "A" && name != "R"
    ensures Accepts(wfs, name, p, fuel) == Err(OutOfFuel)
    decreases fuel
  {
    if fuel > 0 {
      SelfLoopNeverDecides(wfs, name, p, fuel - 1);
    }
  }

  /** `test_part_recursive`: the rules in order, each with its
      `meets_condition` flag, then a jump to the target. */
  method TestPartFrom(wfs: map<string, Workflow>, name: string, p: Part, fuel: nat) returns (r: Result<bool>)
    ensures r == Accepts(wfs, name, p, fuel)
    decreases fuel
  {
    if name !in wfs {
      return Err(NoWorkflow);
    }
    var rules := wfs[name].rules;
    for i := 0 to |rules|
      invariant FirstMatch(rules, p) == FirstMatch(rules[i..], p)
    {
      var rule := rules[i];
      assert rules[i..][0] == rule && rules[i..][1..] == rules[i + 1..];
      var meets := true;
      if rule.condition.Some? {
        var c := rule.condition.value;
        var value: int;
        match c.field {
          case 'x' => value := p.x;
          case 'm' => value := p.m;
          case 'a' => value := p.a;
          case 's' => value := p.s;
          case _ => return Err(UnknownField);
        }
        if c.operator == '<' {
          meets := value < c.value;
        } else if c.operator == '>' {
          meets := value > c.value;
        } else {
          return Err(UnknownOperator);
        }
      }
      if meets {
        if rule.target == "A" {
          return Ok(true);
        } else if rule.target == "R" {
          return Ok(false);
        } else if fuel == 0 {
          return Err(OutOfFuel);
        }
        r := TestPartFrom(wfs, rule.target, p, fuel - 1);
        return;
      }
    }
    return Err(NoRule);
  }

  /** `test_part`: evaluation starts at the workflow "in". */
  method TestPart(wfs: map<string, Workflow>, p: Part, fuel: nat) returns (r: Result<bool>)
    ensures r == Accepts(wfs, "in", p, fuel)
  {
    r := TestPartFrom(wfs, "in", p, fuel);
  }

  // ---------------------------------------------------------------------
  // Part 1

  function Rating(p: Part): int
  {
    p.x + p.m + p.a + p.s
  }

  /** Part 1: the ratings of the accepted parts added up; the first part
      whose evaluation fails makes the whole fail. */
  function Part1(wfs: map<string, Workflow>, parts: seq<Part>, fuel: nat): Result<int>
  {
    if parts == [] then Ok(0)
    else
      var p := parts[|parts| - 1];
      match Part1(wfs, parts[..|parts| - 1], fuel)
      case Err(e) => Err(e)
      case Ok(total) =>
        match Accepts(wfs, "in", p, fuel)
        case Err(e) => Err(e)
        case Ok(ok) => Ok(if ok then total + Rating(p) else total)
  }

  /** Part 1 succeeds exactly when every part gets a verdict. */
  lemma {:induction false} Part1Decided(wfs: map<string, Workflow>, parts: seq<Part>, fuel: nat)
    ensures Part1(wfs, parts, fuel).Ok? <==> forall i :: 0 <= i < |parts| ==> Accepts(wfs, "in", parts[i], fuel).Ok?
    decreases |parts|
  {
    if parts != [] {
      var init := parts[..|parts| - 1];
      Part1Decided(wfs, init, fuel);
      assert forall i :: 0 <= i < |init| ==> init[i] == parts[i];
    }
  }

  /** Part 1 adds up over a split of the parts. */
  lemma {:induction false} Part1Append(wfs: map<string, Workflow>, ps: seq<Part>, qs: seq<Part>, fuel: nat)
    requires Part1(wfs, ps, fuel).Ok? && Part1(wfs, qs, fuel).Ok?
    ensures Part1(wfs, ps + qs, fuel) == Ok(Part1(wfs, ps, fuel).value + Part1(wfs, qs, fuel).value)
    decreases |qs|
  {
    if qs == [] {
      assert ps + qs == ps;
    } else {
      var init := qs[..|qs| - 1];
      Part1Append(wfs, ps, init, fuel);
      assert (ps + qs)[..|ps + qs| - 1] == ps + init;
    }
  }

  /** With non-negative ratings, part 1 lies between 0 and the total rating. */
  lemma {:induction false} Part1Bounds(wfs: map<string, Workflow>, parts: seq<Part>, fuel: nat)
    requires Part1(wfs, parts, fuel).Ok?
    requires forall i :: 0 <= i < |parts| ==> Rating(parts[i]) >= 0
    ensures 0 <= Part1(wfs, parts, fuel).value <= Sum(seq(|parts|, i requires 0 <= i < |parts| => Rating(parts[i])))
    decreases |parts|
  {
    if parts != [] {
      var init := parts[..|parts| - 1];
      Part1Bounds(wfs, init, fuel);
      var rs := seq(|parts|, i requires 0 <= i < |parts| => Rating(parts[i]));
      assert rs[..|rs| - 1] == seq(|init|, i requires 0 <= i < |init| => Rating(init[i]));
    }
  }

  /** The workflow table of `main`: each line parsed, later names replacing
      earlier ones; None when a line panics. */
  function Workflows(lines: seq<string>): Option<map<string, Workflow>>
  {
    if lines == [] then Some(map[])
    else match Workflows(lines[..|lines| - 1])
      case None => None
      case Some(m) =>
        match ParseWorkflow(lines[|lines| - 1])
        case None => None
        case Some(w) => Some(m[w.name := w])
  }

  /** Every line of a table that parses is a workflow whose name is in it. */
  lemma {:induction false} WorkflowsHasAll(lines: seq<string>)
    requires Workflows(lines).Some?
    ensures forall i :: 0 <= i < |lines| ==>
      ParseWorkflow(lines[i]).Some? && ParseWorkflow(lines[i]).value.name in Workflows(lines).value
    decreases |lines|
  {
    if lines != [] {
      var init := lines[..|lines| - 1];
      WorkflowsHasAll(init);
      forall i | 0 <= i < |lines|
        ensures ParseWorkflow(lines[i]).Some? && ParseWorkflow(lines[i]).value.name in Workflows(lines).value
      {
        if i < |init| {
          assert init[i] == lines[i];
        }
      }
    }
  }

  /** The last line naming a workflow is the one the table keeps. */
  lemma {:induction false} WorkflowsLastWins(lines: seq<string>, i: nat)
    requires Workflows(lines).Some? && i < |lines|
    requires ParseWorkflow(lines[i]).Some?
    requires forall j :: i < j < |lines| ==>
      ParseWorkflow(lines[j]).Some? && ParseWorkflow(lines[j]).value.name != ParseWorkflow(lines[i]).value.name
    ensures ParseWorkflow(lines[i]).value.name in Workflows(lines).value
    ensures Workflows(lines).value[ParseWorkflow(lines[i]).value.name] == ParseWorkflow(lines[i]).value
    decreases |lines|
  {
    var init := lines[..|lines| - 1];
    if i < |init| {
      assert init[i] == lines[i];
      assert forall j :: i < j < |init| ==> init[j] == lines[j];
      WorkflowsLastWins(init, i);
    }
  }
}
