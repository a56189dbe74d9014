/** Hot springs (day12/src/main.rs).  A row lists springs that are
    working ('#'), broken ('.') or unknown ('?') and the lengths of the runs
    of working springs; `explore_row` counts, with a cache, the ways to
    read the unknown springs that produce exactly those runs. */
module Day12 {
  import opened Common
  import opened Text

  datatype Spring = Working | Broken | Unknown

  /** `Spring::try_from`. */
  function SpringOf(c: char): (r: Result<Spring>)
    ensures r.Ok? <==> c == '#' || c == '.' || c == '?'
  {
    match c
    case '#' => Ok(Working)
    case '.' => Ok(Broken)
    case '?' => Ok(Unknown)
    case _ => Err("()")
  }

  function SpringChar(s: Spring): char
  {
    match s
    case Working => '#'
    case Broken => '.'
    case Unknown => '?'
  }

  /** Each spring's character reads back as that spring. */
  lemma SpringRoundTrip(s: Spring)
    ensures SpringOf(SpringChar(s)) == Ok(s)
  {
  }

  datatype Row = Row(springs: seq<Spring>, counts: seq<nat>)

  // ---------------------------------------------------------------------
  // Parsing

  /** The springs of the first word; an unknown character makes the
      `unwrap` panic. */
  function ParseSprings(w: string): (r: Result<seq<Spring>>)
    ensures r.Ok? <==> forall i :: 0 <= i < |w| ==> SpringOf(w[i]).Ok?
    ensures r.Ok? ==> |r.value| == |w| && forall i :: 0 <= i < |w| ==> r.value[i] == SpringOf(w[i]).value
  {
    var rs := seq(|w|, i requires 0 <= i < |w| => SpringOf(w[i]));
    assert forall i :: 0 <= i < |w| ==> rs[i] == SpringOf(w[i]);
    var springs := Collect(rs);
    if springs.Err? then Err("called `Result::unwrap()` on an `Err` value") else springs
  }

  /** One count; a piece that is not a number makes the `unwrap` panic. */
  function CountOf(piece: string): (r: Result<nat>)
    ensures r.Ok? <==> ParseNat(piece).Some?
    ensures r.Ok? ==> Some(r.value) == ParseNat(piece)
  {
    var n := ParseNat(piece);
    if n.None? then Err("called `Result::unwrap()` on an `Err` value") else Ok(n.value)
  }

  /** The comma-separated counts of the second word. */
  function ParseCounts(w: string): (r: Result<seq<nat>>)
    ensures r.Ok? <==> forall i :: 0 <= i < |Split(w, ',')| ==> ParseNat(Split(w, ',')[i]).Some?
    ensures r.Ok? ==> (|r.value| == |Split(w, ',')| &&
      forall i :: 0 <= i < |r.value| ==> Some(r.value[i]) == ParseNat(Split(w, ',')[i]))
  {
    var pieces := Split(w, ',');
    var rs := seq(|pieces|, i requires 0 <= i < |pieces| => CountOf(pieces[i]));
    assert forall i :: 0 <= i < |pieces| ==> rs[i] == CountOf(pieces[i]);
    assert forall i :: 0 <= i < |pieces| ==> (rs[i].Ok? <==> ParseNat(pieces[i]).Some?);
    assert Collect(rs).Ok? <==> forall i :: 0 <= i < |pieces| ==> ParseNat(pieces[i]).Some?;
    Collect(rs)
  }

  /** `Row::try_from`: a missing word is `Err(())`; the springs are read
      before the second word is looked for. */
  function ParseRow(line: string): (r: Result<Row>)
    ensures r.Ok? <==> (|SplitWhitespace(line)| >= 2 &&
      ParseSprings(SplitWhitespace(line)[0]).Ok? && ParseCounts(SplitWhitespace(line)[1]).Ok?)
    ensures r.Ok? ==> r.value == Row(ParseSprings(SplitWhitespace(line)[0]).value, ParseCounts(SplitWhitespace(line)[1]).value)
  {
    var words := SplitWhitespace(line);
    if |words| == 0 then Err("()")
    else
      var springs := ParseSprings(words[0]);
      if springs.Err? then Err(springs.msg)
      else if |words| < 2 then Err("()")
      else
        var counts := ParseCounts(words[1]);
        if counts.Err? then Err(counts.msg)
        else Ok(Row(springs.value, counts.value))
  }

  /** `parse_input`: every line must parse (`unwrap`). */
  function ParseInput(input: string): (r: Result<seq<Row>>)
    ensures var lines := Lines(input);
      r.Ok? <==> forall i :: 0 <= i < |lines| ==> ParseRow(lines[i]).Ok?
    ensures var lines := Lines(input);
      r.Ok? ==> |r.value| == |lines| && forall i :: 0 <= i < |lines| ==> r.value[i] == ParseRow(lines[i]).value
  {
    var lines := Lines(input);
    var rs := seq(|lines|, i requires 0 <= i < |lines| => ParseRow(lines[i]));
    assert forall i :: 0 <= i < |lines| ==> rs[i] == ParseRow(lines[i]);
    Collect(rs)
  }

  /** The text of a row: its springs, a space and the comma-separated
      counts. */
  function SpringsText(s: seq<Spring>): (r: string)
    ensures |r| == |s| && forall i :: 0 <= i < |s| ==> r[i] == SpringChar(s[i])
  {
    seq(|s|, i requires 0 <= i < |s| => SpringChar(s[i]))
  }

  function ShowNats(xs: seq<nat>): (r: seq<string>)
    ensures |r| == |xs| && forall i :: 0 <= i < |xs| ==> r[i] == ShowNat(xs[i])
  {
    seq(|xs|, i requires 0 <= i < |xs| => ShowNat(xs[i]))
  }

  function FormatRow(row: Row): string
  {
    SpringsText(row.springs) + " " + Join(ShowNats(row.counts), ',')
  }

  /** Digits joined by commas hold no whitespace. */
  lemma {:induction false} JoinedDigitsAreWord(parts: seq<string>)
    requires |parts| >= 1
    requires forall i :: 0 <= i < |parts| ==> parts[i] != [] && AllDigits(parts[i])
    ensures IsWord(Join(parts, ','))
    decreases |parts|
  {
    if |parts| > 1 {
      JoinedDigitsAreWord(parts[1..]);
      var s := Join(parts, ',');
      var p := parts[0];
      var rest := Join(parts[1..], ',');
      assert s == p + [','] + rest;
      forall k | 0 <= k < |s|
        ensures !IsWhitespace(s[k])
      {
        if k < |p| {
          assert s[k] == p[k];
        } else if k > |p| {
          assert s[k] == rest[k - |p| - 1];
        }
      }
    }
  }

  /** A row with springs and counts reads back from its text. */
  lemma ParseFormatRow(row: Row)
    requires row.springs != [] && row.counts != []
    ensures ParseRow(FormatRow(row)) == Ok(row)
  {
    var a := SpringsText(row.springs);
    var parts := ShowNats(row.counts);
    var b := Join(parts, ',');
    assert IsWord(a);
    JoinedDigitsAreWord(parts);
    assert Unwords([a, b]) == FormatRow(row);
    SplitUnwords([a, b]);
    forall i | 0 <= i < |row.springs|
      ensures SpringOf(a[i]) == Ok(row.springs[i])
    {
      SpringRoundTrip(row.springs[i]);
    }
    forall i | 0 <= i < |parts|
      ensures ',' !in parts[i]
    {
      assert forall k :: 0 <= k < |parts[i]| ==> IsDigit(parts[i][k]);
    }
    JoinSplit(parts, ',');
    forall i | 0 <= i < |parts|
      ensures ParseNat(parts[i]) == Some(row.counts[i])
    {
      ParseShowNat(row.counts[i]);
    }
    assert SplitWhitespace(FormatRow(row)) == [a, b];
    assert ParseSprings(a).value == row.springs;
    assert ParseCounts(b).value == row.counts;
  }

  // ---------------------------------------------------------------------
  // explore_row

  /** What `explore_row` returns, without its cache: `group` is the length
      of the run of working springs still open, `remaining` the runs still
      to be made. */
  function Explore(springs: seq<Spring>, group: Option<nat>, remaining: seq<nat>): nat
    decreases |springs|
  {
    if springs == [] then
      if group.None? && |remaining| == 0 then 1
      else if group.Some? && |remaining| == 1 && group.value == remaining[0] then 1
      else 0
    else if group.Some? && remaining == [] then 0
    else
      var rest := springs[1..];
      match springs[0]
      case Broken =>
        if group.Some? then
          if group.value != remaining[0] then 0 else Explore(rest, None, remaining[1..])
        else Explore(rest, None, remaining)
      case Working =>
        if group.Some? then Explore(rest, Some(group.value + 1), remaining) else Explore(rest, Some(1), remaining)
      case Unknown =>
        if group.Some? then
          Explore(rest, Some(group.value + 1), remaining) +
          (if group.value == remaining[0] then Explore(rest, None, remaining[1..]) else 0)
        else Explore(rest, Some(1), remaining) + Explore(rest, None, remaining)
  }

  /** The `Cache` threaded through `explore_row`: every entry holds the
      count for its key. */
  class Memo {
    var cache: map<(seq<Spring>, Option<nat>, seq<nat>), nat>

    ghost predicate Valid()
      reads this
    {
      forall k :: k in cache ==> cache[k] == Explore(k.0, k.1, k.2)
    }

    constructor ()
      ensures Valid() && cache == map[]
    {
      cache := map[];
    }

    /** `explore_row`: look the key up, else compute and record it. */
    method ExploreRow(springs: seq<Spring>, group: Option<nat>, remaining: seq<nat>) returns (ans: nat)
      requires Valid()
      modifies this
      ensures Valid() && old(cache).Keys <= cache.Keys
      ensures ans == Explore(springs, group, remaining)
      decreases |springs|
    {
      if springs == [] {
        if group.None? && |remaining| == 0 {
          return 1;
        } else if group.Some? && |remaining| == 1 && group.value == remaining[0] {
          return 1;
        }
        return 0;
      }
      if group.Some? && remaining == [] {
        return 0;
      }
      var key := (springs, group, remaining);
      if key in cache {
        return cache[key];
      }
      var rest := springs[1..];
      match springs[0] {
      case Broken =>
        if group.Some? && group.value != remaining[0] {
          ans := 0;
        } else if group.Some? {
          ans := ExploreRow(rest, None, remaining[1..]);
        } else {
          ans := ExploreRow(rest, None, remaining);
        }
      case Working =>
        if group.Some? {
          ans := ExploreRow(rest, Some(group.value + 1), remaining);
        } else {
          ans := ExploreRow(rest, Some(1), remaining);
        }
      case Unknown =>
        if group.Some? {
          ans := ExploreRow(rest, Some(group.value + 1), remaining);
          if group.value == remaining[0] {
            var closed := ExploreRow(rest, None, remaining[1..]);
            ans := ans + closed;
          }
        } else {
          var started := ExploreRow(rest, Some(1), remaining);
          var skipped := ExploreRow(rest, None, remaining);
          ans := started + skipped;
        }
      }
      cache := cache[key := ans];
    }
  }

  /** `possible_arrangements`: explore with a fresh cache. */
  method PossibleArrangements(row: Row) returns (r: nat)
    ensures r == Arrangements(row)
  {
    var memo := new Memo();
    r := memo.ExploreRow(row.springs, None, row.counts);
    ExploreCounts(row.springs, 0, row.counts);
  }

  // ---------------------------------------------------------------------
  // What explore_row counts

  /** Every way to read each unknown spring as working or broken. */
  function Completions(s: seq<Spring>): seq<seq<Spring>>
  {
    if s == [] then [[]]
    else
      var tails := Completions(s[1..]);
      match s[0]
      case Working => Prepend(Working, tails)
      case Broken => Prepend(Broken, tails)
      case Unknown => Prepend(Working, tails) + Prepend(Broken, tails)
  }

  function Prepend(h: Spring, ls: seq<seq<Spring>>): (r: seq<seq<Spring>>)
    ensures |r| == |ls| && forall i :: 0 <= i < |ls| ==> r[i] == [h] + ls[i]
  {
    seq(|ls|, i requires 0 <= i < |ls| => [h] + ls[i])
  }

  /** The lengths of the runs of working springs of `c`, the first of them
      continuing an open run of `open` springs. */
  function Runs(open: nat, c: seq<Spring>): seq<nat>
    decreases |c|
  {
    if c == [] then (if open > 0 then [open] else [])
    else if c[0] == Working then Runs(open + 1, c[1..])
    else if open > 0 then [open] + Runs(0, c[1..])
    else Runs(0, c[1..])
  }

  /** How many of `ls` have the runs `counts`. */
  function Matching(ls: seq<seq<Spring>>, open: nat, counts: seq<nat>): nat
  {
    if ls == [] then 0
    else (if Runs(open, ls[0]) == counts then 1 else 0) + Matching(ls[1..], open, counts)
  }

  /** The number of arrangements of a row: the readings of its unknown
      springs whose runs are the row's counts. */
  function Arrangements(row: Row): nat
  {
    Matching(Completions(row.springs), 0, row.counts)
  }

  /** The completions of `s` are exactly the sequences without unknowns
      that agree with `s` wherever `s` is known. */
  lemma {:induction false} CompletionsSpec(s: seq<Spring>, c: seq<Spring>)
    ensures c in Completions(s) <==>
      |c| == |s| && forall i :: 0 <= i < |s| ==> c[i] != Unknown && (s[i] != Unknown ==> c[i] == s[i])
  {
    if s != [] {
      var tails := Completions(s[1..]);
      if c != [] {
        CompletionsSpec(s[1..], c[1..]);
        assert [c[0]] + c[1..] == c;
        assert c in Prepend(Working, tails) <==> c[0] == Working && c[1..] in tails;
        assert c in Prepend(Broken, tails) <==> c[0] == Broken && c[1..] in tails;
        if |c| == |s| && forall i :: 0 <= i < |s| ==> c[i] != Unknown && (s[i] != Unknown ==> c[i] == s[i]) {
          assert forall i :: 0 <= i < |s| - 1 ==> c[1..][i] == c[i + 1] && s[1..][i] == s[i + 1];
        }
        if c in Completions(s) {
          assert c[1..] in tails;
          forall i | 0 <= i < |s|
            ensures c[i] != Unknown && (s[i] != Unknown ==> c[i] == s[i])
          {
            if i > 0 {
              assert c[i] == c[1..][i - 1] && s[i] == s[1..][i - 1];
            }
          }
        }
      } else {
        assert forall l :: l in Prepend(Working, tails) ==> l != [];
        assert forall l :: l in Prepend(Broken, tails) ==> l != [];
      }
    }
  }

  ghost predicate Distinct(ls: seq<seq<Spring>>)
  {
    forall i, j :: 0 <= i < j < |ls| ==> ls[i] != ls[j]
  }

  /** No reading is listed twice, so `Matching` over the completions counts
      readings, not entries. */
  lemma {:induction false} CompletionsDistinct(s: seq<Spring>)
    ensures Distinct(Completions(s))
  {
    if s != [] {
      var tails := Completions(s[1..]);
      CompletionsDistinct(s[1..]);
      forall h: Spring
        ensures Distinct(Prepend(h, tails))
      {
        forall i, j | 0 <= i < j < |tails|
          ensures Prepend(h, tails)[i] != Prepend(h, tails)[j]
        {
          assert ([h] + tails[i])[1..] == tails[i];
          assert ([h] + tails[j])[1..] == tails[j];
        }
      }
      if s[0] == Unknown {
        var all := Prepend(Working, tails) + Prepend(Broken, tails);
        forall i, j | 0 <= i < j < |all|
          ensures all[i] != all[j]
        {
          if i < |tails| <= j {
            assert all[i][0] == Working && all[j][0] == Broken;
          } else if j < |tails| {
            assert all[i] == Prepend(Working, tails)[i] && all[j] == Prepend(Working, tails)[j];
          } else {
            assert all[i] == Prepend(Broken, tails)[i - |tails|] && all[j] == Prepend(Broken, tails)[j - |tails|];
          }
        }
      }
    }
  }

  lemma {:induction false} MatchingAppend(a: seq<seq<Spring>>, b: seq<seq<Spring>>, open: nat, counts: seq<nat>)
    ensures Matching(a + b, open, counts) == Matching(a, open, counts) + Matching(b, open, counts)
  {
    if a == [] {
      assert a + b == b;
    } else {
      assert (a + b)[1..] == a[1..] + b;
      MatchingAppend(a[1..], b, open, counts);
    }
  }

  /** A working spring in front extends the open run. */
  lemma {:induction false} MatchingWorking(ls: seq<seq<Spring>>, open: nat, counts: seq<nat>)
    ensures Matching(Prepend(Working, ls), open, counts) == Matching(ls, open + 1, counts)
  {
    if ls != [] {
      assert Prepend(Working, ls)[1..] == Prepend(Working, ls[1..]);
      assert ([Working] + ls[0])[1..] == ls[0];
      MatchingWorking(ls[1..], open, counts);
    }
  }

  /** A broken spring in front closes the open run, which must then be the
      first count. */
  lemma {:induction false} MatchingBroken(ls: seq<seq<Spring>>, open: nat, counts: seq<nat>)
    ensures Matching(Prepend(Broken, ls), open, counts) ==
      if open == 0 then Matching(ls, 0, counts)
      else if counts != [] && counts[0] == open then Matching(ls, 0, counts[1..])
      else 0
  {
    if ls != [] {
      assert Prepend(Broken, ls)[1..] == Prepend(Broken, ls[1..]);
      var c := ls[0];
      assert ([Broken] + c)[1..] == c;
      if open > 0 {
        var r := Runs(0, c);
        assert Runs(open, [Broken] + c) == [open] + r;
        assert [open] + r == counts <==> counts != [] && counts[0] == open && r == counts[1..] by {
          if counts != [] && counts[0] == open && r == counts[1..] {
            assert [open] + r == [counts[0]] + counts[1..] == counts;
          }
        }
      }
      MatchingBroken(ls[1..], open, counts);
    }
  }

  lemma {:induction false} RunsOpen(open: nat, c: seq<Spring>)
    requires open > 0
    ensures Runs(open, c) != []
    decreases |c|
  {
    if c != [] && c[0] == Working {
      RunsOpen(open + 1, c[1..]);
    }
  }

  /** With a run open, no reading leaves no runs to make. */
  lemma {:induction false} MatchingNone(ls: seq<seq<Spring>>, open: nat)
    requires open > 0
    ensures Matching(ls, open, []) == 0
  {
    if ls != [] {
      RunsOpen(open, ls[0]);
      MatchingNone(ls[1..], open);
    }
  }

  /** The open run as `explore_row` passes it. */
  function OpenGroup(open: nat): Option<nat>
  {
    if open == 0 then None else Some(open)
  }

  /** `Explore` and `Matching` agree on the springs after the first. */
  ghost predicate AgreeAfter(springs: seq<Spring>, open: nat, remaining: seq<nat>)
    requires springs != []
  {
    Explore(springs[1..], OpenGroup(open), remaining) == Matching(Completions(springs[1..]), open, remaining)
  }

  lemma ExploreWorking(springs: seq<Spring>, open: nat, remaining: seq<nat>)
    requires springs != [] && springs[0] == Working && !(open > 0 && remaining == [])
    requires AgreeAfter(springs, open + 1, remaining)
    ensures Explore(springs, OpenGroup(open), remaining) == Matching(Completions(springs), open, remaining)
  {
    MatchingWorking(Completions(springs[1..]), open, remaining);
  }

  lemma ExploreBroken(springs: seq<Spring>, open: nat, remaining: seq<nat>)
    requires springs != [] && springs[0] == Broken && !(open > 0 && remaining == [])
    requires AgreeAfter(springs, 0, remaining)
    requires remaining != [] ==> AgreeAfter(springs, 0, remaining[1..])
    ensures Explore(springs, OpenGroup(open), remaining) == Matching(Completions(springs), open, remaining)
  {
    MatchingBroken(Completions(springs[1..]), open, remaining);
  }

  lemma ExploreUnknown(springs: seq<Spring>, open: nat, remaining: seq<nat>)
    requires springs != [] && springs[0] == Unknown && !(open > 0 && remaining == [])
    requires AgreeAfter(springs, open + 1, remaining) && AgreeAfter(springs, 0, remaining)
    requires remaining != [] ==> AgreeAfter(springs, 0, remaining[1..])
    ensures Explore(springs, OpenGroup(open), remaining) == Matching(Completions(springs), open, remaining)
  {
    var rest := springs[1..];
    var tails := Completions(rest);
    var worked := Explore(rest, OpenGroup(open + 1), remaining);
    var closed :=
      if open == 0 then Explore(rest, None, remaining)
      else if open == remaining[0] then Explore(rest, None, remaining[1..])
      else 0;
    assert Explore(springs, OpenGroup(open), remaining) == worked + closed;
    assert Completions(springs) == Prepend(Working, tails) + Prepend(Broken, tails);
    MatchingAppend(Prepend(Working, tails), Prepend(Broken, tails), open, remaining);
    MatchingWorking(tails, open, remaining);
    assert Matching(Prepend(Working, tails), open, remaining) == worked;
    MatchingBroken(tails, open, remaining);
    assert Matching(Prepend(Broken, tails), open, remaining) == closed;
  }

  /** `explore_row` counts the readings of the springs whose runs, the
      first continuing the open run, are the remaining counts. */
  lemma {:induction false} ExploreCounts(springs: seq<Spring>, open: nat, remaining: seq<nat>)
    ensures Explore(springs, OpenGroup(open), remaining) == Matching(Completions(springs), open, remaining)
    decreases |springs|
  {
    if springs == [] {
      assert Completions(springs) == [[]];
      assert Matching([[]], open, remaining) == if Runs(open, []) == remaining then 1 else 0;
      if open > 0 && remaining == [open] {
        assert |remaining| == 1 && remaining[0] == open;
      }
    } else if open > 0 && remaining == [] {
      MatchingNone(Completions(springs), open);
    } else {
      var rest := springs[1..];
      ExploreCounts(rest, open + 1, remaining);
      ExploreCounts(rest, 0, remaining);
      if remaining != [] {
        ExploreCounts(rest, 0, remaining[1..]);
      }
      match springs[0]
      case Working => ExploreWorking(springs, open, remaining);
      case Broken => ExploreBroken(springs, open, remaining);
      case Unknown => ExploreUnknown(springs, open, remaining);
    }
  }

  /** The count of a row is its number of arrangements. */
  lemma ExploreIsArrangements(row: Row)
    ensures Explore(row.springs, None, row.counts) == Arrangements(row)
  {
    ExploreCounts(row.springs, 0, row.counts);
  }

  // ---------------------------------------------------------------------
  // The answers

  function TotalArrangements(rows: seq<Row>): nat
  {
    if rows == [] then 0 else TotalArrangements(rows[..|rows| - 1]) + Arrangements(rows[|rows| - 1])
  }

  /** `rows.iter().map(possible_arrangements).sum()`. */
  method SumArrangements(rows: seq<Row>) returns (total: nat)
    ensures total == TotalArrangements(rows)
  {
    total := 0;
    for i := 0 to |rows|
      invariant total == TotalArrangements(rows[..i])
    {
      assert rows[..i + 1][..i] == rows[..i];
      var n := PossibleArrangements(rows[i]);
      total := total + n;
    }
    assert rows[..|rows|] == rows;
  }

  /** Part 2's unfolding: five copies of the springs with one unknown
      spring between neighbours, and the counts five times over. */
  function Intersperse<T>(xs: seq<T>, sep: T): seq<T>
  {
    if |xs| <= 1 then xs else [xs[0], sep] + Intersperse(xs[1..], sep)
  }

  function Flatten<T>(xss: seq<seq<T>>): seq<T>
  {
    if xss == [] then [] else xss[0] + Flatten(xss[1..])
  }

  function Repeat<T>(xs: seq<T>, n: nat): seq<T>
  {
    if n == 0 then [] else xs + Repeat(xs, n - 1)
  }

  function Unfold(row: Row): Row
  {
    Row(Flatten(Intersperse(seq(5, _ => row.springs), [Unknown])), Repeat(row.counts, 5))
  }

  lemma FlattenCons<T>(x: seq<T>, xs: seq<seq<T>>)
    ensures Flatten([x] + xs) == x + Flatten(xs)
  {
    assert ([x] + xs)[1..] == xs;
  }

  /** Joining n >= 2 copies is one copy, the separator and n - 1 copies
      joined. */
  lemma JoinedCopies<T>(x: seq<T>, sep: T, n: nat)
    requires n >= 2
    ensures Flatten(Intersperse(seq(n, _ => x), [sep])) == x + [sep] + Flatten(Intersperse(seq(n - 1, _ => x), [sep]))
  {
    var xs := seq(n, _ => x);
    var rest := Intersperse(seq(n - 1, _ => x), [sep]);
    assert xs[0] == x && xs[1..] == seq(n - 1, _ => x);
    assert Intersperse(xs, [sep]) == [x] + ([[sep]] + rest);
    FlattenCons(x, [[sep]] + rest);
    FlattenCons([sep], rest);
  }

  /** The unfolded row holds five copies of the springs with a single
      unknown spring between neighbours, and five copies of the counts. */
  lemma UnfoldShape(row: Row)
    ensures var s := row.springs;
      Unfold(row).springs == s + [Unknown] + s + [Unknown] + s + [Unknown] + s + [Unknown] + s
    ensures var c := row.counts;
      Unfold(row).counts == c + c + c + c + c
    ensures |Unfold(row).springs| == 5 * |row.springs| + 4
  {
    var s := row.springs;
    var u := Unknown;
    JoinedCopies(s, u, 5);
    JoinedCopies(s, u, 4);
    JoinedCopies(s, u, 3);
    JoinedCopies(s, u, 2);
    assert seq(1, _ => s) == [s];
    FlattenCons(s, []);
    assert Flatten(Intersperse(seq(1, _ => s), [u])) == s;
    var c := row.counts;
    assert Repeat(c, 1) == c;
    assert Repeat(c, 2) == c + c;
    assert Repeat(c, 3) == c + c + c;
    assert Repeat(c, 4) == c + c + c + c;
  }

  /** Part 1 sums the arrangements of the rows, part 2 those of the
      unfolded rows. */
  method Solve(input: string) returns (r: Result<(nat, nat)>)
    ensures r.Ok? <==> ParseInput(input).Ok?
    ensures r.Ok? ==> var rows := ParseInput(input).value;
      r.value.0 == TotalArrangements(rows) &&
      r.value.1 == TotalArrangements(seq(|rows|, i requires 0 <= i < |rows| => Unfold(rows[i])))
  {
    var parsed := ParseInput(input);
    if parsed.Err? {
      return Err(parsed.msg);
    }
    var rows := parsed.value;
    var part1 := SumArrangements(rows);
    var unfolded := seq(|rows|, i requires 0 <= i < |rows| => Unfold(rows[i]));
    var part2 := SumArrangements(unfolded);
    r := Ok((part1, part2));
  }

  // ---------------------------------------------------------------------
  // The rows of the tests

  /** "#.#.### 1,1,3" has no unknown spring and its runs are 1, 1 and 3,
      so it has exactly one arrangement. */
  lemma FirstTestRow(s: seq<Spring>, c: seq<nat>)
    requires |s| == 7
    requires s[0] == Working && s[1] == Broken && s[2] == Working && s[3] == Broken && s[4] == Working
    requires s[5] == Working && s[6] == Working
    requires |c| == 3 && c[0] == 1 && c[1] == 1 && c[2] == 3
    ensures Explore(s, None, c) == 1
  {
    assert c[0..][0] == c[0] && c[0..][1..] == c[1..];
    assert c[1..][0] == c[1] && c[1..][1..] == c[2..];
    assert c[2..][0] == c[2] && c[2..][1..] == c[3..];
    assert s[7..] == [];
    assert Explore(s[7..], Some(3), c[2..]) == 1;
    assert s[6..][0] == s[6] && s[6..][1..] == s[7..];
    assert Explore(s[6..], Some(2), c[2..]) == 1;
    assert s[5..][0] == s[5] && s[5..][1..] == s[6..];
    assert Explore(s[5..], Some(1), c[2..]) == 1;
    assert s[4..][0] == s[4] && s[4..][1..] == s[5..];
    assert Explore(s[4..], None, c[2..]) == 1;
    assert s[3..][0] == s[3] && s[3..][1..] == s[4..];
    assert Explore(s[3..], Some(1), c[1..]) == 1;
    assert s[2..][0] == s[2] && s[2..][1..] == s[3..];
    assert Explore(s[2..], None, c[1..]) == 1;
    assert s[1..][0] == s[1] && s[1..][1..] == s[2..];
    assert Explore(s[1..], Some(1), c[0..]) == 1;
    assert s[0..][0] == s[0] && s[0..][1..] == s[1..];
    assert Explore(s[0..], None, c[0..]) == 1;
    assert s[0..] == s && c[0..] == c;
  }

  /** "???.### 1,1,3" has one arrangement. */
  lemma SecondTestRow(s: seq<Spring>, c: seq<nat>)
    requires |s| == 7
    requires s[0] == Unknown && s[1] == Unknown && s[2] == Unknown && s[3] == Broken && s[4] == Working
    requires s[5] == Working && s[6] == Working
    requires |c| == 3 && c[0] == 1 && c[1] == 1 && c[2] == 3
    ensures Explore(s, None, c) == 1
  {
    assert c[0..][0] == c[0] && c[0..][1..] == c[1..];
    assert c[1..][0] == c[1] && c[1..][1..] == c[2..];
    assert c[2..][0] == c[2] && c[2..][1..] == c[3..];
    assert s[7..] == [];
    assert Explore(s[7..], Some(3), c[0..]) == 0;
    assert Explore(s[7..], Some(3), c[1..]) == 0;
    assert Explore(s[7..], Some(3), c[2..]) == 1;
    assert s[6..][0] == s[6] && s[6..][1..] == s[7..];
    assert Explore(s[6..], Some(2), c[0..]) == 0;
    assert Explore(s[6..], Some(2), c[1..]) == 0;
    assert Explore(s[6..], Some(2), c[2..]) == 1;
    assert s[5..][0] == s[5] && s[5..][1..] == s[6..];
    assert Explore(s[5..], Some(1), c[0..]) == 0;
    assert Explore(s[5..], Some(1), c[1..]) == 0;
    assert Explore(s[5..], Some(1), c[2..]) == 1;
    assert s[4..][0] == s[4] && s[4..][1..] == s[5..];
    assert Explore(s[4..], None, c[0..]) == 0;
    assert Explore(s[4..], None, c[1..]) == 0;
    assert Explore(s[4..], None, c[2..]) == 1;
    assert s[3..][0] == s[3] && s[3..][1..] == s[4..];
    assert Explore(s[3..], Some(1), c[0..]) == 0;
    assert Explore(s[3..], Some(1), c[1..]) == 1;
    assert Explore(s[3..], Some(2), c[0..]) == 0;
    assert Explore(s[3..], Some(3), c[0..]) == 0;
    assert Explore(s[3..], None, c[0..]) == 0;
    assert Explore(s[3..], None, c[1..]) == 0;
    assert s[2..][0] == s[2] && s[2..][1..] == s[3..];
    assert Explore(s[2..], Some(1), c[0..]) == 0;
    assert Explore(s[2..], Some(2), c[0..]) == 0;
    assert Explore(s[2..], None, c[0..]) == 0;
    assert Explore(s[2..], None, c[1..]) == 1;
    assert s[1..][0] == s[1] && s[1..][1..] == s[2..];
    assert Explore(s[1..], Some(1), c[0..]) == 1;
    assert Explore(s[1..], None, c[0..]) == 0;
    assert s[0..][0] == s[0] && s[0..][1..] == s[1..];
    assert Explore(s[0..], None, c[0..]) == 1;
    assert s[0..] == s && c[0..] == c;
  }

  /** ".??..??...?##. 1,1,3" has four arrangements. */
  lemma ThirdTestRow(s: seq<Spring>, c: seq<nat>)
    requires |s| == 14
    requires s[0] == Broken && s[1] == Unknown && s[2] == Unknown && s[3] == Broken && s[4] == Broken
    requires s[5] == Unknown && s[6] == Unknown && s[7] == Broken && s[8] == Broken && s[9] == Broken
    requires s[10] == Unknown && s[11] == Working && s[12] == Working && s[13] == Broken
    requires |c| == 3 && c[0] == 1 && c[1] == 1 && c[2] == 3
    ensures Explore(s, None, c) == 4
  {
    assert c[0..][0] == c[0] && c[0..][1..] == c[1..];
    assert c[1..][0] == c[1] && c[1..][1..] == c[2..];
    assert c[2..][0] == c[2] && c[2..][1..] == c[3..];
    assert s[14..] == [];
    assert Explore(s[14..], None, c[3..]) == 1;
    assert s[13..][0] == s[13] && s[13..][1..] == s[14..];
    assert Explore(s[13..], Some(2), c[0..]) == 0;
    assert Explore(s[13..], Some(2), c[1..]) == 0;
    assert Explore(s[13..], Some(2), c[2..]) == 0;
    assert Explore(s[13..], Some(3), c[0..]) == 0;
    assert Explore(s[13..], Some(3), c[1..]) == 0;
    assert Explore(s[13..], Some(3), c[2..]) == 1;
    assert s[12..][0] == s[12] && s[12..][1..] == s[13..];
    assert Explore(s[12..], Some(1), c[0..]) == 0;
    assert Explore(s[12..], Some(1), c[1..]) == 0;
    assert Explore(s[12..], Some(1), c[2..]) == 0;
    assert Explore(s[12..], Some(2), c[0..]) == 0;
    assert Explore(s[12..], Some(2), c[1..]) == 0;
    assert Explore(s[12..], Some(2), c[2..]) == 1;
    assert s[11..][0] == s[11] && s[11..][1..] == s[12..];
    assert Explore(s[11..], Some(1), c[0..]) == 0;
    assert Explore(s[11..], Some(1), c[1..]) == 0;
    assert Explore(s[11..], Some(1), c[2..]) == 1;
    assert Explore(s[11..], None, c[0..]) == 0;
    assert Explore(s[11..], None, c[1..]) == 0;
    assert Explore(s[11..], None, c[2..]) == 0;
    assert s[10..][0] == s[10] && s[10..][1..] == s[11..];
    assert Explore(s[10..], None, c[0..]) == 0;
    assert Explore(s[10..], None, c[1..]) == 0;
    assert Explore(s[10..], None, c[2..]) == 1;
    assert s[9..][0] == s[9] && s[9..][1..] == s[10..];
    assert Explore(s[9..], None, c[0..]) == 0;
    assert Explore(s[9..], None, c[1..]) == 0;
    assert Explore(s[9..], None, c[2..]) == 1;
    assert s[8..][0] == s[8] && s[8..][1..] == s[9..];
    assert Explore(s[8..], None, c[0..]) == 0;
    assert Explore(s[8..], None, c[1..]) == 0;
    assert Explore(s[8..], None, c[2..]) == 1;
    assert s[7..][0] == s[7] && s[7..][1..] == s[8..];
    assert Explore(s[7..], Some(1), c[0..]) == 0;
    assert Explore(s[7..], Some(1), c[1..]) == 1;
    assert Explore(s[7..], Some(2), c[0..]) == 0;
    assert Explore(s[7..], Some(2), c[1..]) == 0;
    assert Explore(s[7..], None, c[0..]) == 0;
    assert Explore(s[7..], None, c[1..]) == 0;
    assert Explore(s[7..], None, c[2..]) == 1;
    assert s[6..][0] == s[6] && s[6..][1..] == s[7..];
    assert Explore(s[6..], Some(1), c[0..]) == 0;
    assert Explore(s[6..], Some(1), c[1..]) == 1;
    assert Explore(s[6..], None, c[0..]) == 0;
    assert Explore(s[6..], None, c[1..]) == 1;
    assert s[5..][0] == s[5] && s[5..][1..] == s[6..];
    assert Explore(s[5..], None, c[0..]) == 0;
    assert Explore(s[5..], None, c[1..]) == 2;
    assert s[4..][0] == s[4] && s[4..][1..] == s[5..];
    assert Explore(s[4..], None, c[0..]) == 0;
    assert Explore(s[4..], None, c[1..]) == 2;
    assert s[3..][0] == s[3] && s[3..][1..] == s[4..];
    assert Explore(s[3..], Some(1), c[0..]) == 2;
    assert Explore(s[3..], Some(2), c[0..]) == 0;
    assert Explore(s[3..], None, c[0..]) == 0;
    assert Explore(s[3..], None, c[1..]) == 2;
    assert s[2..][0] == s[2] && s[2..][1..] == s[3..];
    assert Explore(s[2..], Some(1), c[0..]) == 2;
    assert Explore(s[2..], None, c[0..]) == 2;
    assert s[1..][0] == s[1] && s[1..][1..] == s[2..];
    assert Explore(s[1..], None, c[0..]) == 4;
    assert s[0..][0] == s[0] && s[0..][1..] == s[1..];
    assert Explore(s[0..], None, c[0..]) == 4;
    assert s[0..] == s && c[0..] == c;
  }
}
