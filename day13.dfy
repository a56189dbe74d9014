/** Mirrors in patterns of ash and rock (day13/src/main.rs).  A pattern
    is a grid of cells, rock being `true`; it reflects after column (or row)
    `r` when every column (row) at distance `i` to the left of the mirror
    line equals the one at the same distance to the right, as far as the
    nearer edge. */
module Day13 {
  import opened Common

  type Pattern = seq<seq<bool>>

  /** A parser's output and the input it left unread. */
  datatype Parsed<T> = Parsed(value: T, rest: string)

  // ---------------------------------------------------------------------
  // Parsing (nom combinators, complete input)

  /** `alt((char('.'), char('#')))`: '.' is ash, '#' is rock. */
  function CellOf(c: char): (r: Option<bool>)
    ensures r.Some? <==> c == '.' || c == '#'
    ensures r.Some? ==> (r.value <==> c == '#')
  {
    if c == '.' then Some(false) else if c == '#' then Some(true) else None
  }

  function CellChar(b: bool): char
  {
    if b then '#' else '.'
  }

  /** `line_ending`: "\n" or "\r\n". */
  function LineEnding(s: string): (r: Option<string>)
    ensures r.Some? <==> (|s| >= 1 && s[0] == '\n') || (|s| >= 2 && s[0] == '\r' && s[1] == '\n')
    ensures r.Some? ==> |r.value| < |s| && r.value == s[|s| - |r.value|..]
  {
    if |s| >= 1 && s[0] == '\n' then Some(s[1..])
    else if |s| >= 2 && s[0] == '\r' && s[1] == '\n' then Some(s[2..])
    else None
  }

  /** The cells at the front of `s`, as many as there are. */
  function Cells(s: string): (r: Parsed<seq<bool>>)
    ensures |r.value| <= |s| && r.rest == s[|r.value|..]
    ensures r.rest == [] || CellOf(r.rest[0]).None?
  {
    if s != [] && CellOf(s[0]).Some? then
      var more := Cells(s[1..]);
      Parsed([CellOf(s[0]).value] + more.value, more.rest)
    else Parsed([], s)
  }

  /** `terminated(many1(cell), line_ending)`: one row of a pattern. */
  function PatternLine(s: string): (r: Option<Parsed<seq<bool>>>)
    ensures r.Some? <==> Cells(s).value != [] && LineEnding(Cells(s).rest).Some?
    ensures r.Some? ==> r.value.value == Cells(s).value && |r.value.rest| < |s|
  {
    var cells := Cells(s);
    if cells.value == [] then None
    else
      var after := LineEnding(cells.rest);
      if after.None? then None else Some(Parsed(cells.value, after.value))
  }

  /** The rows at the front of `s`, as many as there are. */
  function PatternLines(s: string): (r: Parsed<Pattern>)
    ensures |r.rest| <= |s|
    ensures forall k :: 0 <= k < |r.value| ==> r.value[k] != []
    decreases |s|
  {
    var line := PatternLine(s);
    if line.None? then Parsed([], s)
    else
      var more := PatternLines(line.value.rest);
      Parsed([line.value.value] + more.value, more.rest)
  }

  /** `parse_pattern`: `many1` of rows. */
  function ParsePattern(s: string): (r: Option<Parsed<Pattern>>)
    ensures r.Some? <==> PatternLine(s).Some?
    ensures r.Some? ==> (r.value.value != [] && |r.value.rest| < |s| &&
      forall k :: 0 <= k < |r.value.value| ==> r.value.value[k] != [])
  {
    var lines := PatternLines(s);
    if lines.value == [] then None else Some(lines)
  }

  /** The patterns after the first, each behind a line ending; a separator
      not followed by a pattern is left unread. */
  function MorePatterns(s: string): (r: Parsed<seq<Pattern>>)
    ensures |r.rest| <= |s|
    ensures forall k :: 0 <= k < |r.value| ==> r.value[k] != []
    decreases |s|
  {
    var after := LineEnding(s);
    if after.None? then Parsed([], s)
    else
      var pattern := ParsePattern(after.value);
      if pattern.None? then Parsed([], s)
      else
        var more := MorePatterns(pattern.value.rest);
        Parsed([pattern.value.value] + more.value, more.rest)
  }

  /** `parse_input`: `separated_list1(line_ending, parse_pattern)`; it fails
      only when the input does not start with a pattern row. */
  function ParseInput(s: string): (r: Option<Parsed<seq<Pattern>>>)
    ensures r.Some? <==> PatternLine(s).Some?
    ensures r.Some? ==> r.value.value != [] && forall k :: 0 <= k < |r.value.value| ==> r.value.value[k] != []
  {
    var first := ParsePattern(s);
    if first.None? then None
    else
      var more := MorePatterns(first.value.rest);
      Some(Parsed([first.value.value] + more.value, more.rest))
  }

  // ---------------------------------------------------------------------
  // Printing a pattern back, for the round trip

  function RowText(row: seq<bool>): (r: string)
    ensures |r| == |row| && forall k :: 0 <= k < |row| ==> r[k] == CellChar(row[k])
  {
    seq(|row|, k requires 0 <= k < |row| => CellChar(row[k]))
  }

  /** Every row followed by the line ending. */
  function PatternText(p: Pattern, ending: string): string
  {
    if p == [] then "" else RowText(p[0]) + ending + PatternText(p[1..], ending)
  }

  /** The two line endings `line_ending` accepts. */
  predicate IsLineEnding(ending: string)
  {
    ending == "\n" || ending == "\r\n"
  }

  /** Every pattern after the first, each behind a "\n". */
  function MoreText(ps: seq<Pattern>): string
  {
    if ps == [] then "" else "\n" + PatternText(ps[0], "\n") + MoreText(ps[1..])
  }

  function InputText(ps: seq<Pattern>): string
    requires ps != []
  {
    PatternText(ps[0], "\n") + MoreText(ps[1..])
  }

  /** Rows holding at least one cell each, as the parser requires. */
  ghost predicate Printable(p: Pattern)
  {
    p != [] && forall k :: 0 <= k < |p| ==> p[k] != []
  }

  lemma {:induction false} CellsOfRow(row: seq<bool>, t: string)
    requires t == [] || CellOf(t[0]).None?
    ensures Cells(RowText(row) + t) == Parsed(row, t)
    decreases |row|
  {
    var s := RowText(row) + t;
    if row != [] {
      assert s[0] == CellChar(row[0]);
      assert s[1..] == RowText(row[1..]) + t;
      CellsOfRow(row[1..], t);
      assert [row[0]] + row[1..] == row;
    } else {
      assert s == t;
    }
  }

  /** A row of cells followed by a line ending is one pattern line. */
  lemma LineOfRow(row: seq<bool>, ending: string, t: string)
    requires row != [] && IsLineEnding(ending)
    ensures PatternLine(RowText(row) + ending + t) == Some(Parsed(row, t))
  {
    assert RowText(row) + ending + t == RowText(row) + (ending + t);
    CellsOfRow(row, ending + t);
    assert LineEnding(ending + t) == Some(t) by {
      if ending == "\n" {
        assert (ending + t)[1..] == t;
      } else {
        assert (ending + t)[2..] == t;
      }
    }
  }

  /** A pattern line in front adds one row. */
  lemma LinesStep(s: string, row: seq<bool>, t: string)
    requires PatternLine(s) == Some(Parsed(row, t))
    ensures PatternLines(s) == Parsed([row] + PatternLines(t).value, PatternLines(t).rest)
  {
  }

  /** A row of cells and a line ending in front add that row. */
  lemma LinesOfRowText(row: seq<bool>, ending: string, t: string)
    requires row != [] && IsLineEnding(ending)
    ensures PatternLines(RowText(row) + ending + t) == Parsed([row] + PatternLines(t).value, PatternLines(t).rest)
  {
    LineOfRow(row, ending, t);
    LinesStep(RowText(row) + ending + t, row, t);
  }

  /** The text of a pattern starts with its first row and line ending. */
  lemma TextFront(row: seq<bool>, rest: Pattern, ending: string, t: string)
    ensures PatternText([row] + rest, ending) + t == RowText(row) + ending + (PatternText(rest, ending) + t)
  {
    assert ([row] + rest)[1..] == rest;
  }

  lemma PatternLinesStep(row: seq<bool>, rest: Pattern, ending: string, t: string)
    requires row != [] && IsLineEnding(ending)
    requires PatternLines(PatternText(rest, ending) + t) == Parsed(rest, t)
    ensures PatternLines(PatternText([row] + rest, ending) + t) == Parsed([row] + rest, t)
  {
    TextFront(row, rest, ending, t);
    LinesOfRowText(row, ending, PatternText(rest, ending) + t);
  }

  lemma ConsSplit<T>(xs: seq<T>)
    requires xs != []
    ensures [xs[0]] + xs[1..] == xs
  {
  }

  lemma PatternLinesCons(p: Pattern, ending: string, t: string)
    requires p != [] && p[0] != [] && IsLineEnding(ending)
    requires PatternLines(PatternText(p[1..], ending) + t) == Parsed(p[1..], t)
    ensures PatternLines(PatternText(p, ending) + t) == Parsed(p, t)
  {
    ConsSplit(p);
    PatternLinesStep(p[0], p[1..], ending, t);
  }

  lemma {:induction false} PatternLinesOfText(p: Pattern, ending: string, t: string)
    requires forall k :: 0 <= k < |p| ==> p[k] != []
    requires IsLineEnding(ending)
    requires t == [] || CellOf(t[0]).None?
    ensures PatternLines(PatternText(p, ending) + t) == Parsed(p, t)
    decreases |p|
  {
    if p == [] {
      assert PatternText(p, ending) + t == t;
    } else {
      PatternLinesOfText(p[1..], ending, t);
      PatternLinesCons(p, ending, t);
    }
  }

  /** A printable pattern's text is parsed back as that pattern. */
  lemma ParsePatternOfText(p: Pattern, t: string)
    requires Printable(p)
    requires t == [] || CellOf(t[0]).None?
    ensures ParsePattern(PatternText(p, "\n") + t) == Some(Parsed(p, t))
  {
    PatternLinesOfText(p, "\n", t);
  }

  /** A line ending and a pattern in front add that pattern. */
  lemma MoreStep(s: string, body: string, p: Pattern, t: string)
    requires LineEnding(s) == Some(body) && ParsePattern(body) == Some(Parsed(p, t))
    ensures MorePatterns(s) == Parsed([p] + MorePatterns(t).value, MorePatterns(t).rest)
  {
  }

  lemma MoreStepText(p: Pattern, rest: seq<Pattern>)
    requires Printable(p)
    requires MorePatterns(MoreText(rest)) == Parsed(rest, "")
    ensures MorePatterns(MoreText([p] + rest)) == Parsed([p] + rest, "")
  {
    var after := MoreText(rest);
    var body := PatternText(p, "\n") + after;
    assert ([p] + rest)[1..] == rest;
    assert MoreText([p] + rest) == "\n" + body;
    assert LineEnding("\n" + body) == Some(body) by {
      assert ("\n" + body)[1..] == body;
    }
    assert after == [] || after[0] == '\n';
    ParsePatternOfText(p, after);
    MoreStep("\n" + body, body, p, after);
  }

  lemma {:induction false} MorePatternsOfText(ps: seq<Pattern>)
    requires forall k :: 0 <= k < |ps| ==> Printable(ps[k])
    ensures MorePatterns(MoreText(ps)) == Parsed(ps, "")
    decreases |ps|
  {
    if ps != [] {
      MorePatternsOfText(ps[1..]);
      ConsSplit(ps);
      MoreStepText(ps[0], ps[1..]);
    }
  }

  /** Patterns printed with "\n" line endings and one empty line between
      patterns parse back, with nothing left over. */
  /** The first pattern and the patterns after it. */
  lemma InputStep(s: string, p: Pattern, t: string)
    requires ParsePattern(s) == Some(Parsed(p, t))
    ensures ParseInput(s) == Some(Parsed([p] + MorePatterns(t).value, MorePatterns(t).rest))
  {
  }

  lemma ParseInputText(ps: seq<Pattern>)
    requires ps != [] && forall k :: 0 <= k < |ps| ==> Printable(ps[k])
    ensures ParseInput(InputText(ps)) == Some(Parsed(ps, ""))
  {
    MorePatternsOfText(ps[1..]);
    ConsSplit(ps);
    InputTextCons(ps[0], ps[1..]);
  }

  lemma InputTextCons(p: Pattern, rest: seq<Pattern>)
    requires Printable(p)
    requires MorePatterns(MoreText(rest)) == Parsed(rest, "")
    ensures ParseInput(InputText([p] + rest)) == Some(Parsed([p] + rest, ""))
  {
    var after := MoreText(rest);
    assert ([p] + rest)[0] == p && ([p] + rest)[1..] == rest;
    assert after == [] || after[0] == '\n';
    ParsePatternOfText(p, after);
    InputStep(PatternText(p, "\n") + after, p, after);
  }

  /** A row twice, each time with a "\r\n" line ending, then an empty
      line: two rows are read and the empty line is left. */
  lemma TwoRowsParse(row: seq<bool>)
    requires row != []
    ensures ParsePattern(PatternText([row, row], "\r\n") + "\r\n") == Some(Parsed([row, row], "\r\n"))
  {
    PatternLinesOfText([row, row], "\r\n", "\r\n");
  }

  /** The input of `test_parse_pattern` is the row "#..#..##.#." twice,
      each with a "\r\n" line ending, then an empty line. */
  lemma ParsePatternExample(row: seq<bool>)
    requires row == [true, false, false, true, false, false, true, true, false, true, false]
    ensures RowText(row) == "#..#..##.#."
    ensures ParsePattern(PatternText([row, row], "\r\n") + "\r\n") == Some(Parsed([row, row], "\r\n"))
  {
    TwoRowsParse(row);
  }

  // ---------------------------------------------------------------------
  // Reflections

  /** How many pairs are compared for a mirror after `r` in a sequence of
      `n`: as far as the nearer edge. */
  function Reach(n: nat, r: nat): (k: nat)
    requires r + 1 < n
    ensures k >= 1 && k <= r + 1 && r + k < n
    ensures k == r + 1 || r + k + 1 == n
  {
    if r + 1 < n - 1 - r then r + 1 else n - 1 - r
  }

  /** The `i`-th pair around a mirror after `r`: elements `r - i` and
      `r + i + 1` agree. */
  ghost predicate PairAgrees<T>(xs: seq<T>, r: nat, i: nat)
    requires i <= r && r + i + 1 < |xs|
  {
    xs[r - i] == xs[r + i + 1]
  }

  /** Every pair within reach agrees. */
  ghost predicate MirrorsAfter<T>(xs: seq<T>, r: nat)
    requires r + 1 < |xs|
  {
    forall i :: 0 <= i < Reach(|xs|, r) ==> PairAgrees(xs, r, i)
  }

  function Reverse<T>(xs: seq<T>): (r: seq<T>)
    ensures |r| == |xs| && forall i :: 0 <= i < |xs| ==> r[i] == xs[|xs| - 1 - i]
  {
    if xs == [] then [] else Reverse(xs[1..]) + [xs[0]]
  }

  /** A mirror after `r`: the `k` elements up to it, reversed, are the `k`
      elements after it. */
  lemma MirrorsAsReverse<T>(xs: seq<T>, r: nat)
    requires r + 1 < |xs|
    ensures var k := Reach(|xs|, r);
      MirrorsAfter(xs, r) <==> Reverse(xs[r + 1 - k..r + 1]) == xs[r + 1..r + 1 + k]
  {
    var k := Reach(|xs|, r);
    if MirrorsAfter(xs, r) {
      MirrorsToReverse(xs, r, k);
    }
    if Reverse(xs[r + 1 - k..r + 1]) == xs[r + 1..r + 1 + k] {
      ReverseToMirrors(xs, r, k);
    }
  }

  lemma MirrorsToReverse<T>(xs: seq<T>, r: nat, k: nat)
    requires r + 1 < |xs| && k == Reach(|xs|, r)
    requires MirrorsAfter(xs, r)
    ensures Reverse(xs[r + 1 - k..r + 1]) == xs[r + 1..r + 1 + k]
  {
    var left := Reverse(xs[r + 1 - k..r + 1]);
    var right := xs[r + 1..r + 1 + k];
    forall i | 0 <= i < k
      ensures left[i] == right[i]
    {
      assert PairAgrees(xs, r, i);
      MirrorPairAt(xs, r, k, i);
    }
  }

  lemma ReverseToMirrors<T>(xs: seq<T>, r: nat, k: nat)
    requires r + 1 < |xs| && k == Reach(|xs|, r)
    requires Reverse(xs[r + 1 - k..r + 1]) == xs[r + 1..r + 1 + k]
    ensures MirrorsAfter(xs, r)
  {
    forall i | 0 <= i < k
      ensures PairAgrees(xs, r, i)
    {
      MirrorPairAt(xs, r, k, i);
    }
  }

  /** The `i`-th pair around `r`, read off the reversed left half and the
      right half. */
  lemma MirrorPairAt<T>(xs: seq<T>, r: nat, k: nat, i: nat)
    requires 1 <= k <= r + 1 && r + k < |xs| && i < k
    ensures Reverse(xs[r + 1 - k..r + 1])[i] == xs[r - i]
    ensures xs[r + 1..r + 1 + k][i] == xs[r + i + 1]
    ensures PairAgrees(xs, r, i) <==> Reverse(xs[r + 1 - k..r + 1])[i] == xs[r + 1..r + 1 + k][i]
  {
  }

  /** `has_vertical_reflection`: the line mirrors after position `r`. */
  method HasVerticalReflection(line: seq<bool>, r: nat) returns (b: bool)
    requires r + 1 < |line|
    ensures b <==> MirrorsAfter(line, r)
  {
    var reach := if r + 1 < |line| - 1 - r then r + 1 else |line| - 1 - r;
    for i := 0 to reach
      invariant forall j :: 0 <= j < i ==> PairAgrees(line, r, j)
    {
      if line[r - i] != line[r + i + 1] {
        assert !PairAgrees(line, r, i) && reach == Reach(|line|, r);
        return false;
      }
    }
    return true;
  }

  /** `has_horizontal_reflection`: whole rows mirror after row `r`. */
  method HasHorizontalReflection(p: Pattern, r: nat) returns (b: bool)
    requires r + 1 < |p|
    ensures b <==> MirrorsAfter(p, r)
  {
    var reach := if r + 1 < |p| - 1 - r then r + 1 else |p| - 1 - r;
    for i := 0 to reach
      invariant forall j :: 0 <= j < i ==> PairAgrees(p, r, j)
    {
      if p[r - i] != p[r + i + 1] {
        assert !PairAgrees(p, r, i) && reach == Reach(|p|, r);
        return false;
      }
    }
    return true;
  }

  /** A non-empty grid whose rows all have the width of the first, which
      is at least one cell. */
  ghost predicate Rectangular(p: Pattern)
  {
    p != [] && p[0] != [] && forall k :: 0 <= k < |p| ==> |p[k]| == |p[0]|
  }

  /** Every row mirrors after column `c`. */
  ghost predicate VerticalAt(p: Pattern, c: nat)
    requires Rectangular(p) && c + 1 < |p[0]|
  {
    forall k :: 0 <= k < |p| ==> MirrorsAfter(p[k], c)
  }

  /** The first column from `c` on after which the pattern mirrors. */
  ghost function FirstVertical(p: Pattern, c: nat): (r: Option<nat>)
    requires Rectangular(p)
    ensures r.Some? ==> c <= r.value && r.value + 1 < |p[0]| && VerticalAt(p, r.value)
    ensures forall j :: c <= j && j + 1 < |p[0]| && (r.None? || j < r.value) ==> !VerticalAt(p, j)
    decreases |p[0]| - c
  {
    if c + 1 >= |p[0]| then None
    else if VerticalAt(p, c) then Some(c)
    else FirstVertical(p, c + 1)
  }

  /** The first row from `r` on after which the pattern mirrors. */
  ghost function FirstHorizontal(p: Pattern, r: nat): (o: Option<nat>)
    requires p != []
    ensures o.Some? ==> r <= o.value && o.value + 1 < |p| && MirrorsAfter(p, o.value)
    ensures forall j :: r <= j && j + 1 < |p| && (o.None? || j < o.value) ==> !MirrorsAfter(p, j)
    decreases |p| - r
  {
    if r + 1 >= |p| then None
    else if MirrorsAfter(p, r) then Some(r)
    else FirstHorizontal(p, r + 1)
  }

  /** `find_vertical_reflection`: the first column after which every row
      mirrors. */
  method FindVerticalReflection(p: Pattern) returns (r: Option<nat>)
    requires Rectangular(p)
    ensures r == FirstVertical(p, 0)
  {
    var c := 0;
    while c + 1 < |p[0]|
      invariant FirstVertical(p, 0) == FirstVertical(p, c)
      decreases |p[0]| - c
    {
      var all := true;
      var k := 0;
      while k < |p| && all
        invariant 0 <= k <= |p|
        invariant all <==> forall j :: 0 <= j < k ==> MirrorsAfter(p[j], c)
        decreases |p| - k, all
      {
        all := HasVerticalReflection(p[k], c);
        k := k + 1;
      }
      if all {
        return Some(c);
      }
      c := c + 1;
    }
    return None;
  }

  /** `find_horizontal_reflection`: the first row after which the rows
      mirror. */
  method FindHorizontalReflection(p: Pattern) returns (r: Option<nat>)
    requires p != []
    ensures r == FirstHorizontal(p, 0)
  {
    var row := 0;
    while row + 1 < |p|
      invariant FirstHorizontal(p, 0) == FirstHorizontal(p, row)
      decreases |p| - row
    {
      var b := HasHorizontalReflection(p, row);
      if b {
        return Some(row);
      }
      row := row + 1;
    }
    return None;
  }

  /** The line of `test_has_vertical_reflection`, "##..##": it mirrors
      after positions 0, 2 and 4 and not after 1 or 3. */
  lemma VerticalLineExample(line: seq<bool>)
    requires line == [true, true, false, false, true, true]
    ensures MirrorsAfter(line, 0) && MirrorsAfter(line, 2) && MirrorsAfter(line, 4)
    ensures !MirrorsAfter(line, 1) && !MirrorsAfter(line, 3)
  {
    assert PairAgrees(line, 0, 0);
    assert PairAgrees(line, 2, 0) && PairAgrees(line, 2, 1) && PairAgrees(line, 2, 2);
    assert PairAgrees(line, 4, 0);
    assert !PairAgrees(line, 1, 0) && !PairAgrees(line, 3, 0);
  }

  /** The pattern of `test_find_vertical_reflection`: every row mirrors
      after column 4 and at no earlier column. */
  lemma FindVerticalExample(p: Pattern)
    requires |p| == 7
    requires p[0] == [true, false, true, true, false, false, true, true, false]
    requires p[1] == [false, false, true, false, true, true, false, true, false]
    requires p[2] == [true, true, false, false, false, false, false, false, true]
    requires p[3] == [true, true, false, false, false, false, false, false, true]
    requires p[4] == [false, false, true, false, true, true, false, true, false]
    requires p[5] == [false, false, true, true, false, false, true, true, false]
    requires p[6] == [true, false, true, false, true, true, false, true, false]
    ensures Rectangular(p) && FirstVertical(p, 0) == Some(4)
  {
    assert !PairAgrees(p[0], 0, 0);
    assert !PairAgrees(p[0], 1, 0);
    assert !PairAgrees(p[0], 2, 2);
    assert !PairAgrees(p[0], 3, 0);
    assert VerticalAt(p, 4) by {
      forall k | 0 <= k < |p|
        ensures MirrorsAfter(p[k], 4)
      {
        assert k == 0 || k == 1 || k == 2 || k == 3 || k == 4 || k == 5 || k == 6;
      }
    }
  }

  /** The pattern of `test_has_horizontal_reflection`: the rows mirror
      after row 3 and after no other row, so the search finds row 3. */
  lemma HorizontalExample(p: Pattern)
    requires |p| == 7
    requires p[0] == [true, false, false, false, true, true, false, false, true]
    requires p[1] == [true, false, false, false, false, true, false, false, true]
    requires p[2] == [false, false, true, true, false, false, true, true, true]
    requires p[3] == [true, true, true, true, true, false, true, true, false]
    requires p[4] == [true, true, true, true, true, false, true, true, false]
    requires p[5] == [false, false, true, true, false, false, true, true, true]
    requires p[6] == [true, false, false, false, false, true, false, false, true]
    ensures forall r :: 0 <= r && r + 1 < |p| ==> (MirrorsAfter(p, r) <==> r == 3)
    ensures FirstHorizontal(p, 0) == Some(3)
  {
    assert p[0][4] != p[1][4] && !PairAgrees(p, 0, 0);
    assert p[1][0] != p[2][0] && !PairAgrees(p, 1, 0);
    assert p[2][0] != p[3][0] && !PairAgrees(p, 2, 0);
    assert MirrorsAfter(p, 3) by {
      assert PairAgrees(p, 3, 0) && PairAgrees(p, 3, 1) && PairAgrees(p, 3, 2);
    }
    assert p[4][0] != p[5][0] && !PairAgrees(p, 4, 0);
    assert p[5][0] != p[6][0] && !PairAgrees(p, 5, 0);
  }

  // ---------------------------------------------------------------------
  // Rows and columns

  function Transpose(p: Pattern): (t: Pattern)
    requires Rectangular(p)
    ensures |t| == |p[0]| && forall c :: 0 <= c < |t| ==> |t[c]| == |p|
    ensures forall c, k :: 0 <= c < |p[0]| && 0 <= k < |p| ==> t[c][k] == p[k][c]
  {
    seq(|p[0]|, c requires 0 <= c < |p[0]| => seq(|p|, k requires 0 <= k < |p| => p[k][c]))
  }

  /** Every row mirrors after column `c` exactly when the columns of the
      pattern, read as rows, mirror after `c`. */
  lemma VerticalIsTransposedHorizontal(p: Pattern, c: nat)
    requires Rectangular(p) && c + 1 < |p[0]|
    ensures var t := Transpose(p); Rectangular(t) && (VerticalAt(p, c) <==> MirrorsAfter(t, c))
  {
    var t := Transpose(p);
    var n := |p[0]|;
    assert Reach(|t|, c) == Reach(n, c);
    if VerticalAt(p, c) {
      forall i | 0 <= i < Reach(n, c)
        ensures PairAgrees(t, c, i)
      {
        forall k | 0 <= k < |p|
          ensures PairAgrees(p[k], c, i)
        {
          assert MirrorsAfter(p[k], c);
        }
        assert forall k :: 0 <= k < |p| ==> t[c - i][k] == p[k][c - i] && t[c + i + 1][k] == p[k][c + i + 1];
        assert t[c - i] == t[c + i + 1];
      }
    }
    if MirrorsAfter(t, c) {
      forall k | 0 <= k < |p|
        ensures MirrorsAfter(p[k], c)
      {
        forall i | 0 <= i < Reach(n, c)
          ensures PairAgrees(p[k], c, i)
        {
          assert PairAgrees(t, c, i);
          assert t[c - i][k] == t[c + i + 1][k];
        }
      }
    }
  }

  /** So the vertical search is the horizontal search on the transposed
      pattern. */
  lemma {:induction false} FirstVerticalIsTransposed(p: Pattern, c: nat)
    requires Rectangular(p)
    ensures FirstVertical(p, c) == FirstHorizontal(Transpose(p), c)
    decreases |p[0]| - c
  {
    if c + 1 < |p[0]| {
      VerticalIsTransposedHorizontal(p, c);
      FirstVerticalIsTransposed(p, c + 1);
    }
  }

  // ---------------------------------------------------------------------
  // The summary

  function Score(o: Option<nat>): nat
  {
    if o.Some? then o.value + 1 else 0
  }

  /** Columns left of the vertical mirror plus 100 times the rows above the
      horizontal one, a missing mirror counting 0. */
  ghost function Summary(p: Pattern): nat
    requires Rectangular(p)
  {
    Score(FirstVertical(p, 0)) + 100 * Score(FirstHorizontal(p, 0))
  }

  ghost function TotalSummary(ps: seq<Pattern>): nat
    requires forall k :: 0 <= k < |ps| ==> Rectangular(ps[k])
  {
    if ps == [] then 0 else TotalSummary(ps[..|ps| - 1]) + Summary(ps[|ps| - 1])
  }

  /** Part 1: the summaries of all patterns added up. */
  method Part1(ps: seq<Pattern>) returns (total: nat)
    requires forall k :: 0 <= k < |ps| ==> Rectangular(ps[k])
    ensures total == TotalSummary(ps)
  {
    total := 0;
    for i := 0 to |ps|
      invariant total == TotalSummary(ps[..i])
    {
      assert ps[..i + 1][..i] == ps[..i];
      var v := FindVerticalReflection(ps[i]);
      var h := FindHorizontalReflection(ps[i]);
      total := total + Score(v) + 100 * Score(h);
    }
    assert ps[..|ps|] == ps;
  }

  /** A pattern mirrored after column `c` and nowhere earlier, with no
      horizontal mirror, scores `c + 1`. */
  lemma SummaryOfVertical(p: Pattern, c: nat)
    requires Rectangular(p) && c + 1 < |p[0]| && VerticalAt(p, c)
    requires forall j :: 0 <= j < c ==> !VerticalAt(p, j)
    requires forall j :: 0 <= j && j + 1 < |p| ==> !MirrorsAfter(p, j)
    ensures Summary(p) == c + 1
  {

  }
}
