/** Cube-game parsing (day02/src/main.rs).  A game line is
    "Game <id>: <set>; <set>; ..." and a set is a comma-separated list of
    "<count> <colour>" draws.  Every `unwrap` and the `panic!` on an unknown
    colour become `Err`. */
module Day02 {
  import opened Common
  import opened Text

  /** The source's `Set`: the count last drawn of each colour. */
  datatype CubeSet = CubeSet(reds: int, greens: int, blues: int)

  datatype Game = Game(id: int, sets: seq<CubeSet>)

  const NoCubes := CubeSet(0, 0, 0)

  // ---------------------------------------------------------------------------
  // parse_set

  /** One comma piece: trimmed, split at single spaces, the first word is the
      count and the second the colour. */
  function ParseDraw(item: string): Result<(int, string)>
  {
    var words := Split(Trim(item), ' ');
    match ParseInt(words[0])
    case None => Err("bad count")
    case Some(count) =>
      if |words| < 2 then Err("no colour") else Ok((count, words[1]))
  }

  predicate IsColour(colour: string)
  {
    colour == "red" || colour == "green" || colour == "blue"
  }

  /** The `match color` arm: set one colour's count, or fail on an unknown one. */
  function Assign(s: CubeSet, colour: string, count: int): (r: Result<CubeSet>)
    ensures r.Ok? <==> IsColour(colour)
  {
    if colour == "red" then Ok(s.(reds := count))
    else if colour == "green" then Ok(s.(greens := count))
    else if colour == "blue" then Ok(s.(blues := count))
    else Err("unknown colour")
  }

  /** The loop of `parse_set` as a left fold over the comma pieces. */
  function ApplyDraws(s: CubeSet, items: seq<string>): Result<CubeSet>
    decreases |items|
  {
    if items == [] then Ok(s)
    else match ParseDraw(items[0])
      case Err(e) => Err(e)
      case Ok(d) =>
        match Assign(s, d.1, d.0)
        case Err(e) => Err(e)
        case Ok(s') => ApplyDraws(s', items[1..])
  }

  /** What `parse_set` returns for `input`. */
  function SetOf(input: string): Result<CubeSet>
  {
    ApplyDraws(NoCubes, Split(input, ','))
  }

  /** `parse_set`: all colours start at 0 and each draw assigns its colour. */
  method ParseSet(input: string) returns (r: Result<CubeSet>)
    ensures r == SetOf(input)
  {
    var reds, greens, blues := 0, 0, 0;
    var splits := Split(input, ',');
    var i := 0;
    assert splits[i..] == splits;
    while i < |splits|
      invariant 0 <= i <= |splits|
      invariant SetOf(input) == ApplyDraws(CubeSet(reds, greens, blues), splits[i..])
    {
      ghost var before := CubeSet(reds, greens, blues);
      ApplyDrawsStep(before, splits[i..]);
      assert splits[i..][0] == splits[i] && splits[i..][1..] == splits[i + 1..];
      var d := ParseDraw(splits[i]);
      if d.Err? {
        return Err(d.msg);
      }
      var (count, colour) := d.value;
      if colour == "red" {
        reds := count;
      } else if colour == "green" {
        greens := count;
      } else if colour == "blue" {
        blues := count;
      } else {
        return Err("unknown colour");
      }
      assert CubeSet(reds, greens, blues) == Assign(before, colour, count).value;
      i := i + 1;
    }
    assert splits[i..] == [];
    r := Ok(CubeSet(reds, greens, blues));
  }

  lemma ApplyDrawsStep(s: CubeSet, items: seq<string>)
    requires items != []
    ensures ParseDraw(items[0]).Err? ==> ApplyDraws(s, items) == Err(ParseDraw(items[0]).msg)
    ensures ParseDraw(items[0]).Ok? ==>
      var d := ParseDraw(items[0]).value;
      ApplyDraws(s, items)
        == if Assign(s, d.1, d.0).Ok? then ApplyDraws(Assign(s, d.1, d.0).value, items[1..])
           else Err("unknown colour")
  {
  }

  /** A draw `parse_set` accepts: a count, a colour, and a known colour. */
  predicate DrawOk(item: string)
  {
    ParseDraw(item).Ok? && IsColour(ParseDraw(item).value.1)
  }

  /** The count of the last accepted draw of `colour`, or `initial` if none:
      read from the back, independently of the fold. */
  function LastCount(items: seq<string>, colour: string, initial: int): int
  {
    if items == [] then initial
    else Pick(items[|items| - 1], colour, LastCount(items[..|items| - 1], colour, initial))
  }

  /** The count `item` draws of `colour` when it is an accepted draw of it, else `earlier`. */
  function Pick(item: string, colour: string, earlier: int): int
  {
    if DrawOk(item) && ParseDraw(item).value.1 == colour then ParseDraw(item).value.0 else earlier
  }

  lemma {:induction false} LastCountCons(items: seq<string>, colour: string, initial: int)
    requires items != []
    ensures LastCount(items, colour, initial)
         == LastCount(items[1..], colour, LastCount(items[..1], colour, initial))
    decreases |items|
  {
    var n := |items|;
    var x := LastCount(items[..1], colour, initial);
    if n == 1 {
      assert items[..1] == items;
      assert items[1..] == [];
    } else {
      var p := items[..n - 1];
      var t := items[1..];
      var last := items[n - 1];
      assert LastCount(p, colour, initial) == LastCount(p[1..], colour, x) by {
        LastCountCons(p, colour, initial);
        assert p[..1] == items[..1];
      }
      assert LastCount(items, colour, initial) == Pick(last, colour, LastCount(p, colour, initial)) by {
        LastCountSnoc(items, colour, initial);
      }
      assert LastCount(t, colour, x) == Pick(last, colour, LastCount(p[1..], colour, x)) by {
        LastCountSnoc(t, colour, x);
        assert t[..|t| - 1] == p[1..];
        assert t[|t| - 1] == last;
      }
    }
  }

  lemma LastCountSnoc(items: seq<string>, colour: string, initial: int)
    requires items != []
    ensures LastCount(items, colour, initial)
         == Pick(items[|items| - 1], colour, LastCount(items[..|items| - 1], colour, initial))
  {
  }

  /** Parsing a set fails exactly when some draw is malformed or names an
      unknown colour; otherwise each colour holds its last drawn count
      (later duplicates override earlier ones) and 0 when never drawn. */
  lemma {:induction false} ApplyDrawsLastWins(s: CubeSet, items: seq<string>)
    ensures ApplyDraws(s, items).Ok? <==> forall i :: 0 <= i < |items| ==> DrawOk(items[i])
    ensures ApplyDraws(s, items).Ok? ==>
      ApplyDraws(s, items).value
        == CubeSet(LastCount(items, "red", s.reds), LastCount(items, "green", s.greens),
                   LastCount(items, "blue", s.blues))
    decreases |items|
  {
    ApplyDrawsOk(s, items);
    ApplyDrawsValue(s, items);
  }

  lemma {:induction false} ApplyDrawsOk(s: CubeSet, items: seq<string>)
    ensures ApplyDraws(s, items).Ok? <==> forall i :: 0 <= i < |items| ==> DrawOk(items[i])
    decreases |items|
  {
    if items != [] {
      var d := ParseDraw(items[0]);
      if d.Ok? && IsColour(d.value.1) {
        var s' := Assign(s, d.value.1, d.value.0).value;
        ApplyDrawsOk(s', items[1..]);
        assert forall i :: 1 <= i < |items| ==> items[i] == items[1..][i - 1];
      } else {
        assert !DrawOk(items[0]);
      }
    }
  }

  lemma {:induction false} ApplyDrawsValue(s: CubeSet, items: seq<string>)
    ensures ApplyDraws(s, items).Ok? ==>
      ApplyDraws(s, items).value
        == CubeSet(LastCount(items, "red", s.reds), LastCount(items, "green", s.greens),
                   LastCount(items, "blue", s.blues))
    decreases |items|
  {
    if items != [] {
      var d := ParseDraw(items[0]);
      if d.Ok? && IsColour(d.value.1) {
        var s' := Assign(s, d.value.1, d.value.0).value;
        ApplyDrawsValue(s', items[1..]);
        AssignFields(s, d.value.1, d.value.0);
        LastCountHead(items, "red", s.reds, s'.reds);
        LastCountHead(items, "green", s.greens, s'.greens);
        LastCountHead(items, "blue", s.blues, s'.blues);
      }
    }
  }

  /** The fields `Assign` leaves and the one it sets. */
  lemma AssignFields(s: CubeSet, colour: string, count: int)
    requires IsColour(colour)
    ensures Assign(s, colour, count).value.reds == if colour == "red" then count else s.reds
    ensures Assign(s, colour, count).value.greens == if colour == "green" then count else s.greens
    ensures Assign(s, colour, count).value.blues == if colour == "blue" then count else s.blues
  {
  }

  /** Consuming the first accepted draw moves it into the initial count. */
  lemma LastCountHead(items: seq<string>, colour: string, initial: int, next: int)
    requires items != [] && DrawOk(items[0])
    requires next == if ParseDraw(items[0]).value.1 == colour then ParseDraw(items[0]).value.0 else initial
    ensures LastCount(items, colour, initial) == LastCount(items[1..], colour, next)
  {
    LastCountCons(items, colour, initial);
    assert items[..1][..0] == [];
  }

  /** `SetOf` is the set parse: it fails exactly when a draw is malformed or
      names an unknown colour, and otherwise holds the last count of each
      colour, 0 if absent. */
  lemma SetOfLastWins(input: string, items: seq<string>)
    requires items == Split(input, ',')
    ensures SetOf(input).Ok? <==> forall i :: 0 <= i < |items| ==> DrawOk(items[i])
    ensures SetOf(input).Ok? ==>
      SetOf(input).value
        == CubeSet(LastCount(items, "red", 0), LastCount(items, "green", 0), LastCount(items, "blue", 0))
  {
    ApplyDrawsLastWins(NoCubes, items);
  }

  // ---------------------------------------------------------------------------
  // parse_game, parse_input

  /** Each ';' piece parsed as a set, in order. */
  function SetsOf(pieces: seq<string>): (r: seq<Result<CubeSet>>)
    ensures |r| == |pieces| && forall i :: 0 <= i < |pieces| ==> r[i] == SetOf(pieces[i])
  {
    seq(|pieces|, i requires 0 <= i < |pieces| => SetOf(pieces[i]))
  }

  /** `parse_game`: the id is the second single-space-separated word before
      the ':', the sets are the ';'-separated pieces after it. */
  function ParseGame(input: string): (r: Result<Game>)
    ensures ':' !in input ==> r.Err?
  {
    var atColon := Split(input, ':');
    var words := Split(atColon[0], ' ');
    if |words| < 2 then Err("no game id")
    else match ParseInt(words[1])
      case None => Err("bad game id")
      case Some(id) =>
        if |atColon| < 2 then
          SplitJoin(input, ':');
          Err("no ':'")
        else match Collect(SetsOf(Split(atColon[1], ';')))
          case Err(e) => Err(e)
          case Ok(sets) => Ok(Game(id, sets))
  }

  /** `parse_input`: one game per line. */
  function ParseInput(lines: seq<string>): (r: seq<Result<Game>>)
    ensures |r| == |lines| && forall i :: 0 <= i < |lines| ==> r[i] == ParseGame(lines[i])
  {
    seq(|lines|, i requires 0 <= i < |lines| => ParseGame(lines[i]))
  }

  // ---------------------------------------------------------------------------
  // Rendering games as text, and parsing it back

  datatype Draw = Draw(count: int, colour: string)

  /** A colour word that survives the splits at ',', ';', ':' and ' '. */
  predicate ColourWord(c: string)
  {
    IsWord(c) && ',' !in c && ';' !in c && ':' !in c
  }

  function FormatDraw(d: Draw): string
  {
    " " + ShowInt(d.count) + " " + d.colour
  }

  function FormatDraws(ds: seq<Draw>): (r: seq<string>)
    ensures |r| == |ds| && forall i :: 0 <= i < |ds| ==> r[i] == FormatDraw(ds[i])
  {
    if ds == [] then [] else [FormatDraw(ds[0])] + FormatDraws(ds[1..])
  }

  function FormatSet(ds: seq<Draw>): string
  {
    Join(FormatDraws(ds), ',')
  }

  function FormatSets(sets: seq<seq<Draw>>): (r: seq<string>)
    ensures |r| == |sets| && forall i :: 0 <= i < |sets| ==> r[i] == FormatSet(sets[i])
  {
    if sets == [] then [] else [FormatSet(sets[0])] + FormatSets(sets[1..])
  }

  function FormatGame(id: int, sets: seq<seq<Draw>>): string
  {
    "Game " + ShowInt(id) + ":" + Join(FormatSets(sets), ';')
  }

  /** The draws applied in order, on values rather than text. */
  function Tally(s: CubeSet, ds: seq<Draw>): Result<CubeSet>
    decreases |ds|
  {
    if ds == [] then Ok(s)
    else match Assign(s, ds[0].colour, ds[0].count)
      case Err(e) => Err(e)
      case Ok(s') => Tally(s', ds[1..])
  }

  predicate DrawsOk(ds: seq<Draw>)
  {
    forall i :: 0 <= i < |ds| ==> ColourWord(ds[i].colour)
  }

  lemma TrimDraw(d: Draw)
    requires ColourWord(d.colour)
    ensures Trim(FormatDraw(d)) == ShowInt(d.count) + " " + d.colour
  {
    var body := ShowInt(d.count) + " " + d.colour;
    assert FormatDraw(d) == " " + body;
    assert body[0] == ShowInt(d.count)[0];
    assert body[|body| - 1] == d.colour[|d.colour| - 1];
    TrimPadded(" ", body);
  }

  lemma SplitDraw(d: Draw)
    requires ColourWord(d.colour)
    ensures Split(ShowInt(d.count) + " " + d.colour, ' ') == [ShowInt(d.count), d.colour]
  {
    var n := ShowInt(d.count);
    assert ' ' !in n by {
      assert forall k :: 0 <= k < |n| ==> n[k] != ' ';
    }
    assert ' ' !in d.colour by {
      assert forall k :: 0 <= k < |d.colour| ==> d.colour[k] != ' ';
    }
    JoinCons(n, [d.colour], ' ');
    JoinSplit([n, d.colour], ' ');
  }

  lemma ParseFormatDraw(d: Draw)
    requires ColourWord(d.colour)
    ensures ParseDraw(FormatDraw(d)) == Ok((d.count, d.colour))
  {
    TrimDraw(d);
    SplitDraw(d);
    ParseShowInt(d.count);
  }

  lemma {:induction false} ApplyFormattedDraws(s: CubeSet, ds: seq<Draw>)
    requires DrawsOk(ds)
    ensures ApplyDraws(s, FormatDraws(ds)) == Tally(s, ds)
    decreases |ds|
  {
    if ds != [] {
      ParseFormatDraw(ds[0]);
      assert FormatDraws(ds)[1..] == FormatDraws(ds[1..]);
      match Assign(s, ds[0].colour, ds[0].count)
      case Err(_) =>
      case Ok(s') => ApplyFormattedDraws(s', ds[1..]);
    }
  }

  lemma NoSeparatorInDraw(d: Draw, c: char)
    requires ColourWord(d.colour)
    requires c == ',' || c == ';' || c == ':'
    ensures c !in FormatDraw(d)
  {
    var n := ShowInt(d.count);
    assert forall k :: 0 <= k < |n| ==> n[k] != c;
  }

  lemma {:induction false} NoSeparatorInSet(ds: seq<Draw>, c: char)
    requires DrawsOk(ds)
    requires c == ';' || c == ':'
    ensures c !in FormatSet(ds)
    decreases |ds|
  {
    if ds != [] {
      NoSeparatorInDraw(ds[0], c);
      if |ds| > 1 {
        NoSeparatorInSet(ds[1..], c);
        assert FormatDraws(ds)[1..] == FormatDraws(ds[1..]);
      }
    }
  }

  /** The text of a set parses to the draws applied in order. */
  lemma ParseFormatSet(ds: seq<Draw>)
    requires |ds| >= 1 && DrawsOk(ds)
    ensures SetOf(FormatSet(ds)) == Tally(NoCubes, ds)
  {
    forall i | 0 <= i < |ds| ensures ',' !in FormatDraws(ds)[i] {
      NoSeparatorInDraw(ds[i], ',');
    }
    JoinSplit(FormatDraws(ds), ',');
    ApplyFormattedDraws(NoCubes, ds);
  }

  lemma {:induction false} NoSeparatorInSets(sets: seq<seq<Draw>>, c: char)
    requires forall i :: 0 <= i < |sets| ==> DrawsOk(sets[i])
    requires c == ';' || c == ':'
    ensures c == ':' ==> c !in Join(FormatSets(sets), ';')
    ensures forall i :: 0 <= i < |sets| ==> c !in FormatSets(sets)[i]
    decreases |sets|
  {
    forall i | 0 <= i < |sets| ensures c !in FormatSets(sets)[i] {
      NoSeparatorInSet(sets[i], c);
    }
    if |sets| > 1 {
      NoSeparatorInSets(sets[1..], c);
      assert FormatSets(sets)[1..] == FormatSets(sets[1..]);
    }
  }

  function TallyAll(sets: seq<seq<Draw>>): (r: seq<Result<CubeSet>>)
    ensures |r| == |sets| && forall i :: 0 <= i < |sets| ==> r[i] == Tally(NoCubes, sets[i])
  {
    seq(|sets|, i requires 0 <= i < |sets| => Tally(NoCubes, sets[i]))
  }

  lemma NoColonInHead(id: int)
    ensures ':' !in "Game " + ShowInt(id)
  {
    var n := ShowInt(id);
    assert ':' !in n by {
      assert forall k :: 0 <= k < |n| ==> n[k] != ':';
    }
  }

  lemma GameColonSplit(id: int, sets: seq<seq<Draw>>)
    requires forall i :: 0 <= i < |sets| ==> DrawsOk(sets[i])
    ensures Split(FormatGame(id, sets), ':') == ["Game " + ShowInt(id), Join(FormatSets(sets), ';')]
  {
    var head := "Game " + ShowInt(id);
    var tail := Join(FormatSets(sets), ';');
    var parts := [head, tail];
    assert ':' !in head by { NoColonInHead(id); }
    assert ':' !in tail by { NoSeparatorInSets(sets, ':'); }
    SplitPair(head, tail, ':');
  }

  /** Two pieces free of the separator split back apart. */
  lemma SplitPair(a: string, b: string, sep: char)
    requires sep !in a && sep !in b
    ensures Split(a + [sep] + b, sep) == [a, b]
  {
    var parts := [a, b];
    assert [a, b][1..] == [b];
    assert Join(parts, sep) == a + [sep] + b;
    JoinSplit(parts, sep);
  }

  lemma GameIdSplit(id: int)
    ensures Split("Game " + ShowInt(id), ' ') == ["Game", ShowInt(id)]
  {
    var n := ShowInt(id);
    assert ' ' !in n by {
      assert forall k :: 0 <= k < |n| ==> n[k] != ' ';
    }
    assert Join(["Game", n], ' ') == "Game " + n;
    JoinSplit(["Game", n], ' ');
  }

  lemma GameSetSplit(sets: seq<seq<Draw>>)
    requires |sets| >= 1
    requires forall i :: 0 <= i < |sets| ==> DrawsOk(sets[i])
    ensures Split(Join(FormatSets(sets), ';'), ';') == FormatSets(sets)
  {
    NoSeparatorInSets(sets, ';');
    JoinSplit(FormatSets(sets), ';');
  }

  lemma GameParts(input: string, id: int, rest: string)
    requires Split(input, ':') == ["Game " + ShowInt(id), rest]
    requires Split("Game " + ShowInt(id), ' ') == ["Game", ShowInt(id)]
    ensures ParseGame(input)
         == match Collect(SetsOf(Split(rest, ';')))
            case Err(e) => Err(e)
            case Ok(sets) => Ok(Game(id, sets))
  {
    ParseShowInt(id);
  }

  lemma SetsOfFormatted(sets: seq<seq<Draw>>)
    requires forall i :: 0 <= i < |sets| ==> |sets[i]| >= 1 && DrawsOk(sets[i])
    ensures SetsOf(FormatSets(sets)) == TallyAll(sets)
  {
    forall i | 0 <= i < |sets| ensures SetOf(FormatSets(sets)[i]) == Tally(NoCubes, sets[i]) {
      ParseFormatSet(sets[i]);
    }
  }

  lemma ParseFormatGameCollect(id: int, sets: seq<seq<Draw>>)
    requires |sets| >= 1
    requires forall i :: 0 <= i < |sets| ==> |sets[i]| >= 1 && DrawsOk(sets[i])
    ensures ParseGame(FormatGame(id, sets))
         == match Collect(TallyAll(sets))
            case Err(e) => Err(e)
            case Ok(v) => Ok(Game(id, v))
  {
    var rest := Join(FormatSets(sets), ';');
    GameColonSplit(id, sets);
    GameIdSplit(id);
    GameParts(FormatGame(id, sets), id, rest);
    GameSetSplit(sets);
    SetsOfFormatted(sets);
  }

  /** The text of a game parses back to its id and the draws of each set
      applied in order; it fails exactly when some set names an unknown colour. */
  lemma ParseFormatGame(id: int, sets: seq<seq<Draw>>)
    requires |sets| >= 1
    requires forall i :: 0 <= i < |sets| ==> |sets[i]| >= 1 && DrawsOk(sets[i])
    ensures ParseGame(FormatGame(id, sets)).Ok? <==> forall i :: 0 <= i < |sets| ==> Tally(NoCubes, sets[i]).Ok?
    ensures ParseGame(FormatGame(id, sets)).Ok? ==>
      ParseGame(FormatGame(id, sets)).value.id == id
      && |ParseGame(FormatGame(id, sets)).value.sets| == |sets|
      && forall i :: 0 <= i < |sets| ==>
           ParseGame(FormatGame(id, sets)).value.sets[i] == Tally(NoCubes, sets[i]).value
  {
    ParseFormatGameCollect(id, sets);
  }

  // ---------------------------------------------------------------------------
  // The test game

  const SampleSets: seq<seq<Draw>> := [
    [Draw(1, "green"), Draw(1, "blue"), Draw(1, "red")],
    [Draw(3, "green"), Draw(1, "blue"), Draw(1, "red")],
    [Draw(4, "green"), Draw(3, "blue"), Draw(1, "red")],
    [Draw(4, "green"), Draw(2, "blue"), Draw(1, "red")],
    [Draw(3, "blue"), Draw(3, "green")]
  ]

  /** "Game 1: 1 green, 1 blue, 1 red; 3 green, 1 blue, 1 red; 4 green, 3 blue, 1 red;
      4 green, 2 blue, 1 red; 3 blue, 3 green" on one line, set by set. */
  const SampleLine := "Game 1:" + (" 1 green, 1 blue, 1 red" + ";" + (" 3 green, 1 blue, 1 red" + ";"
    + (" 4 green, 3 blue, 1 red" + ";" + (" 4 green, 2 blue, 1 red" + ";" + " 3 blue, 3 green"))))

  lemma SampleNumbers()
    ensures ShowInt(1) == "1" && ShowInt(2) == "2" && ShowInt(3) == "3" && ShowInt(4) == "4"
  {
  }

  lemma FormatSet2(a: Draw, b: Draw)
    ensures FormatSet([a, b]) == FormatDraw(a) + "," + FormatDraw(b)
  {
    assert FormatDraws([a, b]) == [FormatDraw(a)] + [FormatDraw(b)];
    JoinCons(FormatDraw(a), [FormatDraw(b)], ',');
  }

  lemma FormatSet3(a: Draw, b: Draw, c: Draw)
    ensures FormatSet([a, b, c]) == FormatDraw(a) + "," + FormatDraw(b) + "," + FormatDraw(c)
  {
    assert FormatDraws([a, b, c]) == [FormatDraw(a)] + ([FormatDraw(b)] + [FormatDraw(c)]);
    JoinCons(FormatDraw(a), [FormatDraw(b)] + [FormatDraw(c)], ',');
    JoinCons(FormatDraw(b), [FormatDraw(c)], ',');
  }

  lemma SampleDrawTexts()
    ensures FormatDraw(Draw(1, "green")) == " 1 green" && FormatDraw(Draw(3, "green")) == " 3 green"
    ensures FormatDraw(Draw(4, "green")) == " 4 green"
    ensures FormatDraw(Draw(1, "blue")) == " 1 blue" && FormatDraw(Draw(2, "blue")) == " 2 blue"
    ensures FormatDraw(Draw(3, "blue")) == " 3 blue" && FormatDraw(Draw(1, "red")) == " 1 red"
  {
    SampleNumbers();
  }

  lemma SampleSetText0()
    ensures FormatSet(SampleSets[0]) == " 1 green, 1 blue, 1 red"
  {
    SampleDrawTexts();
    FormatSet3(Draw(1, "green"), Draw(1, "blue"), Draw(1, "red"));
  }

  lemma SampleSetText1()
    ensures FormatSet(SampleSets[1]) == " 3 green, 1 blue, 1 red"
  {
    SampleDrawTexts();
    FormatSet3(Draw(3, "green"), Draw(1, "blue"), Draw(1, "red"));
  }

  lemma SampleSetText2()
    ensures FormatSet(SampleSets[2]) == " 4 green, 3 blue, 1 red"
  {
    SampleDrawTexts();
    FormatSet3(Draw(4, "green"), Draw(3, "blue"), Draw(1, "red"));
  }

  lemma SampleSetText3()
    ensures FormatSet(SampleSets[3]) == " 4 green, 2 blue, 1 red"
  {
    SampleDrawTexts();
    FormatSet3(Draw(4, "green"), Draw(2, "blue"), Draw(1, "red"));
  }

  lemma SampleSetText4()
    ensures FormatSet(SampleSets[4]) == " 3 blue, 3 green"
  {
    SampleDrawTexts();
    FormatSet2(Draw(3, "blue"), Draw(3, "green"));
  }

  lemma SampleLineIsFormatted()
    ensures FormatGame(1, SampleSets) == SampleLine
  {
    SampleNumbers();
    SampleSetText0();
    SampleSetText1();
    SampleSetText2();
    SampleSetText3();
    SampleSetText4();
    var t := FormatSets(SampleSets);
    JoinFive(t, ';');
    assert "Game " + ShowInt(1) + ":" == "Game 1:";
  }

  /** Five parts joined: each followed by the separator but the last. */
  lemma JoinFive(t: seq<string>, sep: char)
    requires |t| == 5
    ensures Join(t, sep) == t[0] + [sep] + (t[1] + [sep] + (t[2] + [sep] + (t[3] + [sep] + t[4])))
  {
    assert t == [t[0]] + ([t[1]] + ([t[2]] + ([t[3]] + [t[4]])));
    JoinCons(t[0], [t[1]] + ([t[2]] + ([t[3]] + [t[4]])), sep);
    JoinCons(t[1], [t[2]] + ([t[3]] + [t[4]]), sep);
    JoinCons(t[2], [t[3]] + [t[4]], sep);
    JoinCons(t[3], [t[4]], sep);
  }

  lemma SampleColours()
    ensures ColourWord("red") && ColourWord("green") && ColourWord("blue")
  {
  }

  lemma SampleSetsOk()
    ensures forall i :: 0 <= i < |SampleSets| ==> |SampleSets[i]| >= 1 && DrawsOk(SampleSets[i])
    ensures forall i :: 0 <= i < |SampleSets| ==> Tally(NoCubes, SampleSets[i]).Ok?
    ensures Tally(NoCubes, SampleSets[0]) == Ok(CubeSet(1, 1, 1))
  {
    SampleColours();
  }

  /** The sample line has id 1, five sets, and a first set of one cube of each colour. */
  lemma SampleGame()
    ensures ParseGame(SampleLine).Ok?
    ensures ParseGame(SampleLine).value.id == 1
    ensures |ParseGame(SampleLine).value.sets| == 5
    ensures ParseGame(SampleLine).value.sets[0] == CubeSet(1, 1, 1)
  {
    SampleLineIsFormatted();
    SampleSetsOk();
    ParseFormatGame(1, SampleSets);
  }
}
