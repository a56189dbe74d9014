/** The earlier seed-almanac solver (day05/src/main.rs).  Its rules carry an
    unsigned length, its `unmap` has no identity fallback (it panics when no
    destination range holds the value) and it has no interval splitter.  The
    pure parts are related to the library version of the engine. */
module Day05Main {
  import opened Common
  import opened Text
  import L = Day05Lib

  datatype Range = Range(destinationRangeStart: int, sourceRangeStart: int, rangeLength: nat)

  datatype Map = Map(name: string, ranges: seq<Range>)

  datatype SeedRange = SeedRange(start: int, length: nat)

  // ---------------------------------------------------------------------------
  // Rules and tables

  predicate IsContainedInSourceRange(r: Range, value: int)
  {
    r.sourceRangeStart <= value < r.sourceRangeStart + r.rangeLength
  }

  predicate IsContainedInDestinationRange(r: Range, value: int)
  {
    r.destinationRangeStart <= value < r.destinationRangeStart + r.rangeLength
  }

  function Convert(r: Range, value: int): (res: Option<int>)
    ensures res.Some? <==> IsContainedInSourceRange(r, value)
    ensures res.Some? ==> IsContainedInDestinationRange(r, res.value)
    ensures res.Some? ==> res.value - r.destinationRangeStart == value - r.sourceRangeStart
  {
    if IsContainedInSourceRange(r, value)
    then Some(r.destinationRangeStart + (value - r.sourceRangeStart))
    else None
  }

  function Unconvert(r: Range, value: int): (res: Option<int>)
    ensures res.Some? <==> IsContainedInDestinationRange(r, value)
    ensures res.Some? ==> IsContainedInSourceRange(r, res.value)
    ensures res.Some? ==> res.value - r.sourceRangeStart == value - r.destinationRangeStart
  {
    if IsContainedInDestinationRange(r, value)
    then Some(r.sourceRangeStart + (value - r.destinationRangeStart))
    else None
  }

  function FindConvert(rs: seq<Range>, value: int): Option<int>
  {
    if rs == [] then None
    else match Convert(rs[0], value)
      case Some(v) => Some(v)
      case None => FindConvert(rs[1..], value)
  }

  function FindUnconvert(rs: seq<Range>, value: int): Option<int>
  {
    if rs == [] then None
    else match Unconvert(rs[0], value)
      case Some(v) => Some(v)
      case None => FindUnconvert(rs[1..], value)
  }

  /** The same rule in the library's terms (the length widened to a signed integer). */
  function ToLibRange(r: Range): L.MapRange
  {
    L.MapRange(r.destinationRangeStart, r.sourceRangeStart, r.rangeLength)
  }

  function ToLibRanges(rs: seq<Range>): (res: seq<L.MapRange>)
    ensures |res| == |rs| && forall i :: 0 <= i < |rs| ==> res[i] == ToLibRange(rs[i])
  {
    if rs == [] then [] else [ToLibRange(rs[0])] + ToLibRanges(rs[1..])
  }

  function ToLibMap(m: Map): L.Map
  {
    L.Map(m.name, ToLibRanges(m.ranges))
  }

  lemma {:induction false} FindAgreesWithLib(rs: seq<Range>, value: int)
    ensures FindConvert(rs, value) == L.FindConvert(ToLibRanges(rs), value)
    ensures FindUnconvert(rs, value) == L.FindUnconvert(ToLibRanges(rs), value)
    decreases |rs|
  {
    if rs != [] {
      FindAgreesWithLib(rs[1..], value);
      assert ToLibRanges(rs)[1..] == ToLibRanges(rs[1..]);
    }
  }

  /** `Map::map`: first match wins, identity otherwise; it is the library's `map`. */
  function MapValue(m: Map, value: int): (r: int)
    ensures r == L.MapValue(ToLibMap(m), value)
  {
    FindAgreesWithLib(m.ranges, value);
    match FindConvert(m.ranges, value)
    case Some(v) => v
    case None => value
  }

  /** `Map::unmap` as written: the first `unconvert` hit, and `None` where
      the Rust code panics because no destination range holds the value.
      Wherever it does not panic it agrees with the library's `unmap`. */
  function UnmapValue(m: Map, value: int): (r: Option<int>)
    ensures r.None? <==> forall i :: 0 <= i < |m.ranges| ==> !IsContainedInDestinationRange(m.ranges[i], value)
    ensures r.Some? ==> r.value == L.UnmapValue(ToLibMap(m), value)
  {
    FindAgreesWithLib(m.ranges, value);
    L.FindUnconvertIsFirst(ToLibRanges(m.ranges), value);
    FindUnconvert(m.ranges, value)
  }

  // ---------------------------------------------------------------------------
  // Seed ranges

  /** `SeedRange::iter`: start, start + 1, ..., start + length - 1. */
  function Values(s: SeedRange): (r: seq<int>)
    ensures |r| == s.length
    ensures forall i :: 0 <= i < |r| ==> r[i] == s.start + i
    decreases s.length
  {
    if s.length == 0 then [] else Values(SeedRange(s.start, s.length - 1)) + [s.start + s.length - 1]
  }

  predicate Contains(s: SeedRange, value: int)
  {
    s.start <= value < s.start + s.length
  }

  /** `contains` agrees with `iter`. */
  lemma ContainsIffIterated(s: SeedRange, value: int)
    ensures Contains(s, value) <==> value in Values(s)
  {
    if Contains(s, value) {
      assert Values(s)[value - s.start] == value;
    }
  }

  function ToLibSeeds(seeds: seq<SeedRange>): (res: seq<L.Interval>)
    ensures |res| == |seeds|
    ensures forall i :: 0 <= i < |seeds| ==> res[i] == L.Interval(seeds[i].start, seeds[i].start + seeds[i].length)
  {
    if seeds == [] then [] else ToLibSeeds(seeds[..|seeds| - 1]) + [L.Interval(seeds[|seeds| - 1].start, seeds[|seeds| - 1].start + seeds[|seeds| - 1].length)]
  }

  /** `seeds.iter().flat_map(|s| s.iter())`. */
  function AllSeedValues(seeds: seq<SeedRange>): seq<int>
  {
    if seeds == [] then [] else AllSeedValues(seeds[..|seeds| - 1]) + Values(seeds[|seeds| - 1])
  }

  lemma {:induction false} AllSeedValuesArePoints(seeds: seq<SeedRange>)
    ensures forall v :: v in AllSeedValues(seeds) <==> v in L.Points(ToLibSeeds(seeds))
    decreases |seeds|
  {
    if seeds != [] {
      var n := |seeds| - 1;
      AllSeedValuesArePoints(seeds[..n]);
      assert ToLibSeeds(seeds)[..n] == ToLibSeeds(seeds[..n]);
      forall v ensures v in Values(seeds[n]) <==> v in L.Span(ToLibSeeds(seeds)[n]) {
        ContainsIffIterated(seeds[n], v);
      }
    }
  }

  // ---------------------------------------------------------------------------
  // Brute force

  /** The fold of `map` over the stages. */
  function Forward(maps: seq<Map>, v: int): int
  {
    if maps == [] then v else MapValue(maps[|maps| - 1], Forward(maps[..|maps| - 1], v))
  }

  function ToLibMaps(maps: seq<Map>): (res: seq<L.Map>)
    ensures |res| == |maps| && forall i :: 0 <= i < |maps| ==> res[i] == ToLibMap(maps[i])
  {
    if maps == [] then [] else ToLibMaps(maps[..|maps| - 1]) + [ToLibMap(maps[|maps| - 1])]
  }

  lemma {:induction false} ForwardAgreesWithLib(maps: seq<Map>, v: int)
    ensures Forward(maps, v) == L.Forward(ToLibMaps(maps), v)
    decreases |maps|
  {
    if maps != [] {
      var n := |maps| - 1;
      ForwardAgreesWithLib(maps[..n], v);
      assert ToLibMaps(maps)[..n] == ToLibMaps(maps[..n]);
    }
  }

  /** `Iterator::min` over a sequence. */
  function MinOf(xs: seq<int>): (r: Option<int>)
    ensures r.None? <==> xs == []
    ensures r.Some? ==> r.value in xs && forall i :: 0 <= i < |xs| ==> r.value <= xs[i]
  {
    if xs == [] then None
    else
      var m := MinOf(xs[..|xs| - 1]);
      if m.Some? && m.value <= xs[|xs| - 1] then m else Some(xs[|xs| - 1])
  }

  /** `lowest_location_bf`; `None` where `min().unwrap()` panics. */
  function LowestLocationBf(maps: seq<Map>, seeds: seq<SeedRange>): Option<int>
  {
    var vals := AllSeedValues(seeds);
    MinOf(seq(|vals|, i requires 0 <= i < |vals| => Forward(maps, vals[i])))
  }

  /** The earlier brute force computes what the library's brute force does. */
  lemma BfAgreesWithLib(maps: seq<Map>, seeds: seq<SeedRange>)
    ensures LowestLocationBf(maps, seeds) == L.LowestLocationBf(ToLibMaps(maps), ToLibSeeds(seeds))
  {
    var vals := AllSeedValues(seeds);
    var locs := seq(|vals|, i requires 0 <= i < |vals| => Forward(maps, vals[i]));
    var lm, ls := ToLibMaps(maps), ToLibSeeds(seeds);
    AllSeedValuesArePoints(seeds);
    var r := L.LowestLocationBf(lm, ls);
    var mine := MinOf(locs);
    if mine.Some? {
      var i :| 0 <= i < |locs| && locs[i] == mine.value;
      ForwardAgreesWithLib(maps, vals[i]);
      assert vals[i] in L.Points(ls);
      assert mine.value in L.Reachable(lm, ls);
      forall y | y in L.Reachable(lm, ls) ensures mine.value <= y {
        var v :| v in L.Points(ls) && L.Forward(lm, v) == y;
        var j :| 0 <= j < |vals| && vals[j] == v;
        ForwardAgreesWithLib(maps, v);
        assert locs[j] == y;
      }
      L.LeastIsUnique(mine.value, r.value, L.Reachable(lm, ls));
    } else {
      assert vals == [];
      assert L.Points(ls) == {};
    }
  }

  // ---------------------------------------------------------------------------
  // Backward scan as written

  /** The reverse `unmap` chain; `None` once some stage's `unmap` panics. */
  function BackwardChain(maps: seq<Map>, v: int): Option<int>
  {
    if maps == [] then Some(v)
    else
      match UnmapValue(maps[|maps| - 1], v)
      case None => None
      case Some(u) => BackwardChain(maps[..|maps| - 1], u)
  }

  /** Wherever the chain completes it lands where the library's chain does. */
  lemma {:induction false} BackwardChainAgreesWithLib(maps: seq<Map>, v: int)
    ensures BackwardChain(maps, v).Some? ==> BackwardChain(maps, v).value == L.Backward(ToLibMaps(maps), v)
    decreases |maps|
  {
    if maps != [] {
      var n := |maps| - 1;
      assert ToLibMaps(maps)[..n] == ToLibMaps(maps[..n]);
      match UnmapValue(maps[n], v)
      case None =>
      case Some(u) => BackwardChainAgreesWithLib(maps[..n], u);
    }
  }

  /** `seeds.iter().any(|s| s.contains(v))`. */
  predicate AnySeedContains(seeds: seq<SeedRange>, v: int)
  {
    exists i :: 0 <= i < |seeds| && Contains(seeds[i], v)
  }

  /** A location the scan passes over: its chain completes and misses every seed range. */
  predicate Passed(maps: seq<Map>, seeds: seq<SeedRange>, l: int)
  {
    BackwardChain(maps, l).Some? && !AnySeedContains(seeds, BackwardChain(maps, l).value)
  }

  datatype Scan = Found(location: int) | Panicked(location: int) | GaveUp

  /** The inner `for` loop of the scan: `unmap` through the stages from the
      last to the first; `None` where one of them panics. */
  method RunBackward(maps: seq<Map>, location: int) returns (res: Option<int>)
    ensures res == BackwardChain(maps, location)
  {
    var currentValue := location;
    var k := |maps|;
    assert maps[..k] == maps;
    while k > 0
      invariant 0 <= k <= |maps|
      invariant BackwardChain(maps[..k], currentValue) == BackwardChain(maps, location)
    {
      assert maps[..k][..k - 1] == maps[..k - 1];
      match UnmapValue(maps[k - 1], currentValue)
      case None =>
        return None;
      case Some(u) =>
        currentValue := u;
        k := k - 1;
    }
    return Some(currentValue);
  }

  /** `lowest_location_backwards` as written: locations 0, 1, 2, ... in turn,
      each run backwards through the stages; the first `unmap` without a match
      aborts the whole search.  The Rust search is unbounded; here it gives up
      at `limit`. */
  method LowestLocationBackwards(maps: seq<Map>, seeds: seq<SeedRange>, limit: nat) returns (res: Scan)
    ensures res.Found? ==> 0 <= res.location < limit && BackwardChain(maps, res.location).Some?
                           && AnySeedContains(seeds, BackwardChain(maps, res.location).value)
    ensures res.Panicked? ==> 0 <= res.location < limit && BackwardChain(maps, res.location).None?
    ensures res.Found? || res.Panicked? ==> forall l :: 0 <= l < res.location ==> Passed(maps, seeds, l)
    ensures res.GaveUp? ==> forall l :: 0 <= l < limit ==> Passed(maps, seeds, l)
  {
    var location := 0;
    while location < limit
      invariant 0 <= location <= limit
      invariant forall l :: 0 <= l < location ==> Passed(maps, seeds, l)
    {
      var seed := RunBackward(maps, location);
      if seed.None? {
        return Panicked(location);
      }
      if exists i :: 0 <= i < |seeds| && Contains(seeds[i], seed.value) {
        return Found(location);
      }
      location := location + 1;
    }
    return GaveUp;
  }

  // ---------------------------------------------------------------------------
  // Seeds line

  /** The fold over the words of the seeds line: words alternate between a
      start (`i64`) and a length (`usize`); a dangling start is dropped. */
  function PairSeeds(words: seq<string>): (r: Option<seq<SeedRange>>)
    ensures r.Some? ==> |r.value| == |words| / 2
    ensures r.Some? ==> forall i :: 0 <= i < |r.value| ==>
              ParseInt(words[2 * i]) == Some(r.value[i].start) && ParseNat(words[2 * i + 1]) == Some(r.value[i].length)
    ensures r.None? <==> exists i :: 0 <= i < |words| && (if i % 2 == 0 then ParseInt(words[i]).None? else ParseNat(words[i]).None?)
    decreases |words|
  {
    if words == [] then Some([])
    else
      match ParseInt(words[0])
      case None => None
      case Some(start) =>
        if |words| == 1 then Some([])
        else match ParseNat(words[1])
          case None => None
          case Some(length) =>
            var rest := PairSeeds(words[2..]);
            assert forall i :: 2 <= i < |words| ==> words[i] == words[2..][i - 2] && (i % 2 == (i - 2) % 2);
            if rest.None? then None
            else
              PairsHead(words, start, length, rest.value);
              Some([SeedRange(start, length)] + rest.value)
  }

  /** A parsed first pair followed by the pairs parsed from the words after
      it are the pairs of all the words. */
  lemma PairsHead(words: seq<string>, start: int, length: nat, rest: seq<SeedRange>)
    requires |words| >= 2 && ParseInt(words[0]) == Some(start) && ParseNat(words[1]) == Some(length)
    requires |rest| == (|words| - 2) / 2
    requires forall i :: 0 <= i < |rest| ==>
               ParseInt(words[2..][2 * i]) == Some(rest[i].start) && ParseNat(words[2..][2 * i + 1]) == Some(rest[i].length)
    ensures var r := [SeedRange(start, length)] + rest;
      |r| == |words| / 2 &&
      forall i :: 0 <= i < |r| ==> ParseInt(words[2 * i]) == Some(r[i].start) && ParseNat(words[2 * i + 1]) == Some(r[i].length)
  {
    var r := [SeedRange(start, length)] + rest;
    forall i | 0 <= i < |r|
      ensures ParseInt(words[2 * i]) == Some(r[i].start) && ParseNat(words[2 * i + 1]) == Some(r[i].length)
    {
      if i > 0 {
        assert r[i] == rest[i - 1];
        assert words[2 * i] == words[2..][2 * (i - 1)] && words[2 * i + 1] == words[2..][2 * (i - 1) + 1];
      }
    }
  }

  /** The seed ranges of the first line: the text after the first ':', split
      at whitespace and paired up. */
  function ParseSeedsLine(line: string): (r: Option<seq<SeedRange>>)
    ensures ':' !in line ==> r.None?
  {
    var parts := Split(line, ':');
    if |parts| < 2 then None else PairSeeds(SplitWhitespace(parts[1]))
  }

  /** After a head without ':', the seeds are the pairs of the words up to
      the next ':' (or the end of the line). */
  lemma SeedsLineAfterHead(head: string, rest: string)
    requires ':' !in head
    ensures ParseSeedsLine(head + ":" + rest) == PairSeeds(SplitWhitespace(Split(rest, ':')[0]))
  {
    var line := head + ":" + rest;
    assert line == head + [':'] + rest;
    IndexOfPrefix(head, ':', rest);
    assert line[..|head|] == head && line[|head| + 1..] == rest;
    var parts := Split(line, ':');
    assert parts == [head] + Split(rest, ':');
    assert parts[1] == Split(rest, ':')[0];
  }

  /** The numbers of some seed ranges in the order the seeds line lists
      them: each start followed by its length. */
  function SeedNumbers(seeds: seq<SeedRange>): (r: seq<int>)
    ensures |r| == 2 * |seeds|
    ensures forall i :: 0 <= i < |seeds| ==> r[2 * i] == seeds[i].start && r[2 * i + 1] == seeds[i].length
  {
    if seeds == [] then [] else [seeds[0].start, seeds[0].length as int] + SeedNumbers(seeds[1..])
  }

  /** Pairing the rendered numbers of some seed ranges gives them back. */
  lemma {:induction false} PairSeedsShown(seeds: seq<SeedRange>)
    ensures PairSeeds(ShowInts(SeedNumbers(seeds))) == Some(seeds)
  {
    if seeds != [] {
      var s := seeds[0];
      var tail := ShowInts(SeedNumbers(seeds[1..]));
      var words := ShowInts(SeedNumbers(seeds));
      assert SeedNumbers(seeds) == [s.start, s.length as int] + SeedNumbers(seeds[1..]);
      assert words == [ShowInt(s.start), ShowInt(s.length)] + tail by {
        assert forall k :: 2 <= k < |words| ==> words[k] == tail[k - 2];
      }
      ParseShowInt(s.start);
      ParseShowNat(s.length);
      PairSeedsShown(seeds[1..]);
      PairSeedsCons(ShowInt(s.start), ShowInt(s.length), tail, s.start, s.length, seeds[1..]);
      assert [s] + seeds[1..] == seeds;
    }
  }

  /** The seeds line as the puzzle writes it. */
  function FormatSeedsLine(seeds: seq<SeedRange>): string
  {
    "seeds: " + Unwords(ShowInts(SeedNumbers(seeds)))
  }

  /** Reading back a written seeds line gives the seed ranges. */
  lemma ParseFormatSeedsLine(seeds: seq<SeedRange>)
    ensures ParseSeedsLine(FormatSeedsLine(seeds)) == Some(seeds)
  {
    var text := Unwords(ShowInts(SeedNumbers(seeds)));
    var rest := " " + text;
    NotInUnwordsOfInts(SeedNumbers(seeds), ':');
    assert ':' !in rest by {
      assert forall k :: 1 <= k < |rest| ==> rest[k] == text[k - 1];
    }
    assert FormatSeedsLine(seeds) == "seeds" + ":" + rest;
    SeedsLineAfterHead("seeds", rest);
    assert Split(rest, ':') == [rest];
    SplitWhitespaceSkip(" ", text);
    SplitUnwords(ShowInts(SeedNumbers(seeds)));
    PairSeedsShown(seeds);
  }

  // ---------------------------------------------------------------------------
  // The unit tests' examples

  const SeedToSoil := Map("seed-to-soil map", [Range(50, 98, 2), Range(52, 50, 48)])

  lemma MapExamples()
    ensures MapValue(SeedToSoil, 79) == 81 && MapValue(SeedToSoil, 14) == 14
    ensures MapValue(SeedToSoil, 55) == 57 && MapValue(SeedToSoil, 13) == 13
    ensures MapValue(SeedToSoil, 98) == 50 && MapValue(SeedToSoil, 99) == 51
    ensures MapValue(SeedToSoil, 53) == 55 && MapValue(SeedToSoil, 10) == 10
  {
  }

  /** The test expects `unmap(14) == 14`, but no destination range of the
      table holds 14, so the code as written panics there. */
  lemma UnmapPanicsOnTestValue()
    ensures UnmapValue(SeedToSoil, 14).None?
    ensures UnmapValue(SeedToSoil, 81) == Some(79) && UnmapValue(SeedToSoil, 50) == Some(98)
    ensures L.UnmapValue(ToLibMap(SeedToSoil), 14) == 14
  {
    assert IsContainedInDestinationRange(SeedToSoil.ranges[1], 81);
    assert IsContainedInDestinationRange(SeedToSoil.ranges[0], 50);
  }

  lemma SeedsLineExample()
    ensures ParseSeedsLine("seeds: 79 14 55 13") == Some([SeedRange(79, 14), SeedRange(55, 13)])
  {
    SeedsLineSplits();
    SeedsLineWords();
    SeedsLinePairs();
  }

  lemma SeedsLinePairs()
    ensures PairSeeds(["79", "14", "55", "13"]) == Some([SeedRange(79, 14), SeedRange(55, 13)])
  {
    SeedsLineNumbers();
    PairSeedsCons("55", "13", [], 55, 13, []);
    assert ["55", "13"] + [] == ["55", "13"];
    assert [SeedRange(55, 13)] + [] == [SeedRange(55, 13)];
    PairSeedsCons("79", "14", ["55", "13"], 79, 14, [SeedRange(55, 13)]);
    assert ["79", "14"] + ["55", "13"] == ["79", "14", "55", "13"];
    assert [SeedRange(79, 14)] + [SeedRange(55, 13)] == [SeedRange(79, 14), SeedRange(55, 13)];
  }

  /** Pairing a start word and a length word in front of already-paired words. */
  lemma PairSeedsCons(a: string, b: string, rest: seq<string>, start: int, length: nat, pairs: seq<SeedRange>)
    requires ParseInt(a) == Some(start) && ParseNat(b) == Some(length) && PairSeeds(rest) == Some(pairs)
    ensures PairSeeds([a, b] + rest) == Some([SeedRange(start, length)] + pairs)
  {
    var ws := [a, b] + rest;
    assert ws[0] == a && ws[1] == b && ws[2..] == rest;
  }

  lemma SeedsLineSplits()
    ensures Split("seeds: 79 14 55 13", ':') == ["seeds", " 79 14 55 13"]
  {
    assert Join(["seeds", " 79 14 55 13"], ':') == "seeds: 79 14 55 13";
    JoinSplit(["seeds", " 79 14 55 13"], ':');
  }

  lemma SeedsLineWords()
    ensures SplitWhitespace(" 79 14 55 13") == ["79", "14", "55", "13"]
  {
    var words := ["79", "14", "55", "13"];
    assert Unwords(words) == "79 14 55 13";
    SplitUnwords(words);
  }

  lemma SeedsLineNumbers()
    ensures ParseInt("79") == Some(79) && ParseNat("14") == Some(14)
    ensures ParseInt("55") == Some(55) && ParseNat("13") == Some(13)
  {
    assert ShowNat(79) == "79" && ShowNat(14) == "14" && ShowNat(55) == "55" && ShowNat(13) == "13";
    ParseShowNat(79);
    ParseShowNat(14);
    ParseShowNat(55);
    ParseShowNat(13);
  }
}
