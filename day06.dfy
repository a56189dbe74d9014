/** Boat races (day06/src/main.rs).  Holding the button for `h` of a race's
    `t` milliseconds gives speed `h` for the remaining `t - h` milliseconds;
    a way to win is a holding time whose distance beats the record. */
module Day06 {
  import opened Common
  import opened Text

  datatype Race = Race(time: int, recordDistance: int)

  /** `compute_race_distance`. */
  function RaceDistance(raceTime: int, heldButtonTime: int): (d: int)
    ensures 0 <= heldButtonTime <= raceTime ==> d >= 0
  {
    heldButtonTime * (raceTime - heldButtonTime)
  }

  /** Holding for `h` or for `t - h` covers the same distance. */
  lemma DistanceSymmetric(t: int, h: int)
    ensures RaceDistance(t, h) == RaceDistance(t, t - h)
  {
  }

  /** No holding time goes further than a quarter of the squared race time;
      half the race time reaches it when the time is even. */
  lemma DistanceBound(t: int, h: int)
    ensures 4 * RaceDistance(t, h) <= t * t
    ensures t % 2 == 0 ==> 4 * RaceDistance(t, t / 2) == t * t
  {
    var d := t - 2 * h;
    assert h * (t - h) == h * t - h * h;
    assert d * d == t * t - 4 * (h * t) + 4 * (h * h);
    SquareNonNegative(d);
    if t % 2 == 0 {
      var k := t / 2;
      assert t == 2 * k;
      assert k * (t - k) == k * k;
      assert t * t == 4 * (k * k);
    }
  }

  lemma SquareNonNegative(d: int)
    ensures d * d >= 0
  {
    if d < 0 {
      assert d * d == (-d) * (-d);
    }
  }

  lemma DistanceExamples()
    ensures RaceDistance(7, 0) == 0 && RaceDistance(7, 1) == 6 && RaceDistance(7, 2) == 10
    ensures RaceDistance(7, 3) == 12 && RaceDistance(7, 4) == 12 && RaceDistance(7, 5) == 10
    ensures RaceDistance(7, 6) == 6 && RaceDistance(7, 7) == 0
  {
  }

  predicate Beats(race: Race, h: int)
  {
    RaceDistance(race.time, h) > race.recordDistance
  }

  /** The holding times from `from` to `race.time` that beat the record, in order. */
  function WaysFrom(race: Race, from: int): (r: seq<int>)
    ensures forall i :: 0 <= i < |r| ==> from <= r[i] <= race.time && Beats(race, r[i])
    ensures forall i, j :: 0 <= i < j < |r| ==> r[i] < r[j]
    ensures forall h :: from <= h <= race.time && Beats(race, h) ==> h in r
    decreases race.time - from
  {
    if from > race.time then []
    else
      var rest := WaysFrom(race, from + 1);
      if Beats(race, from) then [from] + rest else rest
  }

  /** `ways_to_beat_record`: the holding times in 0..=time that beat the
      record, in increasing order. */
  function WaysToBeatRecord(race: Race): (r: seq<int>)
    ensures forall i :: 0 <= i < |r| ==> 0 <= r[i] <= race.time && Beats(race, r[i])
    ensures forall i, j :: 0 <= i < j < |r| ==> r[i] < r[j]
    ensures forall h :: 0 <= h <= race.time && Beats(race, h) ==> h in r
  {
    WaysFrom(race, 0)
  }

  /** If `h` wins, so does `time - h`. */
  lemma WaysSymmetric(race: Race, h: int)
    requires h in WaysToBeatRecord(race)
    ensures race.time - h in WaysToBeatRecord(race)
  {
    var r := WaysToBeatRecord(race);
    var i :| 0 <= i < |r| && r[i] == h;
    DistanceSymmetric(race.time, h);
  }

  lemma WaysExample()
    ensures WaysToBeatRecord(Race(7, 9)) == [2, 3, 4, 5]
  {
    var race := Race(7, 9);
    assert WaysFrom(race, 8) == [];
    assert WaysFrom(race, 6) == [];
    assert WaysFrom(race, 2) == [2, 3, 4, 5];
    assert WaysFrom(race, 0) == WaysFrom(race, 2);
  }

  /** `total_ways_to_beat_record_product`. */
  function Product(races: seq<Race>): (r: int)
    ensures r >= 0
  {
    if races == [] then 1 else |WaysToBeatRecord(races[0])| * Product(races[1..])
  }

  /** The product over two lists of races is the product of their products. */
  lemma {:induction false} ProductAppend(a: seq<Race>, b: seq<Race>)
    ensures Product(a + b) == Product(a) * Product(b)
  {
    if a != [] {
      assert (a + b)[0] == a[0] && (a + b)[1..] == a[1..] + b;
      ProductAppend(a[1..], b);
      var n := |WaysToBeatRecord(a[0])|;
      MulAssoc(n, Product(a[1..]), Product(b));
    } else {
      assert a + b == b;
    }
  }

  /** The product is zero exactly when some race cannot be won. */
  lemma {:induction false} ProductZeroIff(races: seq<Race>)
    ensures Product(races) == 0 <==> exists i :: 0 <= i < |races| && WaysToBeatRecord(races[i]) == []
  {
    if races != [] {
      var a := |WaysToBeatRecord(races[0])|;
      var b := Product(races[1..]);
      assert Product(races) == a * b;
      MulZero(a, b);
      ProductZeroIff(races[1..]);
      if exists i :: 0 <= i < |races| && WaysToBeatRecord(races[i]) == [] {
        var i :| 0 <= i < |races| && WaysToBeatRecord(races[i]) == [];
        if i > 0 {
          assert races[1..][i - 1] == races[i];
        }
      }
      if exists i :: 0 <= i < |races[1..]| && WaysToBeatRecord(races[1..][i]) == [] {
        var i :| 0 <= i < |races[1..]| && WaysToBeatRecord(races[1..][i]) == [];
        assert races[1..][i] == races[i + 1];
      }
    }
  }

  lemma MulAssoc(x: int, y: int, z: int)
    ensures x * (y * z) == (x * y) * z
  {
  }

  lemma MulZero(a: int, b: int)
    ensures a * b == 0 <==> a == 0 || b == 0
  {
    if a != 0 && b != 0 {
      var x, y := if a < 0 then -a else a, if b < 0 then -b else b;
      MulPositive(x, y);
      assert a * b == x * y || a * b == -(x * y);
    }
  }

  lemma {:induction false} MulPositive(x: nat, y: nat)
    requires x > 0 && y > 0
    ensures x * y > 0
    decreases x
  {
    if x > 1 {
      MulPositive(x - 1, y);
      assert x * y == (x - 1) * y + y;
    }
  }

  // ---------------------------------------------------------------------------
  // parse_input

  /** `times.zip(distances)` over lazily parsed words: a time is parsed
      before its distance is looked for, so one time past the last distance
      is still parsed, while distances past the last time never are. */
  function ZipParse(times: seq<string>, distances: seq<string>): (r: Result<seq<Race>>)
    ensures r.Ok? ==> |r.value| == if |times| < |distances| then |times| else |distances|
    ensures r.Ok? ==> forall i :: 0 <= i < |r.value| ==>
      ParseInt(times[i]) == Some(r.value[i].time) && ParseInt(distances[i]) == Some(r.value[i].recordDistance)
  {
    if times == [] then Ok([])
    else match ParseInt(times[0])
      case None => Err("bad time")
      case Some(t) =>
        if distances == [] then Ok([])
        else match ParseInt(distances[0])
          case None => Err("bad distance")
          case Some(d) =>
            match ZipParse(times[1..], distances[1..])
            case Err(e) => Err(e)
            case Ok(rest) => Ok([Race(t, d)] + rest)
  }

  /** `parse_input`: the words after the label on the first two lines. */
  function ParseInput(lines: seq<string>): (r: Result<seq<Race>>)
    ensures |lines| < 2 ==> r.Err?
    ensures r.Ok? ==> var ts := SplitWhitespace(lines[0]); var ds := SplitWhitespace(lines[1]);
      (forall i :: 0 <= i < |r.value| ==>
         (i + 1 < |ts| && i + 1 < |ds| &&
          ParseInt(ts[i + 1]) == Some(r.value[i].time) && ParseInt(ds[i + 1]) == Some(r.value[i].recordDistance))) &&
      (|r.value| + 1 >= |ts| || |r.value| + 1 >= |ds|)
  {
    if |lines| < 2 then Err("missing line")
    else
      var times := SplitWhitespace(lines[0]);
      var distances := SplitWhitespace(lines[1]);
      ZipParse(if times == [] then [] else times[1..], if distances == [] then [] else distances[1..])
  }

  function ShowTimes(races: seq<Race>): (r: seq<string>)
    ensures |r| == |races| && forall i :: 0 <= i < |races| ==> r[i] == ShowInt(races[i].time)
  {
    if races == [] then [] else [ShowInt(races[0].time)] + ShowTimes(races[1..])
  }

  function ShowDistances(races: seq<Race>): (r: seq<string>)
    ensures |r| == |races| && forall i :: 0 <= i < |races| ==> r[i] == ShowInt(races[i].recordDistance)
  {
    if races == [] then [] else [ShowInt(races[0].recordDistance)] + ShowDistances(races[1..])
  }

  lemma {:induction false} ZipParseShown(races: seq<Race>)
    ensures ZipParse(ShowTimes(races), ShowDistances(races)) == Ok(races)
  {
    if races != [] {
      ParseShowInt(races[0].time);
      ParseShowInt(races[0].recordDistance);
      assert ShowTimes(races)[1..] == ShowTimes(races[1..]);
      assert ShowDistances(races)[1..] == ShowDistances(races[1..]);
      ZipParseShown(races[1..]);
      assert [races[0]] + races[1..] == races;
    }
  }

  /** The two label lines of a list of races. */
  function FormatInput(races: seq<Race>): seq<string>
  {
    [Unwords(["Time:"] + ShowTimes(races)), Unwords(["Distance:"] + ShowDistances(races))]
  }

  /** Parsing the lines of a list of races gives the races back. */
  lemma ParseFormatInput(races: seq<Race>)
    ensures ParseInput(FormatInput(races)) == Ok(races)
  {
    var ts := ["Time:"] + ShowTimes(races);
    var ds := ["Distance:"] + ShowDistances(races);
    assert forall i :: 0 <= i < |ts| ==> IsWord(ts[i]);
    assert forall i :: 0 <= i < |ds| ==> IsWord(ds[i]);
    SplitUnwords(ts);
    SplitUnwords(ds);
    assert ts[1..] == ShowTimes(races);
    assert ds[1..] == ShowDistances(races);
    ZipParseShown(races);
  }

  // ---------------------------------------------------------------------------
  // The sample

  /** "Time:      7  15   30" */
  const SampleTimes := "Time:" + "      " + ("7" + "  " + ("15" + "   " + "30"))
  /** "Distance:  9  40  200" */
  const SampleDistances := "Distance:" + "  " + ("9" + "  " + ("40" + "  " + "200"))

  /** The sample input, "Time:      7  15   30\r\nDistance:  9  40  200\r\n". */
  const SampleInput := SampleTimes + "\r" + "\n" + (SampleDistances + "\r") + "\n"

  /** Two lines, each ended by "\r\n". */
  lemma TwoCrLfLines(a: string, b: string)
    requires '\n' !in a && '\n' !in b
    ensures Lines(a + "\r" + "\n" + (b + "\r") + "\n") == [a, b]
  {
    var ls := [a + "\r", b + "\r"];
    JoinCons(ls[0], [ls[1], ""], '\n');
    JoinCons(ls[1], [""], '\n');
    assert Join(ls + [""], '\n') == a + "\r" + "\n" + (b + "\r") + "\n";
    LinesOfJoin(ls);
    assert StripCr(ls[0]) == a && StripCr(ls[1]) == b;
  }

  lemma SampleLines()
    ensures Lines(SampleInput) == [SampleTimes, SampleDistances]
  {
    TwoCrLfLines(SampleTimes, SampleDistances);
  }

  /** A line of a label and three numbers with gaps of spaces between them. */
  lemma FourWords(w0: string, g0: string, w1: string, g1: string, w2: string, g2: string, w3: string)
    requires IsWord(w0) && IsWord(w1) && IsWord(w2) && IsWord(w3)
    requires g0 != [] && forall k :: 0 <= k < |g0| ==> IsWhitespace(g0[k])
    requires g1 != [] && forall k :: 0 <= k < |g1| ==> IsWhitespace(g1[k])
    requires g2 != [] && forall k :: 0 <= k < |g2| ==> IsWhitespace(g2[k])
    ensures SplitWhitespace(w0 + g0 + (w1 + g1 + (w2 + g2 + w3))) == [w0, w1, w2, w3]
  {
    SplitWhitespaceGap(w0, g0, w1 + g1 + (w2 + g2 + w3));
    SplitWhitespaceGap(w1, g1, w2 + g2 + w3);
    SplitWhitespaceGap(w2, g2, w3);
    SplitUnwords([w3]);
  }

  lemma SampleNumbers()
    ensures ShowInt(7) == "7" && ShowInt(15) == "15" && ShowInt(30) == "30"
    ensures ShowInt(9) == "9" && ShowInt(40) == "40" && ShowInt(200) == "200"
  {
    assert ShowNat(15) == ShowNat(1) + [DigitChar(5)];
    assert ShowNat(30) == ShowNat(3) + [DigitChar(0)];
    assert ShowNat(40) == ShowNat(4) + [DigitChar(0)];
    assert ShowNat(20) == ShowNat(2) + [DigitChar(0)];
    assert ShowNat(200) == ShowNat(20) + [DigitChar(0)];
  }

  lemma SampleWords(lines: seq<string>)
    requires lines == [SampleTimes, SampleDistances]
    ensures ParseInput(lines) == ZipParse(["7", "15", "30"], ["9", "40", "200"])
  {
    FourWords("Time:", "      ", "7", "  ", "15", "   ", "30");
    FourWords("Distance:", "  ", "9", "  ", "40", "  ", "200");
  }

  lemma SampleZip()
    ensures ZipParse(["7", "15", "30"], ["9", "40", "200"]) == Ok([Race(7, 9), Race(15, 40), Race(30, 200)])
  {
    var races := [Race(7, 9), Race(15, 40), Race(30, 200)];
    SampleNumbers();
    assert ShowTimes(races) == ["7", "15", "30"];
    assert ShowDistances(races) == ["9", "40", "200"];
    ZipParseShown(races);
  }

  /** The sample parses to the races (7, 9), (15, 40) and (30, 200). */
  lemma SampleRaces()
    ensures ParseInput(Lines(SampleInput)) == Ok([Race(7, 9), Race(15, 40), Race(30, 200)])
  {
    SampleLines();
    SampleWords(Lines(SampleInput));
    SampleZip();
  }
}
