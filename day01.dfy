/** Calibration values (day01/src/main.rs).  Each line's value is ten times
    its first digit plus its last digit, where a digit is either a decimal
    character or one of the words "one" .. "nine".  The code finds the first
    one with the leftmost match of `\d|one|two|...|nine` and the last one with
    the leftmost match of the reversed words on the reversed line; the regex
    engine itself is replaced by an explicit scan. */
module Day01 {
  import opened Common
  import opened Text

  const Words: seq<string> := ["one", "two", "three", "four", "five", "six", "seven", "eight", "nine"]

  const ReversedWords: seq<string> := ["eno", "owt", "eerht", "ruof", "evif", "xis", "neves", "thgie", "enin"]

  function Reverse(s: string): (r: string)
    ensures |r| == |s|
    ensures forall i :: 0 <= i < |s| ==> r[i] == s[|s| - 1 - i]
  {
    seq(|s|, i requires 0 <= i < |s| => s[|s| - 1 - i])
  }

  lemma ReversedWordsAreReversed()
    ensures |ReversedWords| == |Words|
    ensures forall i :: 0 <= i < |Words| ==> ReversedWords[i] == Reverse(Words[i])
  {
    assert Reverse("one") == "eno";
    assert Reverse("two") == "owt";
    assert Reverse("three") == "eerht";
    assert Reverse("four") == "ruof";
    assert Reverse("five") == "evif";
    assert Reverse("six") == "xis";
    assert Reverse("seven") == "neves";
    assert Reverse("eight") == "thgie";
    assert Reverse("nine") == "enin";
  }

  predicate StartsWith(s: string, w: string)
  {
    |w| <= |s| && s[..|w|] == w
  }

  predicate EndsWith(s: string, w: string)
  {
    |w| <= |s| && s[|s| - |w|..] == w
  }

  /** Index of the first word in `ws` that `s` starts with, or |ws|. */
  function FirstPrefixWord(s: string, ws: seq<string>): (i: nat)
    ensures i <= |ws|
    ensures i < |ws| ==> StartsWith(s, ws[i])
    ensures forall j :: 0 <= j < i ==> !StartsWith(s, ws[j])
  {
    if ws == [] then 0 else if StartsWith(s, ws[0]) then 0 else 1 + FirstPrefixWord(s, ws[1..])
  }

  /** Index of the first word in `ws` that `s` ends with, or |ws|. */
  function FirstSuffixWord(s: string, ws: seq<string>): (i: nat)
    ensures i <= |ws|
    ensures i < |ws| ==> EndsWith(s, ws[i])
    ensures forall j :: 0 <= j < i ==> !EndsWith(s, ws[j])
  {
    if ws == [] then 0 else if EndsWith(s, ws[0]) then 0 else 1 + FirstSuffixWord(s, ws[1..])
  }

  /** The value of the alternation matched at position p of s, if any: a
      decimal digit, else the first word of `ws` (the word for k + 1 at index k). */
  function MatchAt(s: string, p: nat, ws: seq<string>): (r: Option<int>)
    requires p < |s|
    ensures r.Some? ==> 1 <= r.value <= 9 || (IsDigit(s[p]) && r.value == DigitValue(s[p]))
  {
    if IsDigit(s[p]) then Some(DigitValue(s[p]))
    else
      var i := FirstPrefixWord(s[p..], ws);
      if i < |ws| && i < 9 then Some(i + 1) else None
  }

  /** The leftmost match at or after position p (`Regex::captures`). */
  function LeftmostMatch(s: string, p: nat, ws: seq<string>): (r: Option<int>)
    requires p <= |s|
    ensures r.None? <==> forall q :: p <= q < |s| ==> MatchAt(s, q, ws).None?
    ensures r.Some? ==> exists q :: p <= q < |s| && MatchAt(s, q, ws) == r
                          && forall q' :: p <= q' < q ==> MatchAt(s, q', ws).None?
    decreases |s| - p
  {
    if p == |s| then None
    else if MatchAt(s, p, ws).Some? then MatchAt(s, p, ws)
    else LeftmostMatch(s, p + 1, ws)
  }

  /** `first_digit`; `None` where `captures(line).unwrap()` panics. */
  function FirstDigit(line: string): Option<int>
  {
    LeftmostMatch(line, 0, Words)
  }

  /** `last_digit`: the leftmost reversed word or digit of the reversed line. */
  function LastDigit(line: string): Option<int>
  {
    LeftmostMatch(Reverse(line), 0, ReversedWords)
  }

  /** The value of a digit or word that ends at position e of s (e > 0). */
  function MatchEndingAt(s: string, e: nat): Option<int>
    requires 0 < e <= |s|
  {
    if IsDigit(s[e - 1]) then Some(DigitValue(s[e - 1]))
    else
      var i := FirstSuffixWord(s[..e], Words);
      if i < |Words| then Some(i + 1) else None
  }

  lemma PrefixOfReverse(t: string, w: string)
    ensures StartsWith(Reverse(t), Reverse(w)) <==> EndsWith(t, w)
  {
    if |w| <= |t| {
      var rt, rw := Reverse(t), Reverse(w);
      if StartsWith(rt, rw) {
        forall k | 0 <= k < |w| ensures t[|t| - |w|..][k] == w[k] {
          assert rt[|w| - 1 - k] == rw[|w| - 1 - k];
        }
      }
      if EndsWith(t, w) {
        forall k | 0 <= k < |w| ensures rt[..|w|][k] == rw[k] {
          assert t[|t| - 1 - k] == t[|t| - |w|..][|w| - 1 - k];
        }
      }
    }
  }

  lemma ReverseSuffix(s: string, q: nat)
    requires q <= |s|
    ensures Reverse(s)[q..] == Reverse(s[..|s| - q])
  {
    var r := Reverse(s);
    var t := s[..|s| - q];
    var b := Reverse(t);
    forall k | 0 <= k < |b| ensures r[q + k] == b[k] {
      assert b[k] == t[|t| - 1 - k];
    }
    assert r[q..] == b;
  }

  lemma {:induction false} FirstPrefixWordReversed(t: string, ws: seq<string>, rws: seq<string>)
    requires |rws| == |ws|
    requires forall i :: 0 <= i < |ws| ==> rws[i] == Reverse(ws[i])
    ensures FirstPrefixWord(Reverse(t), rws) == FirstSuffixWord(t, ws)
    decreases |ws|
  {
    if ws != [] {
      PrefixOfReverse(t, ws[0]);
      FirstPrefixWordReversed(t, ws[1..], rws[1..]);
    }
  }

  /** Matching the reversed alternation at position q of the reversed line is
      matching the forward alternation ending at position |s| - q. */
  lemma MatchReversed(s: string, q: nat)
    requires q < |s|
    ensures MatchAt(Reverse(s), q, ReversedWords) == MatchEndingAt(s, |s| - q)
  {
    var e := |s| - q;
    ReversedWordsAreReversed();
    ReverseSuffix(s, q);
    FirstPrefixWordReversed(s[..e], Words, ReversedWords);
    assert Reverse(s)[q] == s[e - 1];
    assert |ReversedWords| == 9;
  }

  /** `last_digit` finds the digit or word that ends rightmost in the line. */
  lemma LastDigitIsRightmost(line: string)
    ensures LastDigit(line).None? <==> forall e :: 0 < e <= |line| ==> MatchEndingAt(line, e).None?
    ensures LastDigit(line).Some? ==>
              exists e :: 0 < e <= |line| && MatchEndingAt(line, e) == LastDigit(line)
                          && forall e' :: e < e' <= |line| ==> MatchEndingAt(line, e').None?
  {
    var rl := Reverse(line);
    forall q | 0 <= q < |line| ensures MatchAt(rl, q, ReversedWords) == MatchEndingAt(line, |line| - q) {
      MatchReversed(line, q);
    }
    if LastDigit(line).None? {
      forall e | 0 < e <= |line| ensures MatchEndingAt(line, e).None? {
        assert MatchAt(rl, |line| - e, ReversedWords).None?;
      }
    } else {
      var q :| 0 <= q < |rl| && MatchAt(rl, q, ReversedWords) == LastDigit(line)
               && forall q' :: 0 <= q' < q ==> MatchAt(rl, q', ReversedWords).None?;
      forall e' | |line| - q < e' <= |line| ensures MatchEndingAt(line, e').None? {
        assert MatchAt(rl, |line| - e', ReversedWords).None?;
      }
      forall e | 0 < e <= |line| && MatchEndingAt(line, e).Some? ensures LastDigit(line).Some? {
      }
    }
    if forall e :: 0 < e <= |line| ==> MatchEndingAt(line, e).None? {
      forall q | 0 <= q < |rl| ensures MatchAt(rl, q, ReversedWords).None? {
        assert MatchEndingAt(line, |line| - q).None?;
      }
    }
  }

  /** `line_to_value`: 10 * first + last; `None` where either search panics. */
  function LineToValue(line: string): Option<int>
  {
    match (FirstDigit(line), LastDigit(line))
    case (Some(f), Some(l)) => Some(10 * f + l)
    case _ => None
  }

  /** A word or digit starting at p ends at some e; and conversely. */
  lemma MatchStartEnd(line: string, p: nat)
    requires p < |line| && MatchAt(line, p, Words).Some?
    ensures exists e :: p < e <= |line| && MatchEndingAt(line, e).Some?
  {
    if !IsDigit(line[p]) {
      var w := FirstPrefixWord(line[p..], Words);
      var n := |Words[w]|;
      var e := p + n;
      assert line[..e][e - n..] == line[p..][..n];
      assert EndsWith(line[..e], Words[w]);
      assert FirstSuffixWord(line[..e], Words) <= w;
      assert MatchEndingAt(line, e).Some?;
    } else {
      assert MatchEndingAt(line, p + 1).Some?;
    }
  }

  lemma MatchEndStart(line: string, e: nat)
    requires 0 < e <= |line| && MatchEndingAt(line, e).Some?
    ensures exists p :: 0 <= p < e && MatchAt(line, p, Words).Some?
  {
    if !IsDigit(line[e - 1]) {
      var w := FirstSuffixWord(line[..e], Words);
      var n := |Words[w]|;
      var p := e - n;
      assert line[p..][..n] == line[..e][e - n..];
      assert StartsWith(line[p..], Words[w]);
      assert FirstPrefixWord(line[p..], Words) <= w;
      assert MatchAt(line, p, Words).Some?;
    } else {
      assert MatchAt(line, e - 1, Words).Some?;
    }
  }

  /** A line has a first digit exactly when it has a last one. */
  lemma FirstIffLast(line: string)
    ensures FirstDigit(line).Some? <==> LastDigit(line).Some?
  {
    LastDigitIsRightmost(line);
    if FirstDigit(line).Some? {
      var p :| 0 <= p < |line| && MatchAt(line, p, Words).Some?;
      MatchStartEnd(line, p);
    }
    if LastDigit(line).Some? {
      var e :| 0 < e <= |line| && MatchEndingAt(line, e).Some?;
      MatchEndStart(line, e);
    }
  }

  /** A line has a value exactly when it holds a digit or a digit word, and
      then the value is built from the leftmost and the rightmost one. */
  lemma LineToValueSpec(line: string)
    ensures LineToValue(line).Some? <==> exists p :: 0 <= p < |line| && MatchAt(line, p, Words).Some?
    ensures LineToValue(line).Some? ==>
              exists p, e :: 0 <= p < |line| && 0 < e <= |line|
                && (forall q :: 0 <= q < p ==> MatchAt(line, q, Words).None?)
                && (forall e' :: e < e' <= |line| ==> MatchEndingAt(line, e').None?)
                && MatchAt(line, p, Words).Some? && MatchEndingAt(line, e).Some?
                && LineToValue(line).value == 10 * MatchAt(line, p, Words).value + MatchEndingAt(line, e).value
  {
    FirstIffLast(line);
    LastDigitIsRightmost(line);
    var first, last := FirstDigit(line), LastDigit(line);
    if first.Some? {
      var p :| 0 <= p < |line| && MatchAt(line, p, Words) == first
               && forall q :: 0 <= q < p ==> MatchAt(line, q, Words).None?;
      var e :| 0 < e <= |line| && MatchEndingAt(line, e) == last
               && forall e' :: e < e' <= |line| ==> MatchEndingAt(line, e').None?;
      assert LineToValue(line).value == 10 * MatchAt(line, p, Words).value + MatchEndingAt(line, e).value;
    }
  }

  /** The sum of optional values; `None` as soon as one is missing. */
  function SumOptions(xs: seq<Option<int>>): (r: Option<int>)
    ensures r.Some? <==> forall i :: 0 <= i < |xs| ==> xs[i].Some?
  {
    if xs == [] then Some(0)
    else
      var init := SumOptions(xs[..|xs| - 1]);
      assert forall i :: 0 <= i < |xs| - 1 ==> xs[..|xs| - 1][i] == xs[i];
      if init.Some? && xs[|xs| - 1].Some? then Some(init.value + xs[|xs| - 1].value) else None
  }

  /** The puzzle answer: the sum over the lines of their values. */
  function SumOfValues(lines: seq<string>): (r: Option<int>)
    ensures r.Some? <==> forall i :: 0 <= i < |lines| ==> LineToValue(lines[i]).Some?
  {
    var values := seq(|lines|, i requires 0 <= i < |lines| => LineToValue(lines[i]));
    assert forall i :: 0 <= i < |lines| ==> values[i] == LineToValue(lines[i]);
    SumOptions(values)
  }
}
