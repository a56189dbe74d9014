/** The small part of Rust's `str` API the puzzles' parsers rely on:
    `split(char)`, `split_whitespace`, `trim` and `parse` of decimal integers.
    Strings are sequences of characters; whitespace is Rust's
    `char::is_whitespace`, the Unicode White_Space property. */
module Text {
  import opened Common

  /** `char::is_whitespace`: tab, line feed, vertical tab, form feed,
      carriage return, space, next line, no-break space, ogham space mark,
      the spaces U+2000 to U+200A, the line and paragraph separators, the
      narrow no-break space, the medium mathematical space and the
      ideographic space. */
  predicate IsWhitespace(c: char)
  {
    ('\U{0009}' <= c <= '\U{000D}') || c == ' ' || c == '\U{0085}' || c == '\U{00A0}' || c == '\U{1680}' ||
    ('\U{2000}' <= c <= '\U{200A}') || c == '\U{2028}' || c == '\U{2029}' || c == '\U{202F}' ||
    c == '\U{205F}' || c == '\U{3000}'
  }

  predicate IsDigit(c: char)
  {
    '0' <= c <= '9'
  }

  function DigitValue(c: char): (d: nat)
    requires IsDigit(c)
    ensures d < 10
  {
    (c - '0') as nat
  }

  function DigitChar(d: nat): (c: char)
    requires d < 10
    ensures IsDigit(c) && DigitValue(c) == d
  {
    ('0' as int + d) as char
  }

  // ---------------------------------------------------------------------------
  // split(char)

  /** Index of the first occurrence of `c` in `s`, or |s|. */
  function IndexOf(s: string, c: char): (i: nat)
    ensures i <= |s|
    ensures i < |s| ==> s[i] == c
    ensures forall k :: 0 <= k < i ==> s[k] != c
  {
    if s == [] then 0 else if s[0] == c then 0 else 1 + IndexOf(s[1..], c)
  }

  /** `s.split(sep)`: the pieces between the separators, empty ones included. */
  function Split(s: string, sep: char): (r: seq<string>)
    ensures |r| >= 1
    ensures forall i :: 0 <= i < |r| ==> sep !in r[i]
    decreases |s|
  {
    var i := IndexOf(s, sep);
    if i == |s| then
      assert forall k :: 0 <= k < |s| ==> s[k] != sep;
      [s]
    else
      assert sep !in s[..i] by {
        forall k | 0 <= k < i ensures s[..i][k] != sep { }
      }
      [s[..i]] + Split(s[i + 1..], sep)
  }

  /** The inverse of `Split`: the pieces glued back with the separator. */
  function Join(parts: seq<string>, sep: char): string
  {
    if parts == [] then ""
    else if |parts| == 1 then parts[0]
    else parts[0] + [sep] + Join(parts[1..], sep)
  }

  /** `Join` of a piece in front of a non-empty list. */
  lemma JoinCons(p: string, rest: seq<string>, sep: char)
    requires rest != []
    ensures Join([p] + rest, sep) == p + [sep] + Join(rest, sep)
  {
    assert ([p] + rest)[1..] == rest;
  }

  lemma {:induction false} SplitJoin(s: string, sep: char)
    ensures Join(Split(s, sep), sep) == s
    decreases |s|
  {
    var i := IndexOf(s, sep);
    if i < |s| {
      var rest := Split(s[i + 1..], sep);
      assert Split(s, sep) == [s[..i]] + rest;
      SplitJoin(s[i + 1..], sep);
      JoinCons(s[..i], rest, sep);
      assert s == s[..i] + [sep] + s[i + 1..];
    }
  }

  lemma {:induction false} JoinSplit(parts: seq<string>, sep: char)
    requires |parts| >= 1
    requires forall i :: 0 <= i < |parts| ==> sep !in parts[i]
    ensures Split(Join(parts, sep), sep) == parts
    decreases |parts|
  {
    var p := parts[0];
    if |parts| == 1 {
      assert forall k :: 0 <= k < |p| ==> p[k] in p;
    } else {
      var s := Join(parts, sep);
      JoinSplit(parts[1..], sep);
      assert s == p + [sep] + Join(parts[1..], sep);
      IndexOfPrefix(p, sep, Join(parts[1..], sep));
      assert s[|p| + 1..] == Join(parts[1..], sep);
      assert s[..|p|] == p;
    }
  }

  /** The first separator of `p + [sep] + rest` is the one after `p`. */
  lemma IndexOfPrefix(p: string, sep: char, rest: string)
    requires sep !in p
    ensures IndexOf(p + [sep] + rest, sep) == |p|
  {
    var s := p + [sep] + rest;
    assert forall k :: 0 <= k < |p| ==> s[k] == p[k];
    assert s[|p|] == sep;
  }

  // ---------------------------------------------------------------------------
  // lines

  /** A line with the '\r' of a "\r\n" ending removed. */
  function StripCr(l: string): (r: string)
    ensures l != [] && l[|l| - 1] == '\r' ==> r == l[..|l| - 1]
    ensures (l == [] || l[|l| - 1] != '\r') ==> r == l
  {
    if l != [] && l[|l| - 1] == '\r' then l[..|l| - 1] else l
  }

  /** `s.lines()`: the pieces between '\n's, each without the '\r' of a
      "\r\n", and without the empty piece after a final '\n'.  A '\r' not
      followed by '\n' is kept. */
  function Lines(s: string): (r: seq<string>)
    ensures var parts := Split(s, '\n');
      |r| == (if parts[|parts| - 1] == [] then |parts| - 1 else |parts|)
  {
    var parts := Split(s, '\n');
    var n := |parts|;
    seq(n - 1, i requires 0 <= i < n - 1 => StripCr(parts[i]))
      + (if parts[n - 1] == [] then [] else [parts[n - 1]])
  }

  /** Lines each ended by "\n" come back without their '\r' endings. */
  lemma LinesOfJoin(ls: seq<string>)
    requires forall i :: 0 <= i < |ls| ==> '\n' !in ls[i]
    ensures Lines(Join(ls + [""], '\n')) == seq(|ls|, i requires 0 <= i < |ls| => StripCr(ls[i]))
  {
    var parts := ls + [""];
    assert forall i :: 0 <= i < |parts| ==> '\n' !in parts[i] by {
      forall i | 0 <= i < |parts| ensures '\n' !in parts[i] {
        if i < |ls| { assert parts[i] == ls[i]; } else { assert parts[i] == ""; }
      }
    }
    assert Split(Join(parts, '\n'), '\n') == parts by {
      JoinSplit(parts, '\n');
    }
    var n := |parts|;
    assert parts[n - 1] == [] && parts[..n - 1] == ls;
  }

  // ---------------------------------------------------------------------------
  // split_whitespace

  /** Length of the longest prefix of `s` with no whitespace. */
  function WordEnd(s: string): (n: nat)
    ensures n <= |s|
    ensures n < |s| ==> IsWhitespace(s[n])
    ensures forall k :: 0 <= k < n ==> !IsWhitespace(s[k])
  {
    if s == [] || IsWhitespace(s[0]) then 0 else 1 + WordEnd(s[1..])
  }

  predicate IsWord(w: string)
  {
    w != [] && forall k :: 0 <= k < |w| ==> !IsWhitespace(w[k])
  }

  /** `s.split_whitespace()`: the maximal runs of non-whitespace characters. */
  function SplitWhitespace(s: string): (r: seq<string>)
    ensures forall i :: 0 <= i < |r| ==> IsWord(r[i])
    decreases |s|
  {
    if s == [] then []
    else if IsWhitespace(s[0]) then SplitWhitespace(s[1..])
    else
      var n := WordEnd(s);
      assert IsWord(s[..n]) by {
        forall k | 0 <= k < n ensures !IsWhitespace(s[..n][k]) { }
      }
      [s[..n]] + SplitWhitespace(s[n..])
  }

  /** The words glued back with single spaces. */
  function Unwords(ws: seq<string>): string
  {
    if ws == [] then ""
    else if |ws| == 1 then ws[0]
    else ws[0] + " " + Unwords(ws[1..])
  }

  lemma {:induction false} WordEndOfWord(w: string, rest: string)
    requires IsWord(w)
    requires rest == [] || IsWhitespace(rest[0])
    ensures WordEnd(w + rest) == |w|
    decreases |w|
  {
    var s := w + rest;
    assert s[0] == w[0];
    if |w| > 1 {
      assert s[1..] == w[1..] + rest;
      WordEndOfWord(w[1..], rest);
    } else {
      assert s[1..] == rest;
    }
  }

  /** Splitting spaced-out words gives the words back. */
  lemma SplitUnwords(ws: seq<string>)
    requires forall i :: 0 <= i < |ws| ==> IsWord(ws[i])
    ensures SplitWhitespace(Unwords(ws)) == ws
  {
    SplitUnwordsPadded(ws, "");
    assert Unwords(ws) + "" == Unwords(ws);
  }

  /** ... also when trailing whitespace follows them. */
  lemma {:induction false} SplitUnwordsPadded(ws: seq<string>, pad: string)
    requires forall i :: 0 <= i < |ws| ==> IsWord(ws[i])
    requires forall k :: 0 <= k < |pad| ==> IsWhitespace(pad[k])
    ensures SplitWhitespace(Unwords(ws) + pad) == ws
    decreases |ws|
  {
    if ws == [] {
      SplitWhitespaceSkip(pad, "");
      assert pad + "" == pad;
      assert Unwords(ws) + pad == pad;
    } else if |ws| == 1 {
      SplitWhitespaceCons(ws[0], pad);
      SplitWhitespaceSkip(pad, "");
      assert pad + "" == pad;
    } else {
      var tail := Unwords(ws[1..]) + pad;
      assert Unwords(ws) + pad == ws[0] + (" " + tail);
      SplitWhitespaceCons(ws[0], " " + tail);
      SplitWhitespaceSkip(" ", tail);
      SplitUnwordsPadded(ws[1..], pad);
    }
  }

  // ---------------------------------------------------------------------------
  // trim

  function TrimStart(s: string): (r: string)
    ensures |r| <= |s| && r == s[|s| - |r|..]
    ensures r == [] || !IsWhitespace(r[0])
    ensures forall k :: 0 <= k < |s| - |r| ==> IsWhitespace(s[k])
  {
    if s != [] && IsWhitespace(s[0]) then TrimStart(s[1..]) else s
  }

  function TrimEnd(s: string): (r: string)
    ensures |r| <= |s| && r == s[..|r|]
    ensures r == [] || !IsWhitespace(r[|r| - 1])
    ensures forall k :: |r| <= k < |s| ==> IsWhitespace(s[k])
  {
    if s != [] && IsWhitespace(s[|s| - 1]) then TrimEnd(s[..|s| - 1]) else s
  }

  /** `s.trim()`: both ends stripped of whitespace. */
  function Trim(s: string): string
  {
    TrimEnd(TrimStart(s))
  }

  /** Trimming strips exactly the leading whitespace from a string whose
      first and last characters are not whitespace. */
  lemma {:induction false} TrimPadded(ws: string, s: string)
    requires forall k :: 0 <= k < |ws| ==> IsWhitespace(ws[k])
    requires s != [] && !IsWhitespace(s[0]) && !IsWhitespace(s[|s| - 1])
    ensures Trim(ws + s) == s
    decreases |ws|
  {
    if ws == [] {
      assert ws + s == s;
    } else {
      assert (ws + s)[0] == ws[0];
      assert (ws + s)[1..] == ws[1..] + s;
      TrimPadded(ws[1..], s);
    }
  }

  // ---------------------------------------------------------------------------
  // parse::<i64>() / parse::<usize>()

  predicate AllDigits(s: string)
  {
    forall k :: 0 <= k < |s| ==> IsDigit(s[k])
  }

  /** The value of a string of decimal digits, most significant first. */
  function DigitsValue(s: string): nat
    requires AllDigits(s)
  {
    if s == [] then 0 else 10 * DigitsValue(s[..|s| - 1]) + DigitValue(s[|s| - 1])
  }

  /** `parse::<usize>()`: an optional '+' and at least one digit; anything else fails. */
  function ParseNat(s: string): (r: Option<nat>)
    ensures r.Some? <==> (s != [] && s[0] == '+' && s[1..] != [] && AllDigits(s[1..])) || (s != [] && AllDigits(s))
  {
    if s != [] && s[0] == '+' && s[1..] != [] && AllDigits(s[1..]) then Some(DigitsValue(s[1..]))
    else if s != [] && AllDigits(s) then Some(DigitsValue(s))
    else None
  }

  /** `parse::<i64>()`: like `ParseNat` but a leading '-' negates. */
  function ParseInt(s: string): (r: Option<int>)
    ensures s != [] && s[0] == '-' ==> (r.Some? <==> s[1..] != [] && AllDigits(s[1..]))
    ensures (s == [] || s[0] != '-') ==> (r.Some? <==> ParseNat(s).Some?)
  {
    if s != [] && s[0] == '-' then
      if s[1..] != [] && AllDigits(s[1..]) then Some(-(DigitsValue(s[1..]) as int)) else None
    else match ParseNat(s)
      case Some(n) => Some(n)
      case None => None
  }

  /** Decimal rendering of a natural number, the partner of `ParseNat`. */
  function ShowNat(n: nat): (s: string)
    ensures s != [] && AllDigits(s)
  {
    if n < 10 then [DigitChar(n)] else ShowNat(n / 10) + [DigitChar(n % 10)]
  }

  lemma {:induction false} DigitsValueShowNat(n: nat)
    ensures DigitsValue(ShowNat(n)) == n
  {
    if n >= 10 {
      DigitsValueShowNat(n / 10);
      var s := ShowNat(n);
      assert s[..|s| - 1] == ShowNat(n / 10);
    }
  }

  lemma ParseShowNat(n: nat)
    ensures ParseNat(ShowNat(n)) == Some(n)
    ensures ParseInt(ShowNat(n)) == Some(n)
  {
    DigitsValueShowNat(n);
  }

  /** Decimal rendering of an integer, with a leading '-' when negative. */
  function ShowInt(n: int): (s: string)
    ensures IsWord(s)
    ensures forall k :: 0 <= k < |s| ==> IsDigit(s[k]) || s[k] == '-'
  {
    if n < 0 then "-" + ShowNat(-n) else ShowNat(n)
  }

  lemma ParseShowInt(n: int)
    ensures ParseInt(ShowInt(n)) == Some(n)
  {
    if n < 0 {
      DigitsValueShowNat(-n);
      assert ShowInt(n)[1..] == ShowNat(-n);
    } else {
      ParseShowNat(n);
    }
  }

  function ShowInts(xs: seq<int>): (r: seq<string>)
    ensures |r| == |xs| && forall i :: 0 <= i < |xs| ==> r[i] == ShowInt(xs[i])
  {
    if xs == [] then [] else [ShowInt(xs[0])] + ShowInts(xs[1..])
  }

  lemma {:induction false} ParseShowInts(xs: seq<int>)
    ensures ParseInts(ShowInts(xs)) == Some(xs)
  {
    if xs != [] {
      ParseShowInt(xs[0]);
      ParseShowInts(xs[1..]);
      assert ShowInts(xs)[1..] == ShowInts(xs[1..]);
      assert [xs[0]] + xs[1..] == xs;
    }
  }

  /** A character that is neither a digit, '-' nor whitespace does not occur
      in spaced-out integers. */
  lemma {:induction false} NotInUnwordsOfInts(xs: seq<int>, c: char)
    requires !IsDigit(c) && c != '-' && c != ' '
    ensures c !in Unwords(ShowInts(xs))
    decreases |xs|
  {
    if |xs| > 1 {
      NotInUnwordsOfInts(xs[1..], c);
      assert ShowInts(xs)[1..] == ShowInts(xs[1..]);
    }
  }

  /** `split_whitespace` drops leading whitespace. */
  lemma {:induction false} SplitWhitespaceSkip(ws: string, s: string)
    requires forall k :: 0 <= k < |ws| ==> IsWhitespace(ws[k])
    ensures SplitWhitespace(ws + s) == SplitWhitespace(s)
    decreases |ws|
  {
    if ws != [] {
      assert (ws + s)[1..] == ws[1..] + s;
      assert (ws + s)[0] == ws[0];
      SplitWhitespaceSkip(ws[1..], s);
    } else {
      assert ws + s == s;
    }
  }

  /** `split_whitespace` takes a word ending at whitespace or at the end. */
  lemma SplitWhitespaceCons(w: string, rest: string)
    requires IsWord(w)
    requires rest == [] || IsWhitespace(rest[0])
    ensures SplitWhitespace(w + rest) == [w] + SplitWhitespace(rest)
  {
    WordEndOfWord(w, rest);
    var s := w + rest;
    assert s[..|w|] == w && s[|w|..] == rest;
  }

  /** A word, a run of whitespace, then the rest: the word comes first. */
  lemma SplitWhitespaceGap(w: string, gap: string, rest: string)
    requires IsWord(w)
    requires gap != [] && forall k :: 0 <= k < |gap| ==> IsWhitespace(gap[k])
    ensures SplitWhitespace(w + gap + rest) == [w] + SplitWhitespace(rest)
  {
    assert w + gap + rest == w + (gap + rest);
    assert (gap + rest)[0] == gap[0];
    SplitWhitespaceCons(w, gap + rest);
    SplitWhitespaceSkip(gap, rest);
  }

  /** Each word parsed as an integer; `None` if one fails (`parse().unwrap()`). */
  function ParseInts(ws: seq<string>): (r: Option<seq<int>>)
    ensures r.Some? ==> |r.value| == |ws|
    ensures r.Some? ==> forall i :: 0 <= i < |ws| ==> ParseInt(ws[i]) == Some(r.value[i])
    ensures r.None? ==> exists i :: 0 <= i < |ws| && ParseInt(ws[i]).None?
  {
    if ws == [] then Some([])
    else match (ParseInt(ws[0]), ParseInts(ws[1..]))
      case (Some(x), Some(xs)) => Some([x] + xs)
      case (None, _) => None
      case (_, None) => None
  }
}
