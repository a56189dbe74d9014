/** Camel Cards with jokers (day07/src/main.rs).  A hand is five cards; its
    type is decided by how many distinct non-joker kinds it holds and how far
    the jokers can stretch the commonest one; hands of the same type are
    ordered card by card. */
module Day07 {
  import opened Common
  import opened Text

  // ---------------------------------------------------------------------------
  // Cards

  /** `Card`, declared weakest first: the derived order compares the variant
      and then, between two `N`s, the number. */
  datatype Card = J | N(n: int) | T | Q | K | A

  datatype Ordering = Less | Equal | Greater

  function Flip(o: Ordering): Ordering
  {
    match o
    case Less => Greater
    case Equal => Equal
    case Greater => Less
  }

  function CompareInt(x: int, y: int): (o: Ordering)
    ensures o == Equal <==> x == y
    ensures o == Less <==> x < y
  {
    if x < y then Less else if x == y then Equal else Greater
  }

  function Variant(c: Card): nat
  {
    match c
    case J => 0
    case N(_) => 1
    case T => 2
    case Q => 3
    case K => 4
    case A => 5
  }

  /** The derived `Ord` of `Card`. */
  function CardCmp(a: Card, b: Card): (o: Ordering)
  {
    if Variant(a) != Variant(b) then CompareInt(Variant(a), Variant(b))
    else if a.N? then CompareInt(a.n, b.n)
    else Equal
  }

  /** The cards `try_from` can produce. */
  predicate ValidCard(c: Card)
  {
    c.N? ==> 2 <= c.n <= 9
  }

  /** The puzzle's strength of a card: the joker is the weakest, then the
      numbers 2 to 9, then T, Q, K and A. */
  function Strength(c: Card): int
  {
    match c
    case J => 1
    case N(n) => n
    case T => 10
    case Q => 12
    case K => 13
    case A => 14
  }

  /** On the cards that can occur, the derived order is the order by strength. */
  lemma CardCmpStrength(a: Card, b: Card)
    requires ValidCard(a) && ValidCard(b)
    ensures CardCmp(a, b) == CompareInt(Strength(a), Strength(b))
  {
  }

  lemma CardCmpEqual(a: Card, b: Card)
    ensures CardCmp(a, b) == Equal <==> a == b
  {
  }

  lemma CardCmpFlip(a: Card, b: Card)
    ensures CardCmp(b, a) == Flip(CardCmp(a, b))
  {
  }

  lemma CardCmpTrans(a: Card, b: Card, c: Card)
    requires CardCmp(a, b) == Less && CardCmp(b, c) == Less
    ensures CardCmp(a, c) == Less
  {
  }

  /** `Card::try_from(char)`. */
  function CardOf(ch: char): (r: Option<Card>)
    ensures r.Some? <==> ch in "AKQJT" || '2' <= ch <= '9'
    ensures r.Some? ==> ValidCard(r.value)
  {
    match ch
    case 'A' => Some(A)
    case 'K' => Some(K)
    case 'Q' => Some(Q)
    case 'J' => Some(J)
    case 'T' => Some(T)
    case _ => if '2' <= ch <= '9' then Some(N(ch as int - '0' as int)) else None
  }

  /** The letter or digit of a card. */
  function CardChar(c: Card): char
    requires ValidCard(c)
  {
    match c
    case J => 'J'
    case N(n) => (n + '0' as int) as char
    case T => 'T'
    case Q => 'Q'
    case K => 'K'
    case A => 'A'
  }

  lemma CardOfChar(c: Card)
    requires ValidCard(c)
    ensures CardOf(CardChar(c)) == Some(c)
  {
  }

  lemma CharOfCard(ch: char)
    requires CardOf(ch).Some?
    ensures CardChar(CardOf(ch).value) == ch
  {
  }

  // ---------------------------------------------------------------------------
  // Hand types

  /** `Type`, declared weakest first. */
  datatype HandKind = HighCard | OnePair | TwoPair | ThreeOfAKind | FullHouse | FourOfAKind | FiveOfAKind

  function KindRank(t: HandKind): nat
  {
    match t
    case HighCard => 0
    case OnePair => 1
    case TwoPair => 2
    case ThreeOfAKind => 3
    case FullHouse => 4
    case FourOfAKind => 5
    case FiveOfAKind => 6
  }

  /** `Hand`: exactly five cards. */
  type Hand = cards: seq<Card> | |cards| == 5 witness [J, J, J, J, J]

  /** `card_counts`: how often each non-joker card occurs. */
  function Counts(s: seq<Card>): (m: map<Card, nat>)
    ensures forall c :: c in m <==> c in multiset(s) && c != J
  {
    map c | c in multiset(s) && c != J :: multiset(s)[c]
  }

  /** `jokers`. */
  function Jokers(s: seq<Card>): nat
  {
    multiset(s)[J]
  }

  /** Some non-joker kind reaches `n` cards once the jokers join it. */
  predicate Reaches(s: seq<Card>, n: nat)
  {
    exists c :: c in Counts(s) && Counts(s)[c] + Jokers(s) >= n
  }

  /** The decision of `hand_type` on the number of kinds and the two
      thresholds it looks at. */
  function KindOf(kinds: nat, reachesThree: bool, reachesFour: bool): HandKind
  {
    if kinds <= 1 then FiveOfAKind
    else if kinds == 2 then (if reachesFour then FourOfAKind else FullHouse)
    else if kinds == 3 then (if reachesThree then ThreeOfAKind else TwoPair)
    else if kinds == 4 then OnePair
    else HighCard
  }

  /** `hand_type`. */
  function HandType(h: Hand): HandKind
  {
    KindOf(|Counts(h)|, Reaches(h, 3), Reaches(h, 4))
  }

  /** Counting cards one at a time, as the loop of `hand_type` does. */
  lemma CountsSnoc(s: seq<Card>, c: Card)
    ensures c == J ==> Counts(s + [c]) == Counts(s) && Jokers(s + [c]) == Jokers(s) + 1
    ensures c != J ==> Jokers(s + [c]) == Jokers(s)
    ensures c != J ==> Counts(s + [c]) == Counts(s)[c := (if c in Counts(s) then Counts(s)[c] else 0) + 1]
  {
    assert multiset(s + [c]) == multiset(s) + multiset{c};
    if c == J {
      JokerSnoc(s);
    } else {
      CardSnoc(s, c);
    }
  }

  lemma JokerSnoc(s: seq<Card>)
    ensures Counts(s + [J]) == Counts(s)
  {
    var before, after := Counts(s), Counts(s + [J]);
    var ms, ms' := multiset(s), multiset(s + [J]);
    assert ms' == ms + multiset{J};
    assert forall d :: d != J ==> ms'[d] == ms[d];
    assert after.Keys == before.Keys;
  }

  lemma CardSnoc(s: seq<Card>, c: Card)
    requires c != J
    ensures Counts(s + [c]) == Counts(s)[c := (if c in Counts(s) then Counts(s)[c] else 0) + 1]
  {
    var before, after := Counts(s), Counts(s + [c]);
    var ms, ms' := multiset(s), multiset(s + [c]);
    assert ms' == ms + multiset{c};
    var expected := before[c := (if c in before then before[c] else 0) + 1];
    forall d | d in after
      ensures d in expected && after[d] == expected[d]
    {
      if d != c {
        assert ms'[d] == ms[d];
      }
    }
    forall d | d in expected
      ensures d in after
    {
      if d != c {
        assert ms'[d] == ms[d];
      }
    }
    assert after == expected;
  }

  /** `Hand::hand_type`: fills a map of counts and a joker counter, then
      decides on the number of kinds. */
  method ComputeHandType(h: Hand) returns (t: HandKind)
    ensures t == HandType(h)
  {
    var cardCounts: map<Card, nat> := map[];
    var jokers: int := 0;
    for i := 0 to 5
      invariant cardCounts == Counts(h[..i]) && jokers == Jokers(h[..i])
    {
      CountsSnoc(h[..i], h[i]);
      assert h[..i + 1] == h[..i] + [h[i]];
      if h[i] == J {
        jokers := jokers + 1;
      } else {
        var previous := if h[i] in cardCounts then cardCounts[h[i]] else 0;
        cardCounts := cardCounts[h[i] := previous + 1];
      }
    }
    assert h[..5] == h;
    if |cardCounts| == 0 {
      t := FiveOfAKind;
    } else if |cardCounts| == 1 {
      t := FiveOfAKind;
    } else if |cardCounts| == 2 {
      if exists c :: c in cardCounts && cardCounts[c] + jokers >= 4 {
        t := FourOfAKind;
      } else {
        t := FullHouse;
      }
    } else if |cardCounts| == 3 {
      if exists c :: c in cardCounts && cardCounts[c] + jokers >= 3 {
        t := ThreeOfAKind;
      } else {
        t := TwoPair;
      }
    } else if |cardCounts| == 4 {
      t := OnePair;
    } else {
      t := HighCard;
    }
  }

  /** More kinds never make a better type, nor does a threshold that fails. */
  lemma KindOfMonotone(k: nat, k2: nat, r3: bool, r3b: bool, r4: bool, r4b: bool)
    requires k <= k2
    requires r3b ==> r3
    requires r4b ==> r4
    ensures KindRank(KindOf(k2, r3b, r4b)) <= KindRank(KindOf(k, r3, r4))
  {
  }

  lemma AddOne<X>(s: set<X>, x: X)
    ensures |s| <= |s + {x}|
  {
    if x in s {
      assert s + {x} == s;
    } else {
      assert |s + {x}| == |s| + |{x}|;
    }
  }

  /** What replacing a joker by another card does to the counts. */
  lemma CountsAfterJoker(h: seq<Card>, i: nat, c: Card)
    requires i < |h| && h[i] == J && c != J
    ensures Jokers(h[i := c]) == Jokers(h) - 1
    ensures Counts(h[i := c]).Keys == Counts(h).Keys + {c}
    ensures forall d :: d in Counts(h) && d != c ==> Counts(h[i := c])[d] == Counts(h)[d]
    ensures Counts(h[i := c])[c] == (if c in Counts(h) then Counts(h)[c] else 0) + 1
    ensures |Counts(h)| <= |Counts(h[i := c])|
  {
    var ms, ms2 := multiset(h), multiset(h[i := c]);
    assert ms2 == ms - multiset{J} + multiset{c};
    var m, m2 := Counts(h), Counts(h[i := c]);
    assert Jokers(h[i := c]) == Jokers(h) - 1 by {
      assert ms2[J] == ms[J] - 1;
    }
    assert m2.Keys == m.Keys + {c};
    forall d | d in m && d != c ensures m2[d] == m[d] {
      assert ms2[d] == ms[d];
    }
    assert m2[c] == (if c in m then m[c] else 0) + 1 by {
      assert ms2[c] == ms[c] + 1;
    }
    assert |m| <= |m2| by {
      AddOne(m.Keys, c);
      assert |m| == |m.Keys| && |m2| == |m2.Keys|;
    }
  }

  lemma ReachesAfterJoker(h: seq<Card>, i: nat, c: Card, n: nat)
    requires i < |h| && h[i] == J && c != J
    requires |Counts(h)| > 0
    ensures Reaches(h[i := c], n) ==> Reaches(h, n)
  {
    var h2 := h[i := c];
    var m, m2 := Counts(h), Counts(h2);
    var j, j2 := Jokers(h), Jokers(h2);
    CountsAfterJoker(h, i, c);
    if Reaches(h2, n) {
      var d :| d in m2 && m2[d] + j2 >= n;
      var best := if d in m then d else var some :| some in m; some;
      assert m[best] + j >= n by {
        if d in m {
          assert m2[d] <= m[d] + 1;
        } else {
          assert m2[d] == 1 && m[best] == multiset(h)[best] >= 1;
        }
      }
    }
  }

  /** A joker is worth at least as much as any card it could be replaced by. */
  lemma JokerNeverWorse(h: Hand, i: nat, c: Card)
    requires i < 5 && h[i] == J
    ensures KindRank(HandType(h[i := c])) <= KindRank(HandType(h))
  {
    var h2: Hand := h[i := c];
    if c == J {
      assert h2 == h;
    } else if |Counts(h)| > 0 {
      CountsAfterJoker(h, i, c);
      assert |Counts(h)| <= |Counts(h2)|;
      ReachesAfterJoker(h, i, c, 3);
      ReachesAfterJoker(h, i, c, 4);
      KindOfMonotone(|Counts(h)|, |Counts(h2)|, Reaches(h, 3), Reaches(h2, 3), Reaches(h, 4), Reaches(h2, 4));
    }
  }

  /** The type of a hand, once its counts are known. */
  lemma TypeFromCounts(h: Hand, m: map<Card, nat>, jokers: nat)
    requires Counts(h) == m && Jokers(h) == jokers
    ensures HandType(h) == KindOf(|m|, exists c :: c in m && m[c] + jokers >= 3, exists c :: c in m && m[c] + jokers >= 4)
  {
  }

  lemma OnePairCounts(h: Hand)
    requires h == [N(3), N(2), T, N(3), K]
    ensures Counts(h) == map[N(3) := 2, N(2) := 1, T := 1, K := 1] && Jokers(h) == 0
  {
  }

  /** 32T3K is a OnePair. */
  lemma OnePairExample(h: Hand)
    requires h == [N(3), N(2), T, N(3), K]
    ensures HandType(h) == OnePair
  {
    var m := map[N(3) := 2, N(2) := 1, T := 1, K := 1];
    OnePairCounts(h);
    assert m.Keys == {N(3), N(2), T, K};
    TypeFromCounts(h, m, 0);
  }

  lemma CardOfThree<T>(a: T, b: T, c: T)
    requires a != b && a != c && b != c
    ensures |{a, b, c}| == 3
  {
    assert {a, b, c} == {a, b} + {c};
  }

  lemma TwoPairCounts(h: Hand)
    requires h == [K, K, N(6), N(7), N(7)]
    ensures Counts(h) == map[K := 2, N(6) := 1, N(7) := 2] && Jokers(h) == 0
  {
  }

  /** KK677 is a TwoPair. */
  lemma TwoPairExample(h: Hand)
    requires h == [K, K, N(6), N(7), N(7)]
    ensures HandType(h) == TwoPair
  {
    var m := map[K := 2, N(6) := 1, N(7) := 2];
    TwoPairCounts(h);
    assert |m| == 3 by {
      assert m.Keys == {K, N(6), N(7)};
      CardOfThree(K, N(6), N(7));
    }
    assert !exists c :: c in m && m[c] >= 3 by {
      forall c | c in m
        ensures m[c] < 3
      {
        assert c == K || c == N(6) || c == N(7);
      }
    }
    TypeFromCounts(h, m, 0);
  }

  lemma JokerFoursCounts(h: Hand)
    requires h == [T, N(5), N(5), J, N(5)]
    ensures Counts(h) == map[T := 1, N(5) := 3] && Jokers(h) == 1
  {
  }

  /** T55J5 is a FourOfAKind. */
  lemma JokerFoursExample(h: Hand)
    requires h == [T, N(5), N(5), J, N(5)]
    ensures HandType(h) == FourOfAKind
  {
    var m := map[T := 1, N(5) := 3];
    JokerFoursCounts(h);
    assert m.Keys == {T, N(5)};
    TypeFromCounts(h, m, 1);
    assert m[N(5)] + 1 >= 4;
  }

  lemma JokerPairsCounts(h: Hand)
    requires h == [K, T, J, J, T]
    ensures Counts(h) == map[K := 1, T := 2] && Jokers(h) == 2
  {
  }

  /** KTJJT is a FourOfAKind. */
  lemma JokerPairsExample(h: Hand)
    requires h == [K, T, J, J, T]
    ensures HandType(h) == FourOfAKind
  {
    var m := map[K := 1, T := 2];
    JokerPairsCounts(h);
    assert m.Keys == {K, T};
    TypeFromCounts(h, m, 2);
    assert m[T] + 2 >= 4;
  }

  lemma JokerThreesCounts(h: Hand)
    requires h == [Q, Q, Q, J, A]
    ensures Counts(h) == map[Q := 3, A := 1] && Jokers(h) == 1
  {
  }

  /** QQQJA is a FourOfAKind. */
  lemma JokerThreesExample(h: Hand)
    requires h == [Q, Q, Q, J, A]
    ensures HandType(h) == FourOfAKind
  {
    var m := map[Q := 3, A := 1];
    JokerThreesCounts(h);
    assert m.Keys == {Q, A};
    TypeFromCounts(h, m, 1);
    assert m[Q] + 1 >= 4;
  }

  lemma JokerKingsCounts(h: Hand)
    requires h == [J, K, K, K, N(2)]
    ensures Counts(h) == map[K := 3, N(2) := 1] && Jokers(h) == 1
  {
  }

  /** JKKK2 is a FourOfAKind. */
  lemma JokerKingsExample(h: Hand)
    requires h == [J, K, K, K, N(2)]
    ensures HandType(h) == FourOfAKind
  {
    var m := map[K := 3, N(2) := 1];
    JokerKingsCounts(h);
    assert m.Keys == {K, N(2)};
    TypeFromCounts(h, m, 1);
    assert m[K] + 1 >= 4;
  }

  lemma JokerQueensCounts(h: Hand)
    requires h == [Q, J, J, Q, N(2)]
    ensures Counts(h) == map[Q := 2, N(2) := 1] && Jokers(h) == 2
  {
  }

  /** QJJQ2 is a FourOfAKind. */
  lemma JokerQueensExample(h: Hand)
    requires h == [Q, J, J, Q, N(2)]
    ensures HandType(h) == FourOfAKind
  {
    var m := map[Q := 2, N(2) := 1];
    JokerQueensCounts(h);
    assert m.Keys == {Q, N(2)};
    TypeFromCounts(h, m, 2);
    assert m[Q] + 2 >= 4;
  }

  // ---------------------------------------------------------------------------
  // Ordering hands

  /** The cards compared pairwise: the first pair that differs decides. */
  function Lex(a: seq<Card>, b: seq<Card>): Ordering
    requires |a| == |b|
  {
    if a == [] then Equal
    else if CardCmp(a[0], b[0]) != Equal then CardCmp(a[0], b[0])
    else Lex(a[1..], b[1..])
  }

  lemma {:induction false} LexEqual(a: seq<Card>, b: seq<Card>)
    requires |a| == |b|
    ensures Lex(a, b) == Equal <==> a == b
  {
    if a != [] {
      CardCmpEqual(a[0], b[0]);
      LexEqual(a[1..], b[1..]);
      if a[0] == b[0] && a[1..] == b[1..] {
        assert a == [a[0]] + a[1..] && b == [b[0]] + b[1..];
      }
    }
  }

  lemma {:induction false} LexFlip(a: seq<Card>, b: seq<Card>)
    requires |a| == |b|
    ensures Lex(b, a) == Flip(Lex(a, b))
  {
    if a != [] {
      CardCmpFlip(a[0], b[0]);
      LexFlip(a[1..], b[1..]);
    }
  }

  lemma {:induction false} LexTrans(a: seq<Card>, b: seq<Card>, c: seq<Card>)
    requires |a| == |b| == |c|
    requires Lex(a, b) == Less && Lex(b, c) == Less
    ensures Lex(a, c) == Less
  {
    CardCmpEqual(a[0], b[0]);
    CardCmpEqual(b[0], c[0]);
    if CardCmp(a[0], b[0]) == Equal && CardCmp(b[0], c[0]) == Equal {
      LexTrans(a[1..], b[1..], c[1..]);
    } else if CardCmp(a[0], b[0]) == Less && CardCmp(b[0], c[0]) == Less {
      CardCmpTrans(a[0], b[0], c[0]);
    }
  }

  /** `Hand::cmp`: by type first, then card by card. */
  function HandCmp(a: Hand, b: Hand): Ordering
  {
    match CompareInt(KindRank(HandType(a)), KindRank(HandType(b)))
    case Equal => Lex(a, b)
    case o => o
  }

  /** `Hand::eq`: the zipped cards are all equal. */
  predicate HandEq(a: Hand, b: Hand)
  {
    forall i :: 0 <= i < 5 ==> a[i] == b[i]
  }

  /** `eq` and `cmp` agree, and both are equality of the five cards. */
  lemma HandCmpEqual(a: Hand, b: Hand)
    ensures HandCmp(a, b) == Equal <==> HandEq(a, b)
    ensures HandEq(a, b) <==> a == b
  {
    LexEqual(a, b);
  }

  lemma HandCmpFlip(a: Hand, b: Hand)
    ensures HandCmp(b, a) == Flip(HandCmp(a, b))
  {
    LexFlip(a, b);
  }

  lemma HandCmpTrans(a: Hand, b: Hand, c: Hand)
    requires HandCmp(a, b) == Less && HandCmp(b, c) == Less
    ensures HandCmp(a, c) == Less
  {
    if HandType(a) == HandType(b) == HandType(c) {
      LexTrans(a, b, c);
    }
  }

  /** JKKK2 is weaker than QJJQ2: both are four of a kind, and J is below Q. */
  lemma JokerHandsOrder(a: Hand, b: Hand)
    requires a == [J, K, K, K, N(2)] && b == [Q, J, J, Q, N(2)]
    ensures HandCmp(a, b) == Less
  {
    JokerKingsExample(a);
    JokerQueensExample(b);
  }

  // ---------------------------------------------------------------------------
  // Reading hands

  /** The recognised cards of a string, in order; other characters are dropped. */
  function CardsOf(s: string): (r: seq<Card>)
    ensures |r| <= |s|
    ensures forall i :: 0 <= i < |r| ==> ValidCard(r[i])
  {
    if s == [] then []
    else match CardOf(s[0])
      case Some(c) => [c] + CardsOf(s[1..])
      case None => CardsOf(s[1..])
  }

  lemma {:induction false} CardsOfAppend(s: string, t: string)
    ensures CardsOf(s + t) == CardsOf(s) + CardsOf(t)
  {
    if s == [] {
      assert s + t == t;
    } else {
      assert (s + t)[0] == s[0] && (s + t)[1..] == s[1..] + t;
      CardsOfAppend(s[1..], t);
    }
  }

  /** `Hand::try_from(&str)`: exactly five recognised cards. */
  function HandOf(s: string): (r: Option<Hand>)
    ensures r.Some? <==> |CardsOf(s)| == 5
    ensures r.Some? ==> r.value == CardsOf(s)
  {
    var cards := CardsOf(s);
    if |cards| == 5 then Some(cards) else None
  }

  /** An unrecognised character changes nothing. */
  lemma HandOfIgnores(s: string, ch: char, t: string)
    requires CardOf(ch).None?
    ensures HandOf(s + [ch] + t) == HandOf(s + t)
  {
    CardsOfAppend(s + [ch], t);
    CardsOfAppend(s, [ch]);
    CardsOfAppend(s, t);
    assert [ch][0] == ch && [ch][1..] == [];
    assert CardsOf([ch]) == [];
    assert CardsOf(s + [ch]) == CardsOf(s);
    assert CardsOf(s + [ch] + t) == CardsOf(s + t);
  }

  /** The five letters of a hand. */
  function ShowCards(cs: seq<Card>): (r: string)
    requires forall i :: 0 <= i < |cs| ==> ValidCard(cs[i])
    ensures |r| == |cs| && forall i :: 0 <= i < |cs| ==> r[i] == CardChar(cs[i])
  {
    if cs == [] then "" else [CardChar(cs[0])] + ShowCards(cs[1..])
  }

  lemma {:induction false} CardsOfShow(cs: seq<Card>)
    requires forall i :: 0 <= i < |cs| ==> ValidCard(cs[i])
    ensures CardsOf(ShowCards(cs)) == cs
  {
    if cs != [] {
      CardOfChar(cs[0]);
      CardsOfShow(cs[1..]);
      assert ShowCards(cs)[1..] == ShowCards(cs[1..]);
    }
  }

  lemma HandOfShow(h: Hand)
    requires forall i :: 0 <= i < 5 ==> ValidCard(h[i])
    ensures HandOf(ShowCards(h)) == Some(h)
  {
    CardsOfShow(h);
  }

  // ---------------------------------------------------------------------------
  // parse_input

  /** One line: a hand and a bet separated by whitespace. */
  function ParseLine(line: string): (r: Result<(Hand, int)>)
    ensures |SplitWhitespace(line)| < 2 ==> r.Err?
  {
    var words := SplitWhitespace(line);
    if |words| < 2 then Err("missing hand or bet")
    else match ParseInt(words[1])
      case None => Err("bad bet")
      case Some(bet) =>
        match HandOf(words[0])
        case None => Err("not five cards")
        case Some(h) => Ok((h, bet))
  }

  /** `parse_input`: every line must hold a hand and a bet. */
  function ParseInput(input: string): (r: Result<seq<(Hand, int)>>)
    ensures r.Ok? <==> forall i :: 0 <= i < |Lines(input)| ==> ParseLine(Lines(input)[i]).Ok?
    ensures r.Ok? ==> (|r.value| == |Lines(input)| &&
                       forall i :: 0 <= i < |r.value| ==> ParseLine(Lines(input)[i]) == Ok(r.value[i]))
  {
    var lines := Lines(input);
    var parsed := seq(|lines|, i requires 0 <= i < |lines| => ParseLine(lines[i]));
    assert forall i :: 0 <= i < |lines| ==> parsed[i] == ParseLine(lines[i]);
    Collect(parsed)
  }

  lemma CardCharNotWhitespace(c: Card)
    requires ValidCard(c)
    ensures !IsWhitespace(CardChar(c))
  {
    if c.N? {
      assert '2' <= CardChar(c) <= '9';
    }
  }

  lemma ShowCardsIsWord(cs: seq<Card>)
    requires |cs| > 0 && forall i :: 0 <= i < |cs| ==> ValidCard(cs[i])
    ensures IsWord(ShowCards(cs))
  {
    var r := ShowCards(cs);
    forall k | 0 <= k < |r|
      ensures !IsWhitespace(r[k])
    {
      CardCharNotWhitespace(cs[k]);
    }
  }

  /** Reading back a written line gives the hand and the bet. */
  lemma ParseFormatLine(h: Hand, bet: int)
    requires forall i :: 0 <= i < 5 ==> ValidCard(h[i])
    ensures ParseLine(Unwords([ShowCards(h), ShowInt(bet)])) == Ok((h, bet))
  {
    ShowCardsIsWord(h);
    SplitUnwords([ShowCards(h), ShowInt(bet)]);
    ParseShowInt(bet);
    HandOfShow(h);
  }

  // ---------------------------------------------------------------------------
  // total_winnings

  /** `sort_by(cmp)` keeps hands that compare equal in their input order, so
      its outcome is the one of insertion sort: each item goes after every
      item that is not greater than it. */
  function Insert(s: seq<(Hand, int)>, x: (Hand, int)): (r: seq<(Hand, int)>)
    ensures |r| == |s| + 1
  {
    if s == [] then [x]
    else if HandCmp(s[|s| - 1].0, x.0) == Greater then Insert(s[..|s| - 1], x) + [s[|s| - 1]]
    else s + [x]
  }

  function SortByHand(s: seq<(Hand, int)>): (r: seq<(Hand, int)>)
    ensures |r| == |s|
  {
    if s == [] then [] else Insert(SortByHand(s[..|s| - 1]), s[|s| - 1])
  }

  predicate SortedByHand(s: seq<(Hand, int)>)
  {
    forall i, j :: 0 <= i < j < |s| ==> HandCmp(s[i].0, s[j].0) != Greater
  }

  lemma NotGreaterTrans(a: Hand, b: Hand, c: Hand)
    requires HandCmp(a, b) != Greater && HandCmp(b, c) != Greater
    ensures HandCmp(a, c) != Greater
  {
    HandCmpEqual(a, b);
    HandCmpEqual(b, c);
    if HandCmp(a, b) == Less && HandCmp(b, c) == Less {
      HandCmpTrans(a, b, c);
    }
  }

  lemma {:induction false} InsertPerm(s: seq<(Hand, int)>, x: (Hand, int))
    ensures multiset(Insert(s, x)) == multiset(s) + multiset{x}
    decreases |s|
  {
    if s != [] && HandCmp(s[|s| - 1].0, x.0) == Greater {
      InsertPerm(s[..|s| - 1], x);
      assert s == s[..|s| - 1] + [s[|s| - 1]];
    }
  }

  /** An item no smaller than everything sorted may go last. */
  lemma SortedSnoc(s: seq<(Hand, int)>, y: (Hand, int))
    requires SortedByHand(s)
    requires forall i :: 0 <= i < |s| ==> HandCmp(s[i].0, y.0) != Greater
    ensures SortedByHand(s + [y])
  {
  }

  lemma {:induction false} InsertSorted(s: seq<(Hand, int)>, x: (Hand, int))
    requires SortedByHand(s)
    ensures SortedByHand(Insert(s, x))
    decreases |s|
  {
    if s != [] {
      var n := |s| - 1;
      var init := s[..n];
      if HandCmp(s[n].0, x.0) == Greater {
        InsertSorted(init, x);
        InsertPerm(init, x);
        var r := Insert(init, x);
        HandCmpFlip(s[n].0, x.0);
        forall i | 0 <= i < |r|
          ensures HandCmp(r[i].0, s[n].0) != Greater
        {
          assert r[i] in multiset(r);
          if r[i] != x {
            assert r[i] in init;
          }
        }
        SortedSnoc(r, s[n]);
      } else {
        forall i | 0 <= i < n
          ensures HandCmp(s[i].0, x.0) != Greater
        {
          NotGreaterTrans(s[i].0, s[n].0, x.0);
        }
        SortedSnoc(s, x);
      }
    }
  }

  /** The sorted items are ordered by hand. */
  lemma {:induction false} SortByHandSorted(s: seq<(Hand, int)>)
    ensures SortedByHand(SortByHand(s))
  {
    if s != [] {
      SortByHandSorted(s[..|s| - 1]);
      InsertSorted(SortByHand(s[..|s| - 1]), s[|s| - 1]);
    }
  }

  /** The sorted items are the input items. */
  lemma {:induction false} SortByHandPerm(s: seq<(Hand, int)>)
    ensures multiset(SortByHand(s)) == multiset(s)
  {
    if s != [] {
      var init, x := s[..|s| - 1], s[|s| - 1];
      var sorted := SortByHand(init);
      assert SortByHand(s) == Insert(sorted, x);
      SortByHandPerm(init);
      InsertPerm(sorted, x);
      MultisetSnoc(s);
    }
  }

  lemma MultisetSnoc<T>(s: seq<T>)
    requires s != []
    ensures multiset(s) == multiset(s[..|s| - 1]) + multiset{s[|s| - 1]}
  {
    assert s == s[..|s| - 1] + [s[|s| - 1]];
  }

  /** The bets of the items holding hand `h`, in order. */
  function BetsWithHand(s: seq<(Hand, int)>, h: Hand): seq<int>
  {
    if s == [] then []
    else BetsWithHand(s[..|s| - 1], h) + (if s[|s| - 1].0 == h then [s[|s| - 1].1] else [])
  }

  lemma {:induction false} InsertStable(s: seq<(Hand, int)>, x: (Hand, int), h: Hand)
    ensures BetsWithHand(Insert(s, x), h) == BetsWithHand(s + [x], h)
    decreases |s|
  {
    if s != [] && HandCmp(s[|s| - 1].0, x.0) == Greater {
      var init, last := s[..|s| - 1], s[|s| - 1];
      InsertStable(init, x, h);
      HandCmpEqual(last.0, x.0);
      var r := Insert(init, x);
      assert (r + [last])[..|r|] == r;
      assert (init + [x])[..|init|] == init;
      assert (s + [x])[..|s|] == s;
    }
  }

  /** `sort_by` is stable: items holding equal hands keep their order. */
  lemma {:induction false} SortByHandStable(s: seq<(Hand, int)>, h: Hand)
    ensures BetsWithHand(SortByHand(s), h) == BetsWithHand(s, h)
  {
    if s != [] {
      var init, last := s[..|s| - 1], s[|s| - 1];
      SortByHandStable(init, h);
      InsertStable(SortByHand(init), last, h);
      var sorted := SortByHand(init);
      assert (sorted + [last])[..|sorted|] == sorted;
    }
  }

  /** `total_winnings` after the sort: the item at rank `i + 1` wins
      `(i + 1) * bet`. */
  function Winnings(s: seq<(Hand, int)>): int
  {
    if s == [] then 0 else Winnings(s[..|s| - 1]) + |s| * s[|s| - 1].1
  }

  /** One swap of the inner loop keeps the insertion it is heading for. */
  lemma SwapStep(cur: seq<(Hand, int)>, j: nat, x: (Hand, int))
    requires 0 < j < |cur| && cur[j] == x
    requires HandCmp(cur[j - 1].0, x.0) == Greater
    ensures var next := cur[j - 1 := x][j := cur[j - 1]];
      Insert(next[..j - 1], x) + next[j..] == Insert(cur[..j], x) + cur[j + 1..]
  {
    var next := cur[j - 1 := x][j := cur[j - 1]];
    assert next[..j - 1] == cur[..j][..j - 1];
    assert next[j..] == [cur[j - 1]] + cur[j + 1..];
  }

  /** Where the inner loop stops, the item is in place. */
  lemma SwapStop(cur: seq<(Hand, int)>, j: nat, x: (Hand, int))
    requires j < |cur| && cur[j] == x
    requires j == 0 || HandCmp(cur[j - 1].0, x.0) != Greater
    ensures Insert(cur[..j], x) + cur[j + 1..] == cur
  {
    assert cur == cur[..j] + [x] + cur[j + 1..];
  }

  /** The running total is the sum of rank times bet over the enumeration. */
  lemma {:induction false} WinningsIsSum(s: seq<(Hand, int)>)
    ensures Winnings(s) == Sum(seq(|s|, i requires 0 <= i < |s| => (i + 1) * s[i].1))
  {
    if s != [] {
      var n := |s| - 1;
      WinningsIsSum(s[..n]);
      var all := seq(|s|, i requires 0 <= i < |s| => (i + 1) * s[i].1);
      assert all[..n] == seq(n, i requires 0 <= i < n => (i + 1) * s[..n][i].1);
    }
  }

  /** The inner loop of an insertion sort: moves the item at `i` down past
      every greater one before it. */
  method InsertLast(a: array<(Hand, int)>, i: nat)
    requires i < a.Length
    modifies a
    ensures a[..i + 1] == Insert(old(a[..i]), old(a[i]))
    ensures a[i + 1..] == old(a[i + 1..])
  {
    ghost var sorted := a[..i];
    ghost var rest := a[i + 1..];
    var x := a[i];
    var j := i;
    assert a[..i + 1][..i] == sorted;
    while j > 0 && HandCmp(a[j - 1].0, a[j].0) == Greater
      invariant 0 <= j <= i
      invariant a[j] == x
      invariant Insert(a[..i + 1][..j], x) + a[..i + 1][j + 1..] == Insert(sorted, x)
      invariant a[i + 1..] == rest
    {
      ghost var cur := a[..i + 1];
      SwapStep(cur, j, x);
      a[j - 1], a[j] := a[j], a[j - 1];
      assert a[..i + 1] == cur[j - 1 := x][j := cur[j - 1]];
      j := j - 1;
    }
    SwapStop(a[..i + 1], j, x);
  }

  /** `total_winnings`: sorts the items in place by hand, then adds up each
      bet times its rank. */
  method TotalWinnings(handsAndBets: array<(Hand, int)>) returns (total: int)
    modifies handsAndBets
    ensures handsAndBets[..] == SortByHand(old(handsAndBets[..]))
    ensures total == Winnings(handsAndBets[..])
  {
    ghost var input := handsAndBets[..];
    var n := handsAndBets.Length;
    for i := 0 to n
      invariant handsAndBets[..i] == SortByHand(input[..i])
      invariant handsAndBets[i..] == input[i..]
    {
      InsertLast(handsAndBets, i);
      assert input[..i + 1][..i] == input[..i];
    }
    assert input[..n] == input;
    assert handsAndBets[..n] == handsAndBets[..];
    total := Winnings(handsAndBets[..]);
  }
}
