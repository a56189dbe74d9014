/** Scratchcard parsing (day04/src/main.rs).  A card line is
    "Card <id>: <winning numbers> | <own numbers>"; the id is the second
    whitespace-separated word before the ':', and the two number lists are
    the whitespace-separated integers on either side of the '|'. */
module Day04 {
  import opened Common
  import opened Text

  datatype Card = Card(id: int, winningNumbers: seq<int>, ownNumbers: seq<int>)

  /** `parse_card`; every `unwrap` that would panic gives `Err`. */
  function ParseCard(input: string): (r: Result<Card>)
    ensures ':' !in input ==> r.Err?
    ensures r.Ok? ==> |SplitWhitespace(Split(input, ':')[0])| >= 2
  {
    var atColon := Split(input, ':');
    var head := SplitWhitespace(atColon[0]);
    if |head| < 2 then Err("no card id")
    else match ParseInt(head[1])
      case None => Err("bad card id")
      case Some(id) =>
        if |atColon| < 2 then
          SplitJoin(input, ':');
          Err("no ':'")
        else
          var atPipe := Split(atColon[1], '|');
          match ParseInts(SplitWhitespace(atPipe[0]))
          case None => Err("bad winning number")
          case Some(winning) =>
            if |atPipe| < 2 then Err("no '|'")
            else match ParseInts(SplitWhitespace(atPipe[1]))
              case None => Err("bad own number")
              case Some(own) => Ok(Card(id, winning, own))
  }

  /** `parse_input`: one card per line. */
  function ParseInput(lines: seq<string>): (r: seq<Result<Card>>)
    ensures |r| == |lines| && forall i :: 0 <= i < |lines| ==> r[i] == ParseCard(lines[i])
  {
    seq(|lines|, i requires 0 <= i < |lines| => ParseCard(lines[i]))
  }

  /** The canonical text of a card, with single spaces between numbers. */
  function FormatCard(c: Card): string
  {
    CardHead(c.id) + ":" + CardLeft(c) + "|" + CardRight(c)
  }

  function CardHead(id: int): string { Unwords(["Card", ShowInt(id)]) }

  function CardLeft(c: Card): string { " " + Unwords(ShowInts(c.winningNumbers)) + " " }

  function CardRight(c: Card): string { " " + Unwords(ShowInts(c.ownNumbers)) }

  lemma CardColonSplit(c: Card)
    ensures Split(FormatCard(c), ':') == [CardHead(c.id), CardLeft(c) + "|" + CardRight(c)]
  {
    var after := CardLeft(c) + "|" + CardRight(c);
    assert ["Card", ShowInt(c.id)][1..] == [ShowInt(c.id)];
    assert Unwords([ShowInt(c.id)]) == ShowInt(c.id);
    assert CardHead(c.id) == "Card" + " " + ShowInt(c.id);
    assert ':' !in ShowInt(c.id);
    NotInUnwordsOfInts(c.winningNumbers, ':');
    NotInUnwordsOfInts(c.ownNumbers, ':');
    assert Join([CardHead(c.id), after], ':') == FormatCard(c);
    JoinSplit([CardHead(c.id), after], ':');
  }

  lemma CardPipeSplit(c: Card)
    ensures Split(CardLeft(c) + "|" + CardRight(c), '|') == [CardLeft(c), CardRight(c)]
  {
    NotInUnwordsOfInts(c.winningNumbers, '|');
    NotInUnwordsOfInts(c.ownNumbers, '|');
    assert Join([CardLeft(c), CardRight(c)], '|') == CardLeft(c) + "|" + CardRight(c);
    JoinSplit([CardLeft(c), CardRight(c)], '|');
  }

  lemma CardNumbers(c: Card)
    ensures ParseInts(SplitWhitespace(CardLeft(c))) == Some(c.winningNumbers)
    ensures ParseInts(SplitWhitespace(CardRight(c))) == Some(c.ownNumbers)
  {
    var w, o := Unwords(ShowInts(c.winningNumbers)), Unwords(ShowInts(c.ownNumbers));
    SplitWhitespaceSkip(" ", w + " ");
    assert CardLeft(c) == " " + (w + " ");
    SplitUnwordsPadded(ShowInts(c.winningNumbers), " ");
    SplitWhitespaceSkip(" ", o);
    SplitUnwords(ShowInts(c.ownNumbers));
    ParseShowInts(c.winningNumbers);
    ParseShowInts(c.ownNumbers);
  }

  /** Parsing the text of a card gives the card back. */
  lemma ParseFormatCard(c: Card)
    ensures ParseCard(FormatCard(c)) == Ok(c)
  {
    CardColonSplit(c);
    SplitUnwords(["Card", ShowInt(c.id)]);
    ParseShowInt(c.id);
    CardPipeSplit(c);
    CardNumbers(c);
  }
}
