# Advent of Code 2023 in Dafny

A Dafny model of the Rust solutions to Advent of Code 2023 in the
repository `praguevara/aoc2023`, days 1 to 19 and day 21, with proofs of
what each solution computes.

The centre of the model is the day 5 range engine (`day05/src/lib.rs`,
modelled in `day05_lib.dfy`):

- A rule (`MapRange`) shifts a source interval onto a destination interval.
- A stage (`Map`) is an ordered table of rules, where the first matching rule wins.
- `map_range` splits a half-open seed interval into fragments with a work-list loop.
- Three solvers look for the lowest location: brute force, a backward scan and interval propagation.

The model proves the following about the engine:

- The fragments of `map_range` are exactly the pointwise image of the input interval.
- The interval solver agrees with brute force over non-empty seed ranges.
- The backward scan agrees with brute force when every stage is a bijection whose inverse is `unmap`.

The older variant in `day05/src/main.rs` is modelled in `day05_main.dfy` and
related to the library version.

Each other day has one file (`dayNN.dfy`, module `DayNN`). Two modules are shared:

- `Common` holds `Option`, `Result` and small sums.
- `Text` holds the string helpers that mirror Rust's `lines`, `split`,
  `split_whitespace`, `trim` and integer parsing and printing, with their round
  trips. Whitespace is `char::is_whitespace`, the Unicode White_Space set.

How the Rust code is carried over:

- A `panic!`, `unwrap` or `expect` on a reachable input becomes an `Option` or
  `Result` error value.
- Rust's machine integers are unbounded `int`/`nat`, except day 15's
  `u8` hash, which is computed modulo 256.
- Loops that mutate state are `method`s with loop invariants, proved against pure
  specification functions. The memo caches of days 12 and 21 and the boxes of day 15
  are stateful; day 12's cache is a `class`, day 15's boxes an `array`.
- Searches the source runs without a bound take a `fuel` or `limit` parameter.
  They report running out explicitly, and nothing is claimed beyond that bound.

## Model

| member | source | states |
|---|---|---|
| Day01.Reverse | day01/src/main.rs:20 | character i of the reversed line is character n-1-i of the line |
| Day01.ReversedWordsAreReversed | day01/src/main.rs:19-34 | each word of the backward pattern is its digit word spelled backwards |
| Day01.FirstPrefixWord | day01/src/main.rs:5-15 | the index of the first digit word the text starts with, and no earlier word matches |
| Day01.FirstSuffixWord | day01/src/main.rs:22-32 | the index of the first digit word the text ends with, and no earlier word matches |
| Day01.MatchAt | day01/src/main.rs:3-16 | a match at a position is a decimal digit with its value or a digit word worth 1 to 9 |
| Day01.LeftmostMatch | day01/src/main.rs:4 | none exactly when nothing matches from the position on; otherwise the match at the leftmost matching position |
| Day01.PrefixOfReverse | day01/src/main.rs:20-21 | the reversed line starts with a reversed word exactly when the line ends with the word |
| Day01.ReverseSuffix | day01/src/main.rs:20 | a suffix of the reversed line is the reversal of a prefix of the line |
| Day01.FirstPrefixWordReversed | day01/src/main.rs:19-34 | searching reversed words on the reversed text finds the word the text ends with |
| Day01.MatchReversed | day01/src/main.rs:19-34 | a match at position q of the reversed line is the digit or word ending at position n-q of the line |
| Day01.LastDigitIsRightmost | day01/src/main.rs:19-34 | last_digit panics exactly when no digit or word ends anywhere, and otherwise finds the one that ends rightmost |
| Day01.MatchStartEnd | day01/src/main.rs:3-34 | a digit or word starting somewhere also ends somewhere |
| Day01.MatchEndStart | day01/src/main.rs:3-34 | a digit or word ending somewhere also starts somewhere |
| Day01.FirstIffLast | day01/src/main.rs:3-34 | a line has a first digit exactly when it has a last one |
| Day01.LineToValueSpec | day01/src/main.rs:36-40 | a line has a value exactly when it contains a digit or digit word; the value is 10 times the leftmost plus the rightmost |
| Day01.SumOptions | day01/src/main.rs:47-48 | the sum exists exactly when every value exists |
| Day01.SumOfValues | day01/src/main.rs:42-49 | the answer exists exactly when every line has a value |
| Day02.Assign | day02/src/main.rs:48-53 | a draw sets its colour exactly for red, green and blue |
| Day02.ParseSet | day02/src/main.rs:35-61 | the loop over the comma pieces gives exactly SetOf |
| Day02.ApplyDrawsStep | day02/src/main.rs:42-54 | one comma piece is parsed and assigned before the rest; a bad piece stops the loop |
| Day02.LastCountCons | day02/src/main.rs:42-54 | the last count read from the back agrees with reading the first piece and then the rest |
| Day02.ApplyDrawsLastWins | day02/src/main.rs:42-54 | the pieces fail exactly when one is malformed or names an unknown colour; otherwise each colour holds its last drawn count |
| Day02.SetOfLastWins | day02/src/main.rs:35-61 | parse_set fails exactly on a malformed draw; otherwise each colour is its last count, 0 when never drawn |
| Day02.SetsOf | day02/src/main.rs:30 | each ';' piece is parsed as a set, in order |
| Day02.ParseGame | day02/src/main.rs:20-33 | a line without ':' fails |
| Day02.ParseInput | day02/src/main.rs:14-18 | one parsed game per line, in order |
| Day02.TrimDraw | day02/src/main.rs:43 | trimming a rendered draw leaves `count colour` |
| Day02.SplitDraw | day02/src/main.rs:44-46 | `count colour` splits at the space into the count and the colour |
| Day02.ParseFormatDraw | day02/src/main.rs:43-46 | a rendered draw parses back to its count and colour |
| Day02.ApplyFormattedDraws | day02/src/main.rs:42-54 | the loop over rendered draws applies the draws in order |
| Day02.ParseFormatSet | day02/src/main.rs:35-61 | the text of a set parses to its draws applied in order |
| Day02.GameColonSplit | day02/src/main.rs:22-28 | a rendered game splits at ':' into its head and its sets |
| Day02.GameIdSplit | day02/src/main.rs:26 | the head `Game id` splits at the space into "Game" and the id |
| Day02.GameSetSplit | day02/src/main.rs:30 | the rendered sets split at ';' into one piece per set |
| Day02.GameParts | day02/src/main.rs:20-33 | a line of the form `Game id:rest` parses to that id and the sets of rest |
| Day02.SetsOfFormatted | day02/src/main.rs:30 | the rendered sets parse to the draws applied, set by set |
| Day02.ParseFormatGame | day02/src/main.rs:20-33 | a rendered game parses back to its id and its sets; it fails exactly when a set names an unknown colour |
| Day02.SampleGame | day02/src/main.rs:72-82 | the test line has id 1, five sets, and one cube of each colour in its first set |
| Day03.At | day03/src/main.rs:15-17 | none exactly when the row or the column is out of range; otherwise the character there |
| Day03.Kept | day03/src/main.rs:31-33 | every offset the bounds filter keeps lands inside the board |
| Day03.KeptMember | day03/src/main.rs:31-33 | the filter keeps exactly the offsets that land inside the board |
| Day03.Neighbours | day03/src/main.rs:19-36 | at most eight neighbours |
| Day03.OffsetIsAdjacent | day03/src/main.rs:20-29 | each of the eight offsets is a step to an adjacent cell |
| Day03.AdjacentIsOffset | day03/src/main.rs:20-29 | every step to an adjacent cell is one of the eight offsets |
| Day03.NeighbourIsAdjacentCell | day03/src/main.rs:19-36 | each neighbour is the character of an in-bounds cell adjacent to (x, y) |
| Day03.AdjacentCellIsNeighbour | day03/src/main.rs:19-36 | every in-bounds adjacent cell's character is among the neighbours |
| Day03.TouchesSymbolIff | day03/src/main.rs:48-51 | a cell touches a symbol exactly when an in-bounds adjacent cell holds a character that is neither a digit nor '.' |
| Day03.RowCells | day03/src/main.rs:45 | one scanned cell per character of the row |
| Day03.ScanAppend | day03/src/main.rs:44-61 | scanning one more cell applies one step to the state so far |
| Day03.ScanConcat | day03/src/main.rs:44-61 | scanning two stretches in turn is scanning them joined |
| Day03.ScanRow | day03/src/main.rs:45-60 | the inner loop over a row gives exactly the scan of the row's cells |
| Day03.FindPartNumbers | day03/src/main.rs:39-63 | the nested loops give exactly PartNumbers, one scan over the board in row-major order |
| Day03.RunText | day03/src/main.rs:46-47 | the characters of a run of cells, in order |
| Day03.ScanRun | day03/src/main.rs:46-51 | a run of digits accumulates its decimal value and whether any digit touches a symbol, and emits nothing |
| Day03.RunThenGap | day03/src/main.rs:46-59 | a non-digit after a run emits the run's value exactly when a digit of it touched a symbol, then resets |
| Day03.ScanAfterGap | day03/src/main.rs:52-59 | after a non-digit the state is reset, so later cells are scanned independently of earlier ones |
| Day03.RowEndJoinsNumbers | day03/src/main.rs:44-61 | as written, "1" ending one row and "2" starting the next are read as the single number 12 |
| Day03.LastNumberDropped | day03/src/main.rs:44-62 | as written, a number ending the last row is never emitted: the board "*1" gives no part number |
| Day03.RowEndingInNumber | day03/src/main.rs:44-61 | in the corrected scan, a row ending in a run of digits emits the run's value last exactly when one of its digits touches a symbol |
| Day03.FixedKeepsLastNumber | day03/src/main.rs:44-62 | the corrected scan emits the 1 that ends "*1" |
| Day03.FixedSplitsRows | day03/src/main.rs:44-61 | the corrected scan reads "1" and "2" on two rows as two numbers |
| Day04.ParseCard | day04/src/main.rs:12-47 | a line without ':' fails; a parsed card had at least two words before the ':' |
| Day04.ParseInput | day04/src/main.rs:8-10 | one parsed card per line, in order |
| Day04.CardColonSplit | day04/src/main.rs:13 | a rendered card splits at ':' into its head and its numbers |
| Day04.CardPipeSplit | day04/src/main.rs:24 | the numbers split at '|' into the winning and the own numbers |
| Day04.CardNumbers | day04/src/main.rs:27-40 | each side's whitespace-separated words parse back to its numbers |
| Day04.ParseFormatCard | day04/src/main.rs:12-47 | parsing the text of a card gives the card back |
| Day05Lib.PointsAppend | day05/src/lib.rs:205-208 | the points and total length of joined range lists add up |
| Day05Lib.SingletonPoints | day05/src/lib.rs:33-34 | one range covers its own points and has its own length |
| Day05Lib.Convert | day05/src/lib.rs:86-93 | converts exactly the values in the source range, to the value at the same offset in the destination range |
| Day05Lib.Unconvert | day05/src/lib.rs:95-101 | unconverts exactly the values in the destination range, to the value at the same offset in the source range |
| Day05Lib.ConvertRoundTrip | day05/src/lib.rs:90-101 | unconvert undoes convert on one rule, and conversely |
| Day05Lib.EmptyRuleIsInert | day05/src/lib.rs:86-101 | a rule of length zero or less never converts or unconverts |
| Day05Lib.FirstSource | day05/src/lib.rs:17-19 | the first rule whose source range holds the value, with none before it |
| Day05Lib.FirstDestination | day05/src/lib.rs:24-27 | the first rule whose destination range holds the value, with none before it |
| Day05Lib.FindConvertIsFirst | day05/src/lib.rs:17-19 | find_map over convert returns the first holding rule's conversion, or nothing |
| Day05Lib.FindUnconvertIsFirst | day05/src/lib.rs:24-27 | find_map over unconvert returns the first holding rule's unconversion, or nothing |
| Day05Lib.MapValue | day05/src/lib.rs:16-21 | the first rule holding the value shifts it; a value no rule holds passes through unchanged |
| Day05Lib.UnmapValue | day05/src/lib.rs:23-31 | the first rule whose destination holds the value shifts it back; otherwise unchanged |
| Day05Lib.MapValueByRule | day05/src/lib.rs:16-21 | when rule j is the first to hold the value, rule j decides |
| Day05Lib.UnmapThenMap | day05/src/lib.rs:16-31 | unmap followed by map returns the value when the same rule decides both ways |
| Day05Lib.NoOverlapNoMatch | day05/src/lib.rs:40-44 | a rule that does not overlap a range holds none of its points |
| Day05Lib.SpanSplit | day05/src/lib.rs:53-62 | a range is the part before the overlap, the overlap and the part after it |
| Day05Lib.AppendOne | day05/src/lib.rs:46-70 | pushing one range adds its points, its length and its remaining work |
| Day05Lib.SplitStep | day05/src/lib.rs:39-66 | with rule j the first to overlap, the overlap is shifted as a block, and the pushed remainders cover the rest, are non-empty and are shorter in total |
| Day05Lib.PassThrough | day05/src/lib.rs:69-71 | a popped range that no rule overlaps is its own image |
| Day05Lib.SplitInvInit | day05/src/lib.rs:34-35 | the work list starts with the whole range and nothing mapped |
| Day05Lib.OverlapStepKeepsInv | day05/src/lib.rs:37-66 | an overlapping step keeps the splitter's invariant and lowers the work left |
| Day05Lib.PassStepKeepsInv | day05/src/lib.rs:69-71 | a pass-through step keeps the invariant and does not raise the work left |
| Day05Lib.MapRangeSplit | day05/src/lib.rs:33-75 | the fragments are block-shifted images of pieces that partition the range; the total length is kept, and fragments of a non-empty range are non-empty |
| Day05Lib.WorkAppend | day05/src/lib.rs:37 | the work of a joined stack is the sum of the parts |
| Day05Lib.LocationsUnion | day05/src/lib.rs:168-176 | the locations of a union of seeds are the union of their locations |
| Day05Lib.LeastIsUnique | day05/src/lib.rs:174 | a set has one least element |
| Day05Lib.MinOption | day05/src/lib.rs:174 | the smaller of two optional values, none only when both are none |
| Day05Lib.LowestOverRange | day05/src/lib.rs:168-176 | the least location over one seed range; none exactly for an empty range |
| Day05Lib.LowestLocationBf | day05/src/lib.rs:168-176 | the least location any seed reaches; none exactly when there are no seeds, where min().unwrap() panics |
| Day05Lib.ShiftedImageSpan | day05/src/lib.rs:46-51 | a block-shifted fragment covers exactly the image of its piece |
| Day05Lib.FragmentsCoverImage | day05/src/lib.rs:33-75 | the fragments together cover the image of the pieces |
| Day05Lib.LocationsStep | day05/src/lib.rs:204 | mapping the locations after some stages through the next stage gives the locations after it |
| Day05Lib.MapRanges | day05/src/lib.rs:205-208 | flat_map of map_range over the ranges covers exactly the image of their points and keeps their total length |
| Day05Lib.MinStart | day05/src/lib.rs:210-213 | the least start of the ranges; none exactly for an empty list |
| Day05Lib.MinStartIsLeastPoint | day05/src/lib.rs:210-213 | over non-empty ranges the least start is the least point |
| Day05Lib.LowestLocationIntervals | day05/src/lib.rs:200-214 | panics exactly on an empty seed list; when no seed range is empty it equals the brute force |
| Day05Lib.SeedsContain | day05/src/lib.rs:190 | a value is contained exactly when some seed range holds it |
| Day05Lib.BackwardInvertsForward | day05/src/lib.rs:179-188 | when every stage is a bijection, the backward chain inverts the forward fold |
| Day05Lib.BackwardMembership | day05/src/lib.rs:179-195 | when every stage is a bijection, a location is reachable exactly when its backward chain lands in a seed range |
| Day05Lib.LowestLocationBackwards | day05/src/lib.rs:179-198 | the first location from 0 whose backward chain lands in a seed range; when stages are bijections it is the brute force's answer |
| Day05Lib.BackwardsAgreement | day05/src/lib.rs:179-198 | if no location below a bound passes the backward test, the least non-negative reachable location is not below it |
| Day05Lib.ConvertExamples | day05/src/lib.rs:238-249 | the test's convert values for the rule 50 98 2 |
| Day05Lib.MapExamples | day05/src/lib.rs:251-277 | the test's eight map values for seed-to-soil |
| Day05Lib.UnmapExamples | day05/src/lib.rs:286-312 | the test's eight unmap values for seed-to-soil |
| Day05Main.Convert | day05/src/main.rs:40-48 | converts exactly the source range, by the same offset into the destination range |
| Day05Main.Unconvert | day05/src/main.rs:50-56 | unconverts exactly the destination range, by the same offset into the source range |
| Day05Main.ToLibRanges | day05/src/main.rs:32-37 | each rule read with its usize length as a signed length |
| Day05Main.FindAgreesWithLib | day05/src/main.rs:14-29 | the first-match searches agree with the library's |
| Day05Main.MapValue | day05/src/main.rs:14-19 | map is the library's map |
| Day05Main.UnmapValue | day05/src/main.rs:21-29 | as written, unmap panics exactly when no destination range holds the value, and otherwise agrees with the library |
| Day05Main.Values | day05/src/main.rs:66-68 | iter yields start, start + 1, …, in order, length values |
| Day05Main.ContainsIffIterated | day05/src/main.rs:66-72 | contains agrees with iter |
| Day05Main.ToLibSeeds | day05/src/main.rs:59-68 | each seed range as a half-open interval |
| Day05Main.AllSeedValuesArePoints | day05/src/main.rs:141-146 | the flat_map over the seed ranges yields exactly the points of the intervals |
| Day05Main.ToLibMaps | day05/src/main.rs:7-11 | each stage as a library stage |
| Day05Main.ForwardAgreesWithLib | day05/src/main.rs:146 | the fold of map over the stages is the library's |
| Day05Main.MinOf | day05/src/main.rs:147-148 | the least element, none exactly for an empty sequence |
| Day05Main.BfAgreesWithLib | day05/src/main.rs:141-149 | the brute force computes the library's brute force |
| Day05Main.BackwardChainAgreesWithLib | day05/src/main.rs:156-160 | where the backward chain completes it lands where the library's chain does |
| Day05Main.RunBackward | day05/src/main.rs:156-160 | the inner loop unmaps through the stages from last to first; none where one panics |
| Day05Main.LowestLocationBackwards | day05/src/main.rs:151-170 | the first location from 0 whose chain panics or lands in a seed range; every earlier location passed |
| Day05Main.PairSeeds | day05/src/main.rs:101-113 | the words pair up as (start, length); fails exactly when a start or length word does not parse; a dangling start is dropped |
| Day05Main.PairSeedsCons | day05/src/main.rs:102-111 | a start word and a length word pair up in front of the rest |
| Day05Main.ParseSeedsLine | day05/src/main.rs:75-101 | the seeds are read from the text after the first ':' of the first line; a line without ':' fails, as `nth(1).unwrap()` panics |
| Day05Main.SeedsLineAfterHead | day05/src/main.rs:98-113 | after a head without ':', the seeds are the pairs of the words up to the next ':' |
| Day05Main.SeedNumbers | day05/src/main.rs:102-111 | the numbers of seed ranges as the line lists them: each start followed by its length |
| Day05Main.PairSeedsShown | day05/src/main.rs:101-113 | pairing the rendered numbers of some seed ranges gives them back |
| Day05Main.ParseFormatSeedsLine | day05/src/main.rs:93-113 | reading back a written seeds line gives the seed ranges |
| Day05Main.SeedsLineExample | day05/src/main.rs:183-199 | "seeds: 79 14 55 13" gives the seed ranges (79, 14) and (55, 13) |
| Day05Main.MapExamples | day05/src/main.rs:226-251 | map on the seed-to-soil table sends 79 to 81, 14 to 14, 98 to 50, and so on |
| Day05Main.UnmapPanicsOnTestValue | day05/src/main.rs:261-279 | as written, unmap(14) panics on the seed-to-soil table, while the library version returns 14 |
| Day06.RaceDistance | day06/src/main.rs:35-39 | holding for a time within the race covers a non-negative distance |
| Day06.DistanceSymmetric | day06/src/main.rs:35-39 | holding for h or for time - h covers the same distance |
| Day06.DistanceBound | day06/src/main.rs:35-39 | no holding time goes further than a quarter of the squared race time; half an even race time reaches it |
| Day06.DistanceExamples | day06/src/main.rs:84-94 | the test's eight distances for a 7 ms race |
| Day06.WaysFrom | day06/src/main.rs:42-50 | the winning holding times from a start up to the race time: all beat the record, in increasing order, and none is missed |
| Day06.WaysToBeatRecord | day06/src/main.rs:41-51 | exactly the holding times in 0..=time that beat the record, in increasing order |
| Day06.WaysSymmetric | day06/src/main.rs:41-51 | if holding h wins, so does holding time - h |
| Day06.WaysExample | day06/src/main.rs:97-101 | the race (7, 9) is won by holding 2, 3, 4 or 5 |
| Day06.Product | day06/src/main.rs:53-58 | the product of the numbers of ways over the races is never negative |
| Day06.ProductAppend | day06/src/main.rs:53-58 | the product over two lists of races is the product of their products |
| Day06.ProductZeroIff | day06/src/main.rs:53-58 | the product is zero exactly when some race cannot be won |
| Day06.ZipParse | day06/src/main.rs:18-32 | as many races as the shorter word list; each race's time and record are the parsed words at its position |
| Day06.ZipParseShown | day06/src/main.rs:32 | zipping rendered times and distances gives the races back |
| Day06.ParseInput | day06/src/main.rs:16-33 | fails when a line is missing; each race is the parsed pair of words at its position after the labels, and pairing stops only when one line runs out of words |
| Day06.ParseFormatInput | day06/src/main.rs:16-33 | parsing the two label lines of some races gives the races back |
| Day06.TwoCrLfLines | day06/src/main.rs:17 | two lines each ended by "\r\n" are split into those two lines |
| Day06.SampleRaces | day06/src/main.rs:70-81 | the sample parses to the races (7, 9), (15, 40) and (30, 200) |
| Day07.CompareInt | day07/src/main.rs:99 | Equal exactly on equal values and Less exactly when the first is smaller |
| Day07.CardCmpStrength | day07/src/main.rs:4-12 | on the cards that occur, the derived order is the order by strength: J, 2 to 9, T, Q, K, A |
| Day07.CardCmpEqual | day07/src/main.rs:4 | two cards compare Equal exactly when they are the same |
| Day07.CardCmpFlip | day07/src/main.rs:4 | swapping two cards flips their comparison |
| Day07.CardCmpTrans | day07/src/main.rs:4 | the card order is transitive |
| Day07.CardOf | day07/src/main.rs:17-27 | a card exactly for A, K, Q, J, T and the digits 2 to 9 |
| Day07.CardOfChar | day07/src/main.rs:17-27 | a card's letter parses back to the card |
| Day07.CharOfCard | day07/src/main.rs:17-27 | a parsed letter is the card's letter |
| Day07.Counts | day07/src/main.rs:52-60 | the counted kinds are exactly the non-joker cards of the hand |
| Day07.CountsSnoc | day07/src/main.rs:54-60 | one more card raises the joker count or that card's count by one |
| Day07.ComputeHandType | day07/src/main.rs:51-83 | the counting loop and the decision on the number of kinds give exactly HandType |
| Day07.KindOfMonotone | day07/src/main.rs:62-82 | more kinds, or a threshold that fails, never give a better type |
| Day07.CountsAfterJoker | day07/src/main.rs:54-60 | replacing a joker by another card moves one count from the jokers to that card |
| Day07.ReachesAfterJoker | day07/src/main.rs:66-73 | a threshold reached after replacing a joker was already reached with it |
| Day07.JokerNeverWorse | day07/src/main.rs:51-83 | a joker is worth at least as much as any card it could be replaced by |
| Day07.TypeFromCounts | day07/src/main.rs:62-82 | the type follows from the counts and the jokers alone |
| Day07.OnePairExample | day07/src/main.rs:136 | 32T3K is one pair |
| Day07.TwoPairExample | day07/src/main.rs:137 | KK677 is two pair |
| Day07.JokerFoursExample | day07/src/main.rs:138-141 | T55J5 is four of a kind |
| Day07.JokerPairsExample | day07/src/main.rs:142-145 | KTJJT is four of a kind |
| Day07.JokerThreesExample | day07/src/main.rs:146-149 | QQQJA is four of a kind |
| Day07.JokerKingsExample | day07/src/main.rs:134 | JKKK2 is four of a kind |
| Day07.JokerQueensExample | day07/src/main.rs:134 | QJJQ2 is four of a kind |
| Day07.LexEqual | day07/src/main.rs:100-106 | the card-by-card comparison is Equal exactly on equal cards |
| Day07.LexFlip | day07/src/main.rs:100-106 | swapping the hands flips the card-by-card comparison |
| Day07.LexTrans | day07/src/main.rs:100-106 | the card-by-card comparison is transitive |
| Day07.HandCmpEqual | day07/src/main.rs:86-110 | cmp says Equal exactly when eq holds, and both mean the five cards are the same |
| Day07.HandCmpFlip | day07/src/main.rs:97-110 | swapping two hands flips their comparison |
| Day07.HandCmpTrans | day07/src/main.rs:97-110 | the hand order is transitive |
| Day07.JokerHandsOrder | day07/src/main.rs:134 | JKKK2 is weaker than QJJQ2 |
| Day07.CardsOf | day07/src/main.rs:122-125 | the recognised cards of a string, never more than its characters |
| Day07.CardsOfAppend | day07/src/main.rs:122-125 | the cards of joined strings are the joined cards |
| Day07.HandOf | day07/src/main.rs:121-129 | a hand exactly when five cards are recognised, and then those cards |
| Day07.HandOfIgnores | day07/src/main.rs:124 | an unrecognised character changes nothing |
| Day07.ShowCards | day07/src/main.rs:17-27 | the letter of each card, in order |
| Day07.CardsOfShow | day07/src/main.rs:122-125 | the letters of some cards are read back as those cards |
| Day07.HandOfShow | day07/src/main.rs:121-129 | the letters of a hand parse back to the hand |
| Day07.ParseLine | day07/src/main.rs:160-165 | a line with fewer than two words fails |
| Day07.ParseInput | day07/src/main.rs:157-167 | succeeds exactly when every line parses; then one (hand, bet) per line, in order |
| Day07.ParseFormatLine | day07/src/main.rs:157-167 | reading back a written line gives the hand and the bet |
| Day07.Insert | day07/src/main.rs:170 | inserting an item adds one item |
| Day07.SortByHand | day07/src/main.rs:170 | the sorted items are as many as the input items |
| Day07.NotGreaterTrans | day07/src/main.rs:97-110 | "not greater" is transitive |
| Day07.InsertPerm | day07/src/main.rs:170 | insertion adds the item and keeps the rest |
| Day07.SortedSnoc | day07/src/main.rs:170 | an item no smaller than every sorted item may go last |
| Day07.InsertSorted | day07/src/main.rs:170 | insertion keeps a list sorted by hand |
| Day07.SortByHandSorted | day07/src/main.rs:170 | the sorted items are ordered by hand |
| Day07.SortByHandPerm | day07/src/main.rs:170 | the sorted items are a permutation of the input items |
| Day07.InsertStable | day07/src/main.rs:170 | insertion keeps the order of items with equal hands |
| Day07.SortByHandStable | day07/src/main.rs:170 | the sort is stable: items with equal hands keep their order |
| Day07.SwapStep | day07/src/main.rs:170 | one swap of the inner loop keeps the insertion it is heading for |
| Day07.SwapStop | day07/src/main.rs:170 | where the inner loop stops, the item is in place |
| Day07.WinningsIsSum | day07/src/main.rs:172-177 | the winnings are the sum of rank times bet over the sorted items |
| Day07.InsertLast | day07/src/main.rs:170 | the inner loop moves the item at i into its place among the first i items, and leaves the rest as it was |
| Day07.TotalWinnings | day07/src/main.rs:169-178 | sorts the array in place into SortByHand order and returns the sum of each bet times its rank |
| Day08.DirectionOf | day08/src/main.rs:34-38 | a direction exactly for 'L' and 'R'; anything else panics |
| Day08.ParseDirections | day08/src/main.rs:30-40 | the instruction line parses exactly when every character is 'L' or 'R', one direction per character |
| Day08.ParseShowDirections | day08/src/main.rs:30-40 | the letters of some directions parse back to them |
| Day08.StepsToReachZzz | day08/src/main.rs:63-82 | a count is the first step from 1 on at which the walk from AAA stands on ZZZ (0 without instructions); a missing node is a panic at a real step, with ZZZ not reached at any step before it; running out of fuel means ZZZ was not reached |
| Day08.WalkStaysMissing | day08/src/main.rs:70-73 | once a name is missing the walk stays stopped |
| Day08.LoopingExample | day08/src/main.rs:114-125 | LLR over AAA, BBB and ZZZ first reaches ZZZ after six steps |
| Day08.TwoStepExample | day08/src/main.rs:114-119 | RL with AAA = (BBB, CCC) and CCC = (ZZZ, GGG) reaches ZZZ in two steps |
| Day09.Differences | day09/src/main.rs:1-3 | one fewer item than the sequence, none for the empty one |
| Day09.Levels | day09/src/main.rs:9-20 | the table starts with the sequence |
| Day09.LevelsUnfold | day09/src/main.rs:13-18 | a level that is not all zeros is followed by the table of its differences |
| Day09.LevelsShape | day09/src/main.rs:9-20 | each level is the differences of the one above; only the deepest level is all zeros; level i is i items shorter |
| Day09.ReduceToZeros | day09/src/main.rs:9-20 | the while loop builds exactly the table of levels |
| Day09.ReduceExample | day09/src/main.rs:63-68 | [0, 3, 6, 9, 12, 15] reduces to three levels ending in [0, 0, 0, 0] |
| Day09.EmptyLevelPanics | day09/src/main.rs:22-36 | an empty level in the table makes both extrapolations panic |
| Day09.LevelsFold | day09/src/main.rs:22-36 | the loops over the table compute Next and Prev |
| Day09.ExtrapolateSequence | day09/src/main.rs:22-28 | the loop over the levels, deepest first, gives the next value |
| Day09.ExtrapolateSequenceBackwards | day09/src/main.rs:30-36 | the loop over the levels, deepest first, gives the previous value |
| Day09.PanicsIffLastLevelEmpty | day09/src/main.rs:22-36 | extrapolation panics exactly when the table ends in an empty level |
| Day09.DifferencesSnoc | day09/src/main.rs:1-3 | one more item adds one more difference |
| Day09.NextKeepsDepth | day09/src/main.rs:22-28 | appending the next value keeps the table as deep as it was, with the deepest level still all zeros |
| Day09.DifferencesReverse | day09/src/main.rs:1-3 | the differences of the reversed sequence are the reversed differences, negated |
| Day09.DifferencesNegate | day09/src/main.rs:1-3 | negating the sequence negates its differences |
| Day09.AllZerosReverse | day09/src/main.rs:5-7 | reversing keeps all-zeros |
| Day09.AllZerosNegate | day09/src/main.rs:5-7 | negating keeps all-zeros |
| Day09.NextStep | day09/src/main.rs:22-28 | the next value is the last item plus the next value of the differences |
| Day09.PrevStep | day09/src/main.rs:30-36 | the previous value is the first item minus the previous value of the differences |
| Day09.NextNegate | day09/src/main.rs:22-28 | negating the sequence negates the next value |
| Day09.PrevIsNextOfReverse | day09/src/main.rs:22-36 | extrapolating backwards is extrapolating the reversed sequence forwards |
| Day09.ExtrapolateExample | day09/src/main.rs:70-74 | [0, 3, 6, 9, 12, 15] extrapolates to 18 |
| Day09.ExtrapolateBackwardsExample | day09/src/main.rs:76-80 | [10, 13, 16, 21, 30, 45] extrapolates backwards to 5 |
| Day10.TileOf | day10/src/main.rs:30-46 | a tile exactly for the characters of "\|-LJ7F.S", an error otherwise |
| Day10.TileOfChar | day10/src/main.rs:15-46 | the character written for a tile parses back to the tile |
| Day10.CharOfTile | day10/src/main.rs:15-46 | every accepted character is the one written for its tile |
| Day10.GetTile | day10/src/main.rs:64-72 | a tile exactly for an in-grid coordinate, negative ones included as misses, and then the tile there |
| Day10.ParseRow | day10/src/main.rs:93-97 | a row parses exactly when it is no wider than the first line and every character is a tile; the row is padded with ground to the width |
| Day10.ParseInput | day10/src/main.rs:86-104 | succeeds exactly when there is a line and every row parses; one row per line, each of the first line's width |
| Day10.ParseInputTile | day10/src/main.rs:86-104 | a cell holds its character's tile, or ground past the end of a short line |
| Day10.ShowMap | day10/src/main.rs:15-28 | a written map has one line per row |
| Day10.ParseShowRow | day10/src/main.rs:93-97 | parsing a written row gives it back |
| Day10.ParseShowMap | day10/src/main.rs:86-104 | parsing a written map with at least one row gives it back |
| Day10.FirstStartUnique | day10/src/main.rs:74-83 | there is at most one first start tile |
| Day10.FindStart | day10/src/main.rs:74-83 | the first start tile in row-major order, none exactly when there is no start tile |
| Day10.Step | day10/src/main.rs:106-186 | a step in a direction moves one cell |
| Day10.StepBack | day10/src/main.rs:106-186 | a step and a step back return to the cell |
| Day10.Openings | day10/src/main.rs:106-186 | a pipe has at most two openings |
| Day10.Candidates | day10/src/main.rs:106-186 | at most four directions are looked in |
| Day10.Kept | day10/src/main.rs:106-186 | no more edges than directions looked in |
| Day10.KeptMember | day10/src/main.rs:106-186 | a neighbour is kept exactly when it lies in a direction looked in and is admitted |
| Day10.KeptAdjacent | day10/src/main.rs:106-186 | every kept neighbour is in the grid, one step away |
| Day10.EdgesShape | day10/src/main.rs:106-190 | edges are in the grid and one step away; at most four, at most two for a pipe, none for ground |
| Day10.PipeEdges | day10/src/main.rs:106-190 | a pipe's edges are exactly its in-grid openings, whatever tile lies there |
| Day10.StartEdges | day10/src/main.rs:106-190 | the start's edges are exactly its in-grid neighbours whose pipe opens back towards it |
| Day10.StartEdgesMutual | day10/src/main.rs:106-190 | each edge of the start is a cell that lists the start among its own edges |
| Day10.ComputeEdges | day10/src/main.rs:106-190 | the pushes give exactly Edges |
| Day10.ComputeAdjacencyMatrix | day10/src/main.rs:192-202 | every entry of the matrix is its cell's edge list |
| Day10.ComputeEdgeRow | day10/src/main.rs:196-199 | the inner loop fills one row with its cells' edge lists |
| Day10.AdjacencyValid | day10/src/main.rs:192-202 | the matrix has the map's shape and names only grid cells |
| Day10.WalkBound | day10/src/main.rs:209-216 | along a walk through expanded cells the recorded distance grows by at most one per step |
| Day10.PopOk | day10/src/main.rs:209 | taking the head of the queue keeps the search invariant at the head's level |
| Day10.PushOk | day10/src/main.rs:211-213 | recording a new cell one beyond the current one keeps the search invariant |
| Day10.Shrinks | day10/src/main.rs:209-216 | recording more grid cells leaves fewer unrecorded ones |
| Day10.SearchBegins | day10/src/main.rs:205-208 | the search starts with the start at distance 0, queued |
| Day10.DiscoverStep | day10/src/main.rs:211-213 | an unvisited edge is recorded at distance + 1 and queued |
| Day10.SeenStep | day10/src/main.rs:211 | a visited edge changes nothing |
| Day10.ExpandDone | day10/src/main.rs:210-215 | after the last edge the cell is expanded |
| Day10.ExpandCell | day10/src/main.rs:210-215 | the inner loop records every unvisited edge at distance + 1 and queues it, keeping the search invariant |
| Day10.InCells | day10/src/main.rs:192-202 | an in-grid coordinate is a cell of the grid |
| Day10.ExpandedAll | day10/src/main.rs:209-216 | with the current cell expanded, every recorded cell off the queue is |
| Day10.SearchDone | day10/src/main.rs:209-216 | once the queue is empty the recorded distances are the shortest walk lengths from the start, for exactly the reachable cells |
| Day10.Search | day10/src/main.rs:206-216 | the breadth-first loop records the shortest distance to every reachable cell and nothing else |
| Day10.LongestDistance | day10/src/main.rs:204-219 | none exactly when there is no start; otherwise the largest shortest-walk distance from the first start |
| Day10.MaxValue | day10/src/main.rs:218 | the largest value of a non-empty map |
| Day10.NextNode | day10/src/main.rs:232-235 | the first edge other than the previous node; none exactly when every edge goes back |
| Day10.TraceDeterministic | day10/src/main.rs:226-236 | of two traces from the same start the shorter is a prefix of the longer |
| Day10.TraceSnoc | day10/src/main.rs:228-236 | a trace grows by the successor of its last node unless that is the start |
| Day10.TraceMainLoop | day10/src/main.rs:226-236 | the first loop traces from the start; it closes back at the start, or gets stuck where the source panics, or runs out of fuel |
| Day10.CyclicIndices | day10/src/main.rs:241-244 | the neighbours before and after a loop node are the source's modular indices |
| Day10.ModBelow | day10/src/main.rs:242-244 | a value below the modulus is its own remainder |
| Day10.ModShift | day10/src/main.rs:242 | adding the modulus does not change the remainder |
| Day10.LoopDirections | day10/src/main.rs:238-249 | each loop node is mapped to the row of the next node minus the row of the previous one, a later duplicate overwriting |
| Day10.ClosedLoopSteps | day10/src/main.rs:226-236 | every node of a closed loop is one step from the node after it, the last from the first included |
| Day10.AdjacentEdge | day10/src/main.rs:192-202 | an edge of the matrix joins cells one step apart |
| Day10.DirectionsBounded | day10/src/main.rs:238-249 | on a closed loop every direction lies between -2 and 2 |
| Day10.MainLoopFrom | day10/src/main.rs:226-251 | the closed loop traced from the start and its directions; none where the trace panics or runs out of fuel |
| Day10.ComputeMainLoop | day10/src/main.rs:223-252 | the loop from the first start tile and its directions, none where the source panics |
| Day10.ContainedInRow | day10/src/main.rs:258-265 | exactly the row's cells off the loop with a non-zero running crossing count, from left to right |
| Day10.ContainedTiles | day10/src/main.rs:254-269 | exactly the enclosed cells, each once, in row-major order |
| Day10.ParseWrittenRow | day10/src/main.rs:93-97 | a row of characters written for some tiles parses to them |
| Day10.ParseRows | day10/src/main.rs:86-104 | lines that each parse to a row parse to the map of those rows |
| Day10.SquareParses | day10/src/main.rs:288-292 | the test's five lines parse to the square loop map |
| Day10.InnerPipeEdges | day10/src/main.rs:106-190 | a pipe whose openings both lead into the grid has exactly those two edges, in order |
| Day10.SquareEdges | day10/src/main.rs:288-309 | the corner (0, 0) has no edges; (1, 1) links to (2, 1) and (1, 2); (1, 3) to (2, 3) and (1, 2) |
| Day10.AdjacencyEntry | day10/src/main.rs:192-202 | an entry of the matrix is that cell's edge list |
| Day10.SquareTrace | day10/src/main.rs:320-332 | the trace of the square runs round its eight pipes and closes |
| Day10.DistinctDirections | day10/src/main.rs:238-249 | a loop without repeated nodes has one direction entry per node |
| Day10.SquareLoopDistinct | day10/src/main.rs:320-332 | the square loop visits no cell twice |
| Day10.SquareLoopSize | day10/src/main.rs:320-332 | the square loop's map has eight entries |
| Day11.Distance | day11/src/main.rs:11-17 | zero exactly between equal cells; at least each axis difference |
| Day11.DistanceSymmetric | day11/src/main.rs:11-17 | the distance is the same both ways |
| Day11.DistanceTriangle | day11/src/main.rs:11-17 | the distance obeys the triangle inequality |
| Day11.DistanceExamples | day11/src/main.rs:110-135 | the test's distances 15, 17 and 5, in both directions |
| Day11.CollectGalaxies | day11/src/main.rs:21-28 | the scan pushes exactly the galaxies of the image, in order |
| Day11.LineGalaxiesSpec | day11/src/main.rs:23-27 | a line's galaxies are exactly its '#' cells, in increasing column order |
| Day11.GalaxiesSpec | day11/src/main.rs:21-28 | the scan finds exactly the '#' cells of the image, each once, in row-major order |
| Day11.SortedKeysSpec | day11/src/main.rs:34-38 | the map's keys are exactly the occupied lines, increasing; there are none exactly when there are no galaxies |
| Day11.ExpandSpec | day11/src/main.rs:40-51 | an expansion phase fails exactly when there are no galaxies, or the rate is 0 and a second line is occupied |
| Day11.PushShifted | day11/src/main.rs:48-50 | the inner loop appends the group, each galaxy moved by the running shift |
| Day11.ExpandAxis | day11/src/main.rs:31-51 | the phase's loops compute the expansion phase, failure cases included |
| Day11.ShiftGrowth | day11/src/main.rs:46-47 | the rows added before an occupied row bring the running shift to `rate - 1` times the empty rows above it since the first occupied one |
| Day11.EmptyBetweenKeys | day11/src/main.rs:45-46 | every line strictly between two neighbouring keys is empty |
| Day11.GapCountsEmpty | day11/src/main.rs:45-47 | the running shift at a key counts the empty lines between the first key and it |
| Day11.MovedSpacing | day11/src/main.rs:45-50 | two moved galaxies lie as far apart as before plus the extra lines for every empty line between them |
| Day11.GroupsPermute | day11/src/main.rs:34-38 | grouping the galaxies by line loses and duplicates none |
| Day11.ExpansionMovesGalaxies | day11/src/main.rs:40-51 | a phase moves every galaxy once, by the extra lines for each empty line before it, and pushes nothing else |
| Day11.RateOneKeeps | day11/src/main.rs:46 | at rate 1 a phase succeeds and only reorders the galaxies |
| Day11.ParseInput | day11/src/main.rs:20-81 | `parse_input` is the scan followed by the row phase and the column phase |
| Day11.ParseKeepsCount | day11/src/main.rs:20-81 | with a positive rate parsing fails only on an image without galaxies, and keeps one galaxy per '#' |
| Day11.ParseRateOne | day11/src/main.rs:20-81 | at rate 1 parsing yields the image's galaxies, reordered |
| Day11.PairSumTwice | day11/src/main.rs:85-94 | summing over ordered pairs counts each unordered pair twice, so the halving is exact |
| Day11.TotalDistance | day11/src/main.rs:83-95 | the sum of the distances over unordered pairs of galaxies |
| Day11.Solve | day11/src/main.rs:97-107 | both parts: fails exactly where parsing does, else the sum of pairwise distances of the expanded galaxies |
| Day12.SpringOf | day12/src/main.rs:14-21 | Ok exactly for '#', '.' and '?' |
| Day12.SpringRoundTrip | day12/src/main.rs:14-21 | each spring's character reads back as that spring |
| Day12.ParseSprings | day12/src/main.rs:35-40 | Ok iff every character is a spring; then the springs in order |
| Day12.CountOf | day12/src/main.rs:46 | Ok iff the piece parses as a number |
| Day12.ParseCounts | day12/src/main.rs:42-47 | Ok iff every comma piece parses; then the numbers in order |
| Day12.ParseRow | day12/src/main.rs:33-53 | Ok iff two words whose springs and counts parse |
| Day12.ParseInput | day12/src/main.rs:56-61 | Ok iff every line parses |
| Day12.ParseFormatRow | day12/src/main.rs:33-53 | a row with springs and counts reads back from its text (round trip) |
| Day12.Memo.constructor | day12/src/main.rs:137 | a fresh cache is empty and consistent |
| Day12.Memo.ExploreRow | day12/src/main.rs:65-133 | the count `explore_row` returns, whether looked up or computed; the cache stays consistent (every entry is the count for its key) and only gains keys |
| Day12.PossibleArrangements | day12/src/main.rs:135-142 | the number of arrangements of the row |
| Day12.CompletionsSpec | day12/src/main.rs:105-120 | the readings of a row are exactly the unknown-free sequences that agree with it wherever it is known |
| Day12.CompletionsDistinct | day12/src/main.rs:105-120 | no reading is listed twice, so counting entries counts readings |
| Day12.ExploreCounts | day12/src/main.rs:71-121 | the recursion counts exactly the readings whose runs of working springs, the first continuing the open run, are the remaining counts |
| Day12.ExploreIsArrangements | day12/src/main.rs:135-142 | the count for a whole row is its number of arrangements |
| Day12.SumArrangements | day12/src/main.rs:147 | the sum of the rows' arrangement counts |
| Day12.UnfoldShape | day12/src/main.rs:152-168 | the unfolded row is five copies of the springs joined by single unknown springs and five copies of the counts |
| Day12.Solve | day12/src/main.rs:144-173 | succeeds exactly when every line parses; part 1 sums the rows' arrangements, part 2 those of the unfolded rows |
| Day12.FirstTestRow | day12/src/main.rs:179-184 | "#.#.### 1,1,3" has exactly one arrangement (the test expects 0) |
| Day12.SecondTestRow | day12/src/main.rs:186-191 | "???.### 1,1,3" has one arrangement |
| Day12.ThirdTestRow | day12/src/main.rs:193-198 | ".??..??...?##. 1,1,3" has four arrangements |
| Day13.ParsePattern | day13/src/main.rs:12-19 | a pattern parses exactly when the text starts with a line of `.`/`#` cells and a line ending; every parsed row is non-empty and input is consumed |
| Day13.PatternLines | day13/src/main.rs:13-16 | repeated `cells + line ending` lines: every row non-empty, rest is a suffix |
| Day13.ParseInput | day13/src/main.rs:28-32 | patterns separated by line endings: succeeds exactly when a first pattern parses, yielding a non-empty list of non-empty rows |
| Day13.PatternLinesOfText | day13/src/main.rs:12-19 | printed rows followed by a non-cell parse back to the same rows and leave the rest untouched (either line ending) |
| Day13.ParsePatternOfText | day13/src/main.rs:12-19 | a printed pattern parses back to itself |
| Day13.MorePatternsOfText | day13/src/main.rs:28-32 | `separated_list1` tail: newline-separated printed patterns parse back completely |
| Day13.ParseInputText | day13/src/main.rs:28-32 | round trip: parse_input of printed patterns gives back the same patterns and consumes everything |
| Day13.ParsePatternExample | day13/src/main.rs:21-26 | the test input `#..#..##.#.` twice with CRLF endings parses to two equal rows, leaving the separating CRLF |
| Day13.Reach | day13/src/main.rs:47-48 | the number of compared pairs reaches the nearer edge |
| Day13.MirrorsAsReverse | day13/src/main.rs:43-63 | mirroring after r is the same as: reversed left block equals right block |
| Day13.HasVerticalReflection | day13/src/main.rs:43-63 | true exactly when every pair within reach of the mirror agrees |
| Day13.VerticalLineExample | day13/src/main.rs:65-73 | `##..##` mirrors after 0, 2, 4 and not after 1, 3 |
| Day13.FirstVertical | day13/src/main.rs:75-77 | the result is a column where every line mirrors and no earlier column is one |
| Day13.FindVerticalReflection | day13/src/main.rs:75-77 | returns the first column after which every row mirrors |
| Day13.FindVerticalExample | day13/src/main.rs:79-102 | the test pattern's first vertical mirror is after column 4 |
| Day13.HasHorizontalReflection | day13/src/main.rs:104-118 | true exactly when every row pair within reach is equal |
| Day13.HorizontalExample | day13/src/main.rs:120-146 | the test pattern mirrors after row 3 and after no other row |
| Day13.FirstHorizontal | day13/src/main.rs:148-150 | the first row after which the pattern mirrors, minimal |
| Day13.FindHorizontalReflection | day13/src/main.rs:148-150 | returns the first horizontal mirror (test at 152-173 gives 3) |
| Day13.VerticalIsTransposedHorizontal | day13/src/main.rs:75-77 | a vertical mirror is a horizontal mirror of the transposed pattern |
| Day13.FirstVerticalIsTransposed | day13/src/main.rs:75-77 | the vertical search equals the horizontal search on the transpose |
| Day13.Part1 | day13/src/main.rs:182-191 | sums columns-left plus 100 times rows-above over all patterns |
| Day13.SummaryOfVertical | day13/src/main.rs:184-190 | a pattern with only a vertical mirror after column c scores c + 1 |
| Day14.RollTilted | day14/src/main.rs:26-77 | the rolled line keeps every fixed cell, keeps the rock count up to each fixed cell, and has no '.' directly before an 'O' |
| Day14.TiltedIsRoll | day14/src/main.rs:26-77 | those three conditions determine the tilted line: any line meeting them is the rolled line |
| Day14.RollIdempotent | day14/src/main.rs:28-39 | rolling a rolled line changes nothing |
| Day14.RollPermutes | day14/src/main.rs:26-77 | rolling only rearranges the line's cells (same multiset) |
| Day14.SwapKeeps | day14/src/main.rs:32-35 | a swap of '.' then 'O' keeps fixed cells and per-segment rock counts, and finishes the place the rock moves to |
| Day14.FrontSettled | day14/src/main.rs:30-37 | once every place is finished by the passes, no '.' sits before an 'O' |
| Day14.SetPlace | day14/src/main.rs:33-34 | writing one cell changes exactly that place of its line and no other line |
| Day14.MoveRock | day14/src/main.rs:32-35 | the swap: new line is the old one with 'O' moved one place forward; other lines unchanged |
| Day14.Step | day14/src/main.rs:31-36 | loop body keeps the pass invariant and finishes place k-1 |
| Day14.Pass | day14/src/main.rs:30-37 | one bubble pass finishes place j, touching no other line |
| Day14.TiltLine | day14/src/main.rs:29-38 | the passes over one column/row leave it equal to Roll of the old line, other lines unchanged |
| Day14.TiltGrid | day14/src/main.rs:26-77 | in-place tilt: the array afterwards equals Tilt of its old contents |
| Day14.TiltLines | day14/src/main.rs:26-77 | each line of Tilt(G, d) is the rolled line of G |
| Day14.TiltIdempotent | day14/src/main.rs:28-39 | a second tilt the same way changes nothing |
| Day14.TiltRearranges | day14/src/main.rs:26-77 | each line keeps its multiset of cells, fixed cells and per-segment rock counts |
| Day14.TiltKeepsFixed | day14/src/main.rs:32-35 | no cell other than '.'/'O' changes, and none becomes one |
| Day14.NorthSettled | day14/src/main.rs:28-39 | after tilting North no '.' is directly above an 'O' |
| Day14.TiltCycle | day14/src/main.rs:79-84 | the array afterwards is North, West, South, East tilts of its old contents |
| Day14.RowRocks | day14/src/main.rs:113 | counts the 'O' cells of a row |
| Day14.TotalLoad | day14/src/main.rs:110-116 | bottom-up sum with weight j+1 equals the top-down load (row r of h weighs h - r) |
| Day14.ParseGrid | day14/src/main.rs:5-16 | Some exactly when there is a line and chars fill lines × first-width; the grid is then rectangular |
| Day14.ParseGridText | day14/src/main.rs:5-16 | round trip: a printed rectangular grid parses back to itself |
| Day14.NewGrid | day14/src/main.rs:11-15 | a fresh array holding the grid |
| Day14.Part1 | day14/src/main.rs:127-132 | the load after one North tilt of the parsed grid |
| Day14.Part2 | day14/src/main.rs:134-141 | the load after 1000 spin cycles |
| Day15.HashBytes | day15/src/main.rs:5-14 | the loop's result is Hash of the bytes (add then multiply by 17, each mod 256, from 0) |
| Day15.HashFromAppend | day15/src/main.rs:8-11 | HASH of a concatenation continues from the HASH of its front |
| Day15.HashExample | day15/src/main.rs:5-14 | "HASH" hashes to 52 |
| Day15.ParseUsize | day15/src/main.rs:31 | Some exactly when, after an optional '+', there is at least one digit and nothing else |
| Day15.OpIndex | day15/src/main.rs:20-24 | the first '-' or '=', no operator before it, or the length when there is none |
| Day15.ParseOp | day15/src/main.rs:20-31 | the label is the bytes before the first operator; None without an operator |
| Day15.Find | day15/src/main.rs:32-33 | the first slot holding the label, or None when no slot does |
| Day15.FindAt | day15/src/main.rs:32-33 | the first slot holding a label is the one Find returns |
| Day15.PutSemantics | day15/src/main.rs:30-39 | '=' keeps labels distinct, binds the focal length, keeps the slot of an existing label or appends, and changes no other label |
| Day15.TakeSemantics | day15/src/main.rs:40-45 | '-' keeps labels distinct, unbinds the label, removes it keeping the others' order, and changes no other label |
| Day15.ArrangeFrom | day15/src/main.rs:19-48 | Some exactly when every step parses; 256 boxes result |
| Day15.StepWellPlaced | day15/src/main.rs:26-45 | a step keeps every box free of duplicate labels and holding only labels that hash to it |
| Day15.StepLookup | day15/src/main.rs:26-45 | the boxes act as a map: '=' binds the label, '-' unbinds it, every other label keeps its focal length |
| Day15.ArrangeIsWellPlaced | day15/src/main.rs:16-51 | after all steps no box holds a label twice and every lens is in the box of its hash |
| Day15.ArrangeBoxes | day15/src/main.rs:16-51 | the array method fails exactly when Arrange does, and otherwise holds Arrange's boxes |
| Day15.SlotsPower | day15/src/main.rs:57-59 | the inner loop computes the box's power |
| Day15.FocusingPower | day15/src/main.rs:53-63 | the nested loops compute Σ (box+1)(slot+1)·focal |
| Day15.BoxPowerReplace | day15/src/main.rs:35 | replacing a focal length in place changes the power by the slot's weight times the difference |
| Day15.BoxPowerScales | day15/src/main.rs:58 | a box's power is its 1-based position times its power at position 1 |
| Day15.Position | day15/src/main.rs:2 | the first occurrence of a byte, or the length |
| Day15.GlueFields | day15/src/main.rs:2 | split(',') loses nothing: gluing the pieces with commas gives back the line |
| Day15.FieldsHaveNoComma | day15/src/main.rs:2 | no piece holds a comma |
| Day15.FirstLine | day15/src/main.rs:2 | None exactly for empty input; otherwise a prefix of the input with no line feed |
| Day15.ParseInput | day15/src/main.rs:1-3 | None exactly for empty input; the glued steps are a prefix of the input |
| Day15.ParseInputOfLine | day15/src/main.rs:1-3 | a line ended by "\n" or "\r\n" gives exactly its comma pieces |
| Day15.FirstLineOf | day15/src/main.rs:2 | the first line of line + ending + rest is the line |
| Day15.Part1 | day15/src/main.rs:65-73 | None exactly for empty input; otherwise the sum of step hashes, at most 255 per step |
| Day15.HashesBound | day15/src/main.rs:68-71 | the sum of step hashes is between 0 and 255 per step |
| Day15.Part2 | day15/src/main.rs:74-76 | Some exactly when the input is non-empty and every step parses |
| Day16.Successors | day16/src/main.rs:41-103 | the beams leaving a tile: '.' straight, '/' (dy,dx)→(-dx,-dy), '\' (dy,dx)→(dx,dy), splitters pass edge-on or split both ways; directions stay unit; nothing exactly for an unknown tile |
| Day16.Universe | day16/src/main.rs:38-40 | every in-grid beam state with a unit direction |
| Day16.InUniverse | day16/src/main.rs:38-40 | an in-grid beam with a unit direction is in the universe |
| Day16.GrowWithin | day16/src/main.rs:41-103 | one growth step stays among in-grid unit beams |
| Day16.Lit | day16/src/main.rs:18-106 | the grown fixpoint contains the start and stays in the universe |
| Day16.LitClosed | day16/src/main.rs:18-106 | the fixpoint holds every in-grid beam leaving its beams |
| Day16.LitLeast | day16/src/main.rs:18-106 | the fixpoint lies inside every closed set holding the start |
| Day16.StartSet | day16/src/main.rs:29-39 | a start off the grid lights nothing |
| Day16.NextBeam | day16/src/main.rs:18-106 | returns at once off the grid or on a recorded state; otherwise records the state, the path only grows within the in-grid states, every added state is on a known tile with its leaving beams recorded, and every added state lies in each closed set holding the start; false exactly on reaching an unknown tile |
| Day16.FirstOnly | day16/src/main.rs:42-62 | one leaving beam: what it adds is all the tile adds |
| Day16.Both | day16/src/main.rs:63-102 | a splitter met flat: the two leaving beams, in order, add everything the tile adds |
| Day16.BeamIsLit | day16/src/main.rs:113-114 | from an empty path, the recorded states are exactly the least closed set holding the start |
| Day16.BeamPanics | day16/src/main.rs:103 | an unknown tile met on the way is reached by the light, so the count is None |
| Day16.BeamCounts | day16/src/main.rs:115-118 | with no unknown tile, the number of distinct tiles of the path is the energized count |
| Day16.CountEnergized | day16/src/main.rs:108-119 | the count equals Energized of the start (also part 1 of main, lines 124-127) |
| Day16.LitDownstream | day16/src/main.rs:18-106 | light that reaches a beam lights everything that beam lights |
| Day16.OffGridLightsNothing | day16/src/main.rs:29-39 | a start off the grid energizes 0 tiles |
| Day16.RowStarts | day16/src/main.rs:130-136 | two unit-direction starts per row |
| Day16.ColumnStarts | day16/src/main.rs:138-144 | two unit-direction starts per column |
| Day16.MaxOfIsMax | day16/src/main.rs:129-146 | the running max is None exactly when a count is, no count exceeds it, and one reaches it unless it is 0 |
| Day16.MaxOfFails | day16/src/main.rs:129-146 | a failing prefix fails the whole list |
| Day16.Counts | day16/src/main.rs:129-146 | one count per start, the start's Energized value |
| Day16.EdgeRow | day16/src/main.rs:130-136 | the two starts of row i: from the left heading right, from the right heading left |
| Day16.EdgeColumn | day16/src/main.rs:138-144 | the two starts of column i: from the top heading down, from the bottom heading up |
| Day16.TryStart | day16/src/main.rs:131-132 | one count folded into the running maximum |
| Day16.ScanRows | day16/src/main.rs:130-136 | the row loop leaves the max over the row starts, or a failure of the whole |
| Day16.ScanColumns | day16/src/main.rs:138-144 | the column loop finishes the max over all edge starts |
| Day16.MaxEnergized | day16/src/main.rs:129-146 | part 2 is the max of the counts over every edge start in the source's order |
| Day17.Neighbours | day17/src/main.rs:37-42 | the four neighbours in the order down, right, up, left, each adjacent and all distinct |
| Day17.Order | day17/src/main.rs:37-42 | the place of a block among the neighbours, 4 for a non-neighbour |
| Day17.WalkStep | day17/src/main.rs:53-56 | extending a sound state by an adjacent in-grid block gives a sound state whose cost grew by that block's heat |
| Day17.CostBounds | day17/src/main.rs:10 | with one-digit heat losses a path costs between 0 and 9 per block |
| Day17.TrySkip | day17/src/main.rs:43-49 | passing over an off-grid or not-improving neighbour keeps the loop's knowledge |
| Day17.TryPush | day17/src/main.rs:57-69 | queueing an improving neighbour records its cost and keeps the loop's knowledge |
| Day17.TriedAll | day17/src/main.rs:37-70 | after the four neighbours every queued state is sound and each new recorded block is adjacent |
| Day17.Expand | day17/src/main.rs:37-70 | the queue only grows, by walks extended one block whose block was unrecorded or strictly dearer; the recorded cost is the new one; recorded costs never increase |
| Day17.BestPath | day17/src/main.rs:18-74 | an empty grid is an error (source panics); otherwise the result is either no path with i32::MAX or a walk from (0,0) to the bottom-right block costing the sum of its blocks, below i32::MAX |
| Day17.DigitGrid | day17/src/main.rs:8-12 | defined exactly when every character is a digit, each mapped to its value |
| Day17.ParseDigits | day17/src/main.rs:5-16 | a non-empty rectangle of values 0..9 |
| Day18.Step | day18/src/main.rs:145-151 | one metre: defined exactly for L, R, U, D (others panic), moving x−1, x+1, y+1, y−1, always a Manhattan step of 1 |
| Day18.DigSegment | day18/src/main.rs:144-153 | the inner loop appends exactly the instruction's straight line of holes and ends at its last block; None exactly when it would dig with an unknown letter |
| Day18.LineGrows | day18/src/main.rs:144-153 | one more metre appends the next block of the line |
| Day18.RunInstructions | day18/src/main.rs:135-156 | returns the holes of the plan as defined by Run (None where the source panics) |
| Day18.RunSnoc | day18/src/main.rs:138-154 | one more instruction digs on from where the plan stopped |
| Day18.RunStopped | day18/src/main.rs:150 | a panic on a prefix of the plan is a panic of the plan |
| Day18.RunPanics | day18/src/main.rs:144-151 | digging fails exactly when some instruction with positive distance has an unknown letter (a zero distance never reaches the match) |
| Day18.RunLength | day18/src/main.rs:144-153 | the number of holes is the total of the positive distances |
| Day18.RunChain | day18/src/main.rs:136-155 | every hole is one metre from the previous one, the first one metre from the origin (so the origin is not pushed first), and the position is the last hole |
| Day18.SegmentChain | day18/src/main.rs:144-153 | one instruction's holes form a one-metre chain ending `distance` metres away |
| Day18.ChainAppend | day18/src/main.rs:138-154 | chains glue where the first ends |
| Day18.PerimeterSum | day18/src/main.rs:169 | the perimeter accumulator is a sum of Manhattan lengths, never negative |
| Day18.Shoelace | day18/src/main.rs:158-176 | (|cross sum| + perimeter) / 2 + 1 with each point paired with its cyclic successor; at least 1 |
| Day18.SumsArePath | day18/src/main.rs:166-170 | before the last point the cyclic successor is the next point, so the fold equals the open-path sums |
| Day18.ClosedNeedsNoWrap | day18/src/main.rs:158-176 | on a closed point list the wrap-around pair adds nothing |
| Day18.ChainLength | day18/src/main.rs:169 | a chain of one-metre steps is as long as its number of steps |
| Day18.TailLength | day18/src/main.rs:169 | dropping the first step of a chain shortens it by one |
| Day18.ClosedPerimeter | day18/src/main.rs:184-186 | a chain from the origin back to the origin, closed by its first hole, has perimeter equal to its number of holes |
| Day18.Lagoon | day18/src/main.rs:183-186 | defined exactly when digging succeeds and digs something (holes_dug[0] panics otherwise) |
| Day18.ClosedTrench | day18/src/main.rs:183-186 | for a trench back at the origin, the lagoon is (|cross sum| + number of holes) / 2 + 1 |
| Day18.HexDirection | day18/src/main.rs:68-86 | 0→R, 1→D, 2→L, 3→U; any other character fails |
| Day18.HexDirectionBijective | day18/src/main.rs:68-86 | distinct digits give distinct directions and every direction has a digit, so part-2 plans never hit the panic |
| Day19.ParseCondition | day19/src/main.rs:10-19 | defined exactly when the text has two characters and an integer after them; the field is the first character, the operator the second |
| Day19.ConditionRoundTrip | day19/src/main.rs:10-19 | a rendered condition parses back to itself |
| Day19.ParseRule | day19/src/main.rs:27-38 | unless the text has exactly one ':', no condition and the target is the text before the first ':'; a conditioned rule's target is the text after the ':' |
| Day19.RuleRoundTrip | day19/src/main.rs:27-38 | a well-formed rendered rule parses back to itself and holds no ',', '{' or '}' |
| Day19.ParseRules | day19/src/main.rs:50 | defined exactly when every item parses, one rule per item in order |
| Day19.RulesRoundTrip | day19/src/main.rs:50 | rendered rules parse back to themselves |
| Day19.ParseWorkflow | day19/src/main.rs:46-52 | a parsed workflow's name has no '{' and it has at least one rule |
| Day19.WorkflowRoundTrip | day19/src/main.rs:46-52 | `name{rule,…,rule}` parses back to the workflow |
| Day19.SplitTwo | day19/src/main.rs:28 | a text with one separator splits into the two sides |
| Day19.JoinAvoids | day19/src/main.rs:50 | a character in no item is not in the joined items |
| Day19.Assign | day19/src/main.rs:80-89 | an item assigns only when it has a value and names x, m, a or s |
| Day19.ParsePart | day19/src/main.rs:62-93 | the for_each over the items gives exactly PartOf: every field starts at 0 and the items assign in order; None where the source panics |
| Day19.AssignStops | day19/src/main.rs:88 | a panicking item makes the whole line panic |
| Day19.AssignSnoc | day19/src/main.rs:79-90 | one more item applies to what the earlier items built |
| Day19.ItemAssigns | day19/src/main.rs:80-87 | a `k=v` item sets field k to v |
| Day19.LaterItemWins | day19/src/main.rs:79-90 | a later duplicate item overrides the earlier value |
| Day19.UnknownFieldFails | day19/src/main.rs:88 | an item naming another field panics |
| Day19.PartAssigns | day19/src/main.rs:72-90 | the four rendered items rebuild the part from the zero part |
| Day19.PartRoundTrip | day19/src/main.rs:62-93 | `{x=…,m=…,a=…,s=…}` parses back to the part |
| Day19.FieldValue | day19/src/main.rs:105-111 | a rating is read exactly for the letters x, m, a, s |
| Day19.Meets | day19/src/main.rs:103-117 | no condition always applies; otherwise defined exactly for a known field and '<' or '>', comparing strictly |
| Day19.FirstMatchIsFirst | day19/src/main.rs:102-127 | the first rule that applies decides, whatever follows |
| Day19.FirstMatchFound | day19/src/main.rs:102-127 | a decided target is that of a rule that applies with none applying before it |
| Day19.NoMatchPanics | day19/src/main.rs:129 | when no rule applies the workflow panics |
| Day19.AcceptsMoreFuel | day19/src/main.rs:96-130 | a verdict reached with some jump budget is the verdict with any larger budget |
| Day19.SelfLoopNeverDecides | day19/src/main.rs:123-125 | a workflow whose first rule sends every part back to itself never decides |
| Day19.TestPartFrom | day19/src/main.rs:96-130 | the rule loop with its meets_condition flag gives exactly Accepts: A accepts, R rejects, other targets continue, missing workflow and no match are errors |
| Day19.TestPart | day19/src/main.rs:95-133 | evaluation starts at "in" |
| Day19.Part1Decided | day19/src/main.rs:154-158 | part 1 succeeds exactly when every part gets a verdict |
| Day19.Part1Append | day19/src/main.rs:154-158 | part 1 adds up over a split of the parts |
| Day19.Part1Bounds | day19/src/main.rs:154-158 | with non-negative ratings part 1 lies between 0 and the total rating |
| Day19.WorkflowsHasAll | day19/src/main.rs:138-144 | every line parses and its workflow's name is in the table |
| Day19.WorkflowsLastWins | day19/src/main.rs:138-144 | the last line naming a workflow is the one kept |
| Day21.TileOf | day21/src/main.rs:31-39 | '.' and 'S' are plots, '#' is rock, and nothing else parses |
| Day21.GridOf | day21/src/main.rs:28-42 | defined exactly when every character is '.', '#' or 'S'; one row per line and one tile per character |
| Day21.RowOf | day21/src/main.rs:29-40 | defined exactly when every character parses; tile j is the tile of character j |
| Day21.ParseInput | day21/src/main.rs:25-44 | the nested loops give exactly Parsed: the grid and the start, None where the source panics |
| Day21.ParseRow | day21/src/main.rs:29-40 | the inner loop gives the row's tiles and the start after it |
| Day21.RowStops | day21/src/main.rs:38 | a bad character in a prefix makes the whole line fail |
| Day21.RowPanics | day21/src/main.rs:38 | a bad line makes the whole parse fail |
| Day21.RowsMakeGrid | day21/src/main.rs:41 | the parsed rows, pushed in order, are the grid |
| Day21.StartInRowKeeps | day21/src/main.rs:34-35 | a row without 'S' leaves the start as it was |
| Day21.StartInRowLast | day21/src/main.rs:34-35 | a row with an 'S' sets the start to its last 'S' |
| Day21.StartIsLastS | day21/src/main.rs:27-35 | the start is the last 'S' in reading order, and (0, 0) when there is none |
| Day21.StartIsPlot | day21/src/main.rs:34-36 | when there is an 'S', the start is a plot of the grid |
| Day21.ReachPlot | day21/src/main.rs:46-81 | every cell reachable in n steps is an in-grid plot, at most n steps away, with a distance of the same parity as n |
| Day21.OneStepParity | day21/src/main.rs:66-76 | one step changes the distance by at most one and flips its parity |
| Day21.BackAndForth | day21/src/main.rs:52-76 | a neighbouring plot is reachable in one step and the start again in two |
| Day21.ReachableAfterSteps | day21/src/main.rs:46-81 | with a cache whose entries are all correct, the result is the reachable set and the cache stays correct and keeps its keys |
| Day21.Extend | day21/src/main.rs:73-76 | extending a set by one recursive call adds the neighbour's reachable set |
| Day21.Part1 | day21/src/main.rs:83-86 | part 1 is the number of plots reachable in exactly the given steps |
| Day21.ReachChecked | day21/src/main.rs:66-76 | in a build with overflow checks, an answer that exists equals the reachable set |
| Day21.CornerPanics | day21/src/main.rs:68-69 | a lone plot at (0, 0) with one step left panics instead of giving the empty set |
| Day21.InteriorAgrees | day21/src/main.rs:66-76 | a start at least n rows and columns from the top and left edges never reaches the underflow |

## Left out

- Every `main`'s I/O: `include_str!` of `input.txt`, `println!`, `dbg!`, `print_grid` in `day21/src/main.rs:12-23` and the path printing in `day17/src/main.rs:83-95`. Where `main` combines results into an answer, that step is modelled: day 12's part 2 unfolding, day 13's summary and day 21's `part_1`.
- The tests that read `sample.txt`, `sample2.txt`, `sample_tilted.txt`, `sample_cycle.txt` or `input.txt`. These files are not part of this model. This covers the tests of days 5, 7, 8, 11, 13 and 14; the examples whose text is written out in a test are proved.
- Machine-integer overflow of `i32`, `i64`, `isize` and `usize` in every day except day 15's `u8` hash, because all values are unbounded integers.
- `day05/benches/benchmark.rs`: a benchmark driver with no behaviour.
- HashMap, HashSet, BTreeMap and VecDeque internals. These are Dafny maps, sets and sequences; where the source iterates a hash container, only order-independent results (a maximum, a count) are modelled.
- day01: the regex engine. The two patterns are modelled as leftmost-match scans over the digit words and their reversals.
- Day01.MatchAt: `\d` is taken as the ASCII digits '0' to '9'. The Rust regex's `\d` also matches the other Unicode decimal digits (such as '٣'), and the `parse::<i32>().unwrap()` that follows then panics; the model skips such a character instead.
- Day01.LineToValueSpec: for the same reason, a line whose first or last match would be a non-ASCII decimal digit gets a value here, where the source panics (the line "٣1" gives 11 here). Lines of ASCII digits and letters, as in the puzzle input, are unaffected.
- day03: `Board::new` is taken as the board's lines. A `wrapping_sub` at 0 gives `usize::MAX` in the source and -1 here; both fail the same bounds check.
- day04: the test line `Card 1: ...` is covered by the general parse/print round trip, not by a literal example. Its double space is handled by `split_whitespace`.
- day05: `parse_input` of `lib.rs` and the map-table part of `main.rs`'s `parse_input`; the stages are given as values. Only the seeds line of `main.rs` is parsed.
- Day05Lib.LowestLocationBackwards: the `(0..)` scan is bounded by `limit` and gives up there; the source scans forever when nothing is found.
- Day05Lib.LowestLocationIntervals: agreement with brute force is proved only when every seed range is non-empty. The source takes the least start of every fragment, an empty one included.
- Day05Main.LowestLocationBackwards: the scan is bounded by `limit`, as in the library version.
- day08: `Map::try_from`'s regex parse. The node table is an input map; only the direction line is decoded.
- Day08.StepsToReachZzz: the `cycle()` walk is bounded by `fuel`; running out is a distinct outcome.
- day09: `main`'s line parsing and the sums of the extrapolations.
- day10: the longest-distance test (`day10/src/main.rs:311-318`) and the three 20-column containment tests (334-393) are not reproduced as literal examples; the general lemmas cover them. The `Debug` formatting of tiles is used only as the character each tile is written with.
- Day10.TraceMainLoop: the trace is bounded by `fuel`; the source loops until it returns to the start or panics.
- day11: the release-build wrap-around of `expansion_rate - 1` at rate 0. It is modelled as the debug-build failure, an `Err`, when a second line is occupied.
- day12: the first test row `#.#.### 1,1,3` expects 0, but the code computes 1. The model follows the code (`Day12.FirstTestRow`), and 1 is the correct count for that row.
- Day13.FindVerticalReflection: requires a rectangular pattern. On a ragged one the source compares rows of different lengths or panics on a short row; that case is not modelled. The parser of the model only produces non-empty rows.
- Day13.FindHorizontalReflection: requires a non-empty pattern, which every pattern the parser produces is. The source underflows on an empty one.
- day14: the "1000 cycles stand in for 10^9" shortcut is modelled as written, 1000 cycles, with no claim about the 10^9th state.
- day15: the input is taken as the bytes of the text; splitting on ASCII bytes coincides with splitting on characters.
- day16: `parse_input` is the day 14 grid parser (the same code). The `debug_assert` on unit directions is a precondition. Stack depth is not modelled.
- Day17.BestPath: only soundness is proved. A returned cost is that of a real walk of adjacent in-grid blocks from (0,0) to the bottom-right block, costing the sum of its blocks; optimality is not claimed. The loop is bounded by `fuel`.
- day18: the `nom` parsers (`hex_primary`, `hex_color`, `parse_instruction*`, `parse_input*`) and the unused colour. Only the digit-to-direction table of `parse_direction_from_hex` is modelled.
- day19: `main`'s split of the input on blank lines. The ratings are read as ASCII text. Jumps between workflows are bounded by `fuel`, where the source would recurse until the stack overflows on a cyclic workflow set.
- Day19.ParseRule: when a rule has two or more ':' the target is the text before the first ':'. This follows the code.
- day21: coordinates are unbounded integers, so a step above row 0 or left of column 0 is off the grid, as in a build without overflow checks (see Findings). The cache is a map passed in and returned, where the source borrows it mutably. HashSet cloning is not modelled.

## Findings

| source | as written | input that shows it | evidently intended | confidence | as-written member | corrected member |
|---|---|---|---|---|---|---|
| day05/src/main.rs:21-29 | `unmap` unwraps the first destination match, so a value no rule covers panics | seed-to-soil table `50 98 2`, `52 50 48`, value 14; the test at 261-279 expects 14 | identity fallback, as the library's `unmap` does | not executed | Day05Main.UnmapPanicsOnTestValue | Day05Lib.UnmapValue |
| day03/src/main.rs:44-61 | the running number is not reset at the end of a row, so digits at the end of one row join the digits at the start of the next | rows `1` and `2*` give the single part number 12 | the two part numbers 1 and 2, each touching the `*` | not executed | Day03.RowEndJoinsNumbers | Day03.FixedSplitsRows |
| day03/src/main.rs:44-62 | a number still open after the last cell of the board is never pushed | the one-row board `*1` gives no part number | the part number 1 | not executed | Day03.LastNumberDropped | Day03.FixedKeepsLastNumber |
| day21/src/main.rs:66-69 | `from_r - 1` and `from_c - 1` on `usize` underflow at row or column 0, which panics in a debug build | the one-cell grid `S` with one step | no reachable plot (the empty set), the neighbours above and to the left being off the grid | not executed | Day21.CornerPanics | Day21.ReachableAfterSteps |
