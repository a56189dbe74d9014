/** Engine-schematic part numbers (day03/src/main.rs).  The board is a list
    of rows of characters; a part number is a run of digits with a symbol
    (neither a digit nor '.') among the neighbours of one of its digits. */
module Day03 {
  import opened Common
  import opened Text

  datatype Board = Board(rows: seq<seq<char>>)

  /** `Board::at`: the character at column `x` of row `y`, if there is one. */
  function At(b: Board, x: int, y: int): (r: Option<char>)
    ensures r.None? <==> y < 0 || y >= |b.rows| || x < 0 || x >= |b.rows[y]|
    ensures r.Some? ==> r.value == b.rows[y][x]
  {
    if 0 <= y < |b.rows| && 0 <= x < |b.rows[y]| then Some(b.rows[y][x]) else None
  }

  predicate InBounds(b: Board, x: int, y: int)
  {
    0 <= y < |b.rows| && 0 <= x < |b.rows[y]|
  }

  /** The eight offsets of `neighbours`, in the source's order. */
  const Offsets: seq<(int, int)> :=
    [(-1, -1), (0, -1), (1, -1), (-1, 0), (1, 0), (-1, 1), (0, 1), (1, 1)]

  /** The offsets kept by the bounds filter.  A `wrapping_sub` at 0 gives
      `usize::MAX`, which no row reaches; here it is -1, which fails the
      same filter. */
  function Kept(b: Board, x: int, y: int, offs: seq<(int, int)>): (r: seq<(int, int)>)
    ensures |r| <= |offs|
    ensures forall i :: 0 <= i < |r| ==> InBounds(b, x + r[i].0, y + r[i].1)
  {
    if offs == [] then []
    else
      var rest := Kept(b, x, y, offs[1..]);
      if InBounds(b, x + offs[0].0, y + offs[0].1) then [offs[0]] + rest else rest
  }

  /** The filter keeps exactly the in-bounds offsets. */
  lemma {:induction false} KeptMember(b: Board, x: int, y: int, offs: seq<(int, int)>, o: (int, int))
    ensures o in Kept(b, x, y, offs) <==> o in offs && InBounds(b, x + o.0, y + o.1)
    decreases |offs|
  {
    if offs != [] {
      KeptMember(b, x, y, offs[1..], o);
      assert offs == [offs[0]] + offs[1..];
    }
  }

  /** `Board::neighbours`: the characters of the in-bounds cells around (x, y). */
  function Neighbours(b: Board, x: int, y: int): (r: seq<char>)
    ensures |r| <= 8
  {
    var kept := Kept(b, x, y, Offsets);
    seq(|kept|, i requires 0 <= i < |kept| => b.rows[y + kept[i].1][x + kept[i].0])
  }

  predicate Adjacent(dx: int, dy: int)
  {
    -1 <= dx <= 1 && -1 <= dy <= 1 && (dx != 0 || dy != 0)
  }

  lemma OffsetIsAdjacent(o: (int, int))
    requires o in Offsets
    ensures Adjacent(o.0, o.1)
  {
  }

  lemma AdjacentIsOffset(dx: int, dy: int)
    requires Adjacent(dx, dy)
    ensures (dx, dy) in Offsets
  {
    if dy == -1 {
      assert (dx, dy) == Offsets[dx + 1];
    } else if dy == 0 {
      assert (dx, dy) == Offsets[if dx < 0 then 3 else 4];
    } else {
      assert (dx, dy) == Offsets[dx + 6];
    }
  }

  /** A neighbour comes from an in-bounds cell next to (x, y), never (x, y) itself. */
  lemma NeighbourIsAdjacentCell(b: Board, x: int, y: int, i: int)
    requires 0 <= i < |Neighbours(b, x, y)|
    ensures exists dx, dy ::
      Adjacent(dx, dy) && InBounds(b, x + dx, y + dy) && b.rows[y + dy][x + dx] == Neighbours(b, x, y)[i]
  {
    var kept := Kept(b, x, y, Offsets);
    var o := kept[i];
    KeptMember(b, x, y, Offsets, o);
    OffsetIsAdjacent(o);
    assert b.rows[y + o.1][x + o.0] == Neighbours(b, x, y)[i];
  }

  /** Every in-bounds cell next to (x, y) is among the neighbours. */
  lemma AdjacentCellIsNeighbour(b: Board, x: int, y: int, dx: int, dy: int)
    requires Adjacent(dx, dy) && InBounds(b, x + dx, y + dy)
    ensures b.rows[y + dy][x + dx] in Neighbours(b, x, y)
  {
    AdjacentIsOffset(dx, dy);
    var kept := Kept(b, x, y, Offsets);
    KeptMember(b, x, y, Offsets, (dx, dy));
    var i :| 0 <= i < |kept| && kept[i] == (dx, dy);
    assert Neighbours(b, x, y)[i] == b.rows[y + dy][x + dx];
  }

  /** The `any` in `find_part_numbers`: a neighbour that is neither a digit nor '.'. */
  predicate IsSymbol(c: char)
  {
    !IsDigit(c) && c != '.'
  }

  predicate HasSymbol(cs: seq<char>)
  {
    exists i :: 0 <= i < |cs| && IsSymbol(cs[i])
  }

  predicate TouchesSymbol(b: Board, x: int, y: int)
  {
    HasSymbol(Neighbours(b, x, y))
  }

  /** A cell touches a symbol exactly when an in-bounds cell next to it holds one. */
  lemma TouchesSymbolIff(b: Board, x: int, y: int)
    ensures TouchesSymbol(b, x, y) <==>
      exists dx, dy :: Adjacent(dx, dy) && InBounds(b, x + dx, y + dy) && IsSymbol(b.rows[y + dy][x + dx])
  {
    var ns := Neighbours(b, x, y);
    if TouchesSymbol(b, x, y) {
      var i :| 0 <= i < |ns| && IsSymbol(ns[i]);
      NeighbourIsAdjacentCell(b, x, y, i);
    }
    if exists dx, dy :: Adjacent(dx, dy) && InBounds(b, x + dx, y + dy) && IsSymbol(b.rows[y + dy][x + dx]) {
      var dx, dy :| Adjacent(dx, dy) && InBounds(b, x + dx, y + dy) && IsSymbol(b.rows[y + dy][x + dx]);
      AdjacentCellIsNeighbour(b, x, y, dx, dy);
      var c := b.rows[y + dy][x + dx];
      var i :| 0 <= i < |ns| && ns[i] == c;
    }
  }

  // ---------------------------------------------------------------------------
  // find_part_numbers as written

  datatype ScanState = ScanState(currentNumber: int, isNextToSymbol: bool, partNumbers: seq<int>)

  const Start := ScanState(0, false, [])

  /** One character of the scan, with whether it touches a symbol. */
  function Step(s: ScanState, c: char, touches: bool): ScanState
  {
    if IsDigit(c) then
      ScanState(s.currentNumber * 10 + DigitValue(c), s.isNextToSymbol || touches, s.partNumbers)
    else
      ScanState(0, false, if s.isNextToSymbol then s.partNumbers + [s.currentNumber] else s.partNumbers)
  }

  /** The scan over a sequence of (character, touches-a-symbol) cells. */
  function Scan(s: ScanState, cells: seq<(char, bool)>): ScanState
  {
    if cells == [] then s
    else
      var last := cells[|cells| - 1];
      Step(Scan(s, cells[..|cells| - 1]), last.0, last.1)
  }

  function RowCells(b: Board, y: int): (r: seq<(char, bool)>)
    requires 0 <= y < |b.rows|
    ensures |r| == |b.rows[y]|
  {
    seq(|b.rows[y]|, x requires 0 <= x < |b.rows[y]| => (b.rows[y][x], TouchesSymbol(b, x, y)))
  }

  /** The cells of the first `y` rows in row-major order. */
  function CellsBefore(b: Board, y: int): seq<(char, bool)>
    requires 0 <= y <= |b.rows|
  {
    if y == 0 then [] else CellsBefore(b, y - 1) + RowCells(b, y - 1)
  }

  /** `find_part_numbers`: one scan over the whole board in row-major order. */
  function PartNumbers(b: Board): seq<int>
  {
    Scan(Start, CellsBefore(b, |b.rows|)).partNumbers
  }

  lemma ScanAppend(s: ScanState, cells: seq<(char, bool)>, c: (char, bool))
    ensures Scan(s, cells + [c]) == Step(Scan(s, cells), c.0, c.1)
  {
    assert (cells + [c])[..|cells|] == cells;
  }

  lemma {:induction false} ScanConcat(s: ScanState, xs: seq<(char, bool)>, ys: seq<(char, bool)>)
    ensures Scan(s, xs + ys) == Scan(Scan(s, xs), ys)
    decreases |ys|
  {
    if ys == [] {
      assert xs + ys == xs;
    } else {
      var init, last := ys[..|ys| - 1], ys[|ys| - 1];
      ScanConcat(s, xs, init);
      assert xs + ys == (xs + init) + [last];
      ScanAppend(s, xs + init, last);
      ScanAppend(Scan(s, xs), init, last);
      assert ys == init + [last];
    }
  }

  /** The body of the outer loop of `find_part_numbers`: one row, cell by cell. */
  method ScanRow(b: Board, y: int, s: ScanState) returns (t: ScanState)
    requires 0 <= y < |b.rows|
    ensures t == Scan(s, RowCells(b, y))
  {
    var currentNumber, isNextToSymbol, partNumbers := s.currentNumber, s.isNextToSymbol, s.partNumbers;
    var row := b.rows[y];
    var x := 0;
    while x < |row|
      invariant 0 <= x <= |row|
      invariant Scan(s, RowCells(b, y)[..x]) == ScanState(currentNumber, isNextToSymbol, partNumbers)
    {
      var c := row[x];
      ScanAppend(s, RowCells(b, y)[..x], RowCells(b, y)[x]);
      assert RowCells(b, y)[..x + 1] == RowCells(b, y)[..x] + [RowCells(b, y)[x]];
      if IsDigit(c) {
        currentNumber := currentNumber * 10 + DigitValue(c);
        isNextToSymbol := isNextToSymbol || HasSymbol(Neighbours(b, x, y));
      } else {
        if isNextToSymbol {
          partNumbers := partNumbers + [currentNumber];
        }
        currentNumber := 0;
        isNextToSymbol := false;
      }
      x := x + 1;
    }
    assert RowCells(b, y)[..x] == RowCells(b, y);
    t := ScanState(currentNumber, isNextToSymbol, partNumbers);
  }

  /** `find_part_numbers`: the running number, its flag and the output are
      updated cell by cell, across row ends, and never flushed at the end. */
  method FindPartNumbers(b: Board) returns (partNumbers: seq<int>)
    ensures partNumbers == PartNumbers(b)
  {
    var state := Start;
    var y := 0;
    while y < |b.rows|
      invariant 0 <= y <= |b.rows|
      invariant state == Scan(Start, CellsBefore(b, y))
    {
      ScanConcat(Start, CellsBefore(b, y), RowCells(b, y));
      state := ScanRow(b, y, state);
      y := y + 1;
    }
    partNumbers := state.partNumbers;
  }

  // ---------------------------------------------------------------------------
  // What the scan computes

  predicate AllDigitCells(run: seq<(char, bool)>)
  {
    forall i :: 0 <= i < |run| ==> IsDigit(run[i].0)
  }

  function RunText(run: seq<(char, bool)>): (r: string)
    ensures |r| == |run| && forall i :: 0 <= i < |run| ==> r[i] == run[i].0
  {
    seq(|run|, i requires 0 <= i < |run| => run[i].0)
  }

  predicate AnyTouches(run: seq<(char, bool)>)
  {
    exists i :: 0 <= i < |run| && run[i].1
  }

  /** A run of digits read from a reset state accumulates its decimal value and
      whether any of its digits touches a symbol, and emits nothing. */
  lemma {:induction false} ScanRun(s: ScanState, run: seq<(char, bool)>)
    requires s.currentNumber == 0 && !s.isNextToSymbol
    requires AllDigitCells(run)
    ensures AllDigits(RunText(run))
    ensures Scan(s, run) == ScanState(DigitsValue(RunText(run)), AnyTouches(run), s.partNumbers)
    decreases |run|
  {
    if run != [] {
      var init := run[..|run| - 1];
      ScanRun(s, init);
      assert RunText(run)[..|run| - 1] == RunText(init);
      if AnyTouches(run) && !run[|run| - 1].1 {
        var i :| 0 <= i < |run| && run[i].1;
        assert init[i].1;
      }
    }
  }

  /** A non-digit after the run emits its value exactly when a digit of it
      touched a symbol, and resets the state. */
  lemma RunThenGap(s: ScanState, run: seq<(char, bool)>, gap: (char, bool))
    requires s.currentNumber == 0 && !s.isNextToSymbol
    requires AllDigitCells(run) && !IsDigit(gap.0)
    ensures AllDigits(RunText(run))
    ensures Scan(s, run + [gap])
         == ScanState(0, false,
              s.partNumbers + (if AnyTouches(run) then [DigitsValue(RunText(run))] else []))
  {
    ScanRun(s, run);
    ScanAppend(s, run, gap);
  }

  /** After any non-digit the state is reset, so the cells after it are
      scanned independently of the ones before. */
  lemma {:induction false} ScanAfterGap(s: ScanState, before: seq<(char, bool)>, after: seq<(char, bool)>)
    requires before != [] && !IsDigit(before[|before| - 1].0)
    ensures Scan(s, before + after)
         == var t := Scan(s, before);
            var u := Scan(Start, after);
            ScanState(u.currentNumber, u.isNextToSymbol, t.partNumbers + u.partNumbers)
    decreases |after|
  {
    if after == [] {
      assert before + after == before;
    } else {
      var init := after[..|after| - 1];
      var last := after[|after| - 1];
      ScanAfterGap(s, before, init);
      assert before + after == (before + init) + [last];
      ScanAppend(s, before + init, last);
      ScanAppend(Start, init, last);
      assert after == init + [last];
    }
  }

  // ---------------------------------------------------------------------------
  // Findings: numbers are not cut at row ends and the last one is not flushed

  lemma Scan2(s: ScanState, c0: (char, bool), c1: (char, bool))
    ensures Scan(s, [c0, c1]) == Step(Step(s, c0.0, c0.1), c1.0, c1.1)
  {
    ScanAppend(s, [], c0);
    ScanAppend(s, [c0], c1);
    assert [] + [c0] == [c0] && [c0] + [c1] == [c0, c1];
  }

  lemma Scan3(s: ScanState, c0: (char, bool), c1: (char, bool), c2: (char, bool))
    ensures Scan(s, [c0, c1, c2]) == Step(Step(Step(s, c0.0, c0.1), c1.0, c1.1), c2.0, c2.1)
  {
    Scan2(s, c0, c1);
    ScanAppend(s, [c0, c1], c2);
    assert [c0, c1] + [c2] == [c0, c1, c2];
  }

  lemma TwoRowsScan(b: Board)
    requires b.rows == ["1", "2*"]
    ensures PartNumbers(b) == [12]
  {
    assert Adjacent(1, 1) && InBounds(b, 1, 1) && IsSymbol(b.rows[1][1]);
    TouchesSymbolIff(b, 0, 0);
    var r0, r1 := RowCells(b, 0), RowCells(b, 1);
    assert r0 == [('1', true)];
    assert r1 == [('2', r1[0].1), ('*', r1[1].1)];
    assert CellsBefore(b, 1) == [] + r0;
    assert CellsBefore(b, 2) == CellsBefore(b, 1) + r1 == [r0[0], r1[0], r1[1]];
    Scan3(Start, r0[0], r1[0], r1[1]);
  }

  /** A number ending a row runs on into digits starting the next row: the
      "1" ending row 0 and the "2" starting row 1 are read as 12. */
  lemma RowEndJoinsNumbers()
    ensures PartNumbers(Board(["1", "2*"])) == [12]
  {
    TwoRowsScan(Board(["1", "2*"]));
  }

  lemma OneRowScan(b: Board)
    requires b.rows == ["*1"]
    ensures PartNumbers(b) == []
  {
    var r0 := RowCells(b, 0);
    assert r0 == [('*', r0[0].1), ('1', r0[1].1)];
    assert CellsBefore(b, 1) == [] + r0 == r0;
    Scan2(Start, r0[0], r0[1]);
  }

  /** A number ending the last row is never emitted: "*1" has a part number 1
      that the scan drops. */
  lemma LastNumberDropped()
    ensures PartNumbers(Board(["*1"])) == []
  {
    OneRowScan(Board(["*1"]));
  }

  /** The evidently intended scan: each row on its own, with a gap after its
      last cell so that a number ending the row is emitted. */
  function RowPartNumbers(b: Board, y: int): seq<int>
    requires 0 <= y < |b.rows|
  {
    Scan(Start, RowCells(b, y) + [('.', false)]).partNumbers
  }

  function PartNumbersByRow(b: Board, y: int): seq<int>
    requires 0 <= y <= |b.rows|
  {
    if y == 0 then [] else PartNumbersByRow(b, y - 1) + RowPartNumbers(b, y - 1)
  }

  function FixedPartNumbers(b: Board): seq<int>
  {
    PartNumbersByRow(b, |b.rows|)
  }

  /** A row of cells ending in a run of digits, with a gap appended, emits
      what precedes the run and then the run's value exactly when one of its
      digits touches a symbol. */
  lemma CellsEndingInRun(cells: seq<(char, bool)>, k: nat)
    requires k < |cells| && (k == 0 || !IsDigit(cells[k - 1].0))
    requires AllDigitCells(cells[k..])
    ensures var run := cells[k..];
      AllDigits(RunText(run))
      && Scan(Start, cells + [('.', false)]).partNumbers
         == (if k == 0 then [] else Scan(Start, cells[..k]).partNumbers)
            + (if AnyTouches(run) then [DigitsValue(RunText(run))] else [])
  {
    var run := cells[k..];
    var gap := ('.', false);
    RunThenGap(Start, run, gap);
    if k == 0 {
      assert cells == run;
    } else {
      var before := cells[..k];
      assert before[k - 1] == cells[k - 1];
      assert cells + [gap] == before + (run + [gap]);
      ScanAfterGap(Start, before, run + [gap]);
    }
  }

  /** In the intended scan, a row ending in a run of digits contributes that
      run's value last exactly when one of its digits touches a symbol. */
  lemma RowEndingInNumber(b: Board, y: int, k: nat)
    requires 0 <= y < |b.rows|
    requires k < |b.rows[y]| && (k == 0 || !IsDigit(b.rows[y][k - 1]))
    requires forall i :: k <= i < |b.rows[y]| ==> IsDigit(b.rows[y][i])
    ensures var run := RowCells(b, y)[k..];
      AllDigits(RunText(run))
      && RowPartNumbers(b, y)
         == (if k == 0 then [] else Scan(Start, RowCells(b, y)[..k]).partNumbers)
            + (if AnyTouches(run) then [DigitsValue(RunText(run))] else [])
  {
    var cells := RowCells(b, y);
    assert AllDigitCells(cells[k..]) by {
      forall i | 0 <= i < |cells| - k
        ensures IsDigit(cells[k..][i].0)
      {
        assert cells[k..][i] == cells[k + i];
      }
    }
    assert k == 0 || !IsDigit(cells[k - 1].0);
    CellsEndingInRun(cells, k);
  }

  lemma OneRowFixed(b: Board)
    requires b.rows == ["*1"]
    ensures FixedPartNumbers(b) == [1]
  {
    assert Adjacent(-1, 0) && InBounds(b, 0, 0) && IsSymbol(b.rows[0][0]);
    TouchesSymbolIff(b, 1, 0);
    var r0 := RowCells(b, 0);
    assert r0 + [('.', false)] == [('*', r0[0].1), ('1', true), ('.', false)];
    Scan3(Start, ('*', r0[0].1), ('1', true), ('.', false));
    assert FixedPartNumbers(b) == PartNumbersByRow(b, 0) + RowPartNumbers(b, 0);
  }

  /** The intended scan emits the 1 that ends "*1". */
  lemma FixedKeepsLastNumber()
    ensures FixedPartNumbers(Board(["*1"])) == [1]
  {
    OneRowFixed(Board(["*1"]));
  }

  lemma TwoRowsRow0(b: Board)
    requires b.rows == ["1", "2*"]
    ensures RowPartNumbers(b, 0) == [1]
  {
    assert Adjacent(1, 1) && InBounds(b, 1, 1) && IsSymbol(b.rows[1][1]);
    TouchesSymbolIff(b, 0, 0);
    assert RowCells(b, 0) + [('.', false)] == [('1', true), ('.', false)];
    Scan2(Start, ('1', true), ('.', false));
  }

  lemma TwoRowsRow1(b: Board)
    requires b.rows == ["1", "2*"]
    ensures RowPartNumbers(b, 1) == [2]
  {
    assert Adjacent(1, 0) && InBounds(b, 1, 1) && IsSymbol(b.rows[1][1]);
    TouchesSymbolIff(b, 0, 1);
    var r1 := RowCells(b, 1);
    assert r1 + [('.', false)] == [('2', true), ('*', r1[1].1), ('.', false)];
    Scan3(Start, ('2', true), ('*', r1[1].1), ('.', false));
  }

  /** The intended scan reads "1" and "2" on two rows as two numbers. */
  lemma FixedSplitsRows()
    ensures FixedPartNumbers(Board(["1", "2*"])) == [1, 2]
  {
    var b := Board(["1", "2*"]);
    TwoRowsRow0(b);
    TwoRowsRow1(b);
    assert PartNumbersByRow(b, 2) == PartNumbersByRow(b, 1) + RowPartNumbers(b, 1);
  }
}
