/** Day 14: round rocks 'O' roll over empty ground '.' until they hit a
    cube rock '#', the edge of the platform or another rock.  The platform
    is a two-dimensional array of characters that is tilted in place. */
module Day14 {
  import opened Common
  import opened Text

  /** A cell that is neither empty ground nor a round rock: it never moves
      and nothing rolls past it ('#' in the puzzle input). */
  predicate IsFixed(c: char)
  {
    c != '.' && c != 'O'
  }

  // ---------------------------------------------------------------------
  // One line, its rocks rolling towards place 0

  /** The round rocks in a line. */
  function Rocks(s: seq<char>): (n: nat)
    ensures n <= |s|
  {
    if s == [] then 0 else (if s[0] == 'O' then 1 else 0) + Rocks(s[1..])
  }

  lemma {:induction false} RocksAppend(a: seq<char>, b: seq<char>)
    ensures Rocks(a + b) == Rocks(a) + Rocks(b)
    decreases |a|
  {
    if a == [] {
      assert a + b == b;
    } else {
      assert (a + b)[1..] == a[1..] + b;
      RocksAppend(a[1..], b);
    }
  }

  /** Place `j` ends a stretch a rock can roll along: the end of the line
      or a fixed cell. */
  predicate IsBoundary(s: seq<char>, j: nat)
    requires j <= |s|
  {
    j == |s| || IsFixed(s[j])
  }

  /** The first boundary at or after `i`. */
  function NextBoundary(s: seq<char>, i: nat): (j: nat)
    requires i <= |s|
    ensures i <= j <= |s| && IsBoundary(s, j)
    ensures forall m :: i <= m < j ==> !IsFixed(s[m])
    decreases |s| - i
  {
    if IsBoundary(s, i) then i else NextBoundary(s, i + 1)
  }

  /** The same fixed cells in the same places; every other place is '.' or
      'O' in both. */
  ghost predicate SameFixed(a: seq<char>, b: seq<char>)
  {
    |a| == |b| && forall i :: 0 <= i < |a| ==> (IsFixed(a[i]) || IsFixed(b[i]) ==> a[i] == b[i])
  }

  /** No empty cell directly in front of a round rock: nothing can roll. */
  ghost predicate Settled(s: seq<char>)
  {
    forall i :: 0 <= i && i + 1 < |s| ==> !(s[i] == '.' && s[i + 1] == 'O')
  }

  /** Up to every boundary of `a` there are as many rocks in `b` as in `a`:
      no rock has crossed a fixed cell. */
  ghost predicate SameRocksBefore(a: seq<char>, b: seq<char>)
    requires |a| == |b|
  {
    forall j :: 0 <= j <= |a| && IsBoundary(a, j) ==> Rocks(a[..j]) == Rocks(b[..j])
  }

  /** `b` is `a` after tilting: fixed cells stay, every rock stays between
      the same fixed cells, and nothing can roll any more. */
  ghost predicate Tilted(a: seq<char>, b: seq<char>)
  {
    SameFixed(a, b) && SameRocksBefore(a, b) && Settled(b)
  }

  /** An empty cell put in front of a tilted line sinks below the rocks at
      its head. */
  function SinkSpace(r: seq<char>): (t: seq<char>)
    ensures |t| == |r| + 1
  {
    if r != [] && r[0] == 'O' then ['O'] + SinkSpace(r[1..]) else ['.'] + r
  }

  /** The line once every rock has rolled as far towards place 0 as it
      can. */
  function Roll(s: seq<char>): (r: seq<char>)
    ensures |r| == |s|
  {
    if s == [] then []
    else if s[0] == '.' then SinkSpace(Roll(s[1..]))
    else [s[0]] + Roll(s[1..])
  }

  lemma {:induction false} SinkFixed(r: seq<char>)
    ensures SameFixed(['.'] + r, SinkSpace(r))
    decreases |r|
  {
    if r != [] && r[0] == 'O' {
      SinkFixed(r[1..]);
      var a, b := ['.'] + r, SinkSpace(r);
      var a', b' := ['.'] + r[1..], SinkSpace(r[1..]);
      assert b == ['O'] + b';
      forall i | 0 <= i < |a|
        ensures IsFixed(a[i]) || IsFixed(b[i]) ==> a[i] == b[i]
      {
        if i >= 2 {
          assert a[i] == a'[i - 1] && b[i] == b'[i - 1];
        } else if i == 1 {
          assert a[1] == 'O' && b[1] == b'[0];
          assert !IsFixed(a'[0]);
        }
      }
    }
  }

  lemma {:induction false} SinkSettled(r: seq<char>)
    requires Settled(r)
    ensures Settled(SinkSpace(r))
    decreases |r|
  {
    if r != [] && r[0] == 'O' {
      var t := SinkSpace(r[1..]);
      SinkSettled(r[1..]);
      assert SinkSpace(r) == ['O'] + t;
      forall i | 0 <= i && i + 1 < |['O'] + t|
        ensures !((['O'] + t)[i] == '.' && (['O'] + t)[i + 1] == 'O')
      {
        if i > 0 {
          assert (['O'] + t)[i] == t[i - 1] && (['O'] + t)[i + 1] == t[i];
        }
      }
    } else {
      var t := ['.'] + r;
      forall i | 0 <= i && i + 1 < |t|
        ensures !(t[i] == '.' && t[i + 1] == 'O')
      {
        if i > 0 {
          assert t[i] == r[i - 1] && t[i + 1] == r[i];
        }
      }
    }
  }

  /** Sinking the empty cell does not move it past a boundary: up to it the
      rock count is that of the line without the cell. */
  lemma {:induction false} SinkRocks(r: seq<char>, j: nat)
    requires j <= |r| && IsBoundary(r, j)
    ensures Rocks(SinkSpace(r)[..j + 1]) == Rocks(r[..j])
    decreases |r|
  {
    var t := SinkSpace(r);
    if r != [] && r[0] == 'O' {
      var t' := SinkSpace(r[1..]);
      assert j >= 1;
      SinkRocks(r[1..], j - 1);
      assert t[..j + 1] == ['O'] + t'[..j];
      assert (['O'] + t'[..j])[1..] == t'[..j];
      assert r[..j] == [r[0]] + r[1..][..j - 1];
      assert ([r[0]] + r[1..][..j - 1])[1..] == r[1..][..j - 1];
    } else {
      assert t[..j + 1] == ['.'] + r[..j];
      assert (['.'] + r[..j])[1..] == r[..j];
    }
  }

  /** Rolling one line gives a tilted line. */
  lemma {:induction false} RollTilted(s: seq<char>)
    ensures Tilted(s, Roll(s))
    decreases |s|
  {
    if s != [] {
      var t := s[1..];
      var r := Roll(t);
      RollTilted(t);
      if s[0] == '.' {
        RollTiltedSpace(s, r);
      } else {
        RollTiltedKeep(s, r);
      }
    }
  }

  lemma RollTiltedKeep(s: seq<char>, r: seq<char>)
    requires s != [] && s[0] != '.' && Tilted(s[1..], r)
    ensures Tilted(s, [s[0]] + r)
  {
    var t, b := s[1..], [s[0]] + r;
    assert SameFixed(s, b) by {
      forall i | 0 <= i < |s|
        ensures IsFixed(s[i]) || IsFixed(b[i]) ==> s[i] == b[i]
      {
        if i > 0 {
          assert s[i] == t[i - 1] && b[i] == r[i - 1];
        }
      }
    }
    assert Settled(b) by {
      forall i | 0 <= i && i + 1 < |b|
        ensures !(b[i] == '.' && b[i + 1] == 'O')
      {
        if i > 0 {
          assert b[i] == r[i - 1] && b[i + 1] == r[i];
        }
      }
    }
    forall j | 0 <= j <= |s| && IsBoundary(s, j)
      ensures Rocks(s[..j]) == Rocks(b[..j])
    {
      if j > 0 {
        assert IsBoundary(t, j - 1) by {
          if j < |s| {
            assert s[j] == t[j - 1];
          }
        }
        assert s[..j][1..] == t[..j - 1];
        assert b[..j][1..] == r[..j - 1];
      }
    }
  }

  lemma RollTiltedSpace(s: seq<char>, r: seq<char>)
    requires s != [] && s[0] == '.' && Tilted(s[1..], r)
    ensures Tilted(s, SinkSpace(r))
  {
    var t, b := s[1..], SinkSpace(r);
    assert s == ['.'] + t;
    SinkFixed(r);
    SinkSettled(r);
    assert SameFixed(s, b) by {
      forall i | 0 <= i < |s|
        ensures IsFixed(s[i]) || IsFixed(b[i]) ==> s[i] == b[i]
      {
        var c := (['.'] + r)[i];
        assert IsFixed(c) || IsFixed(b[i]) ==> c == b[i];
        if i > 0 {
          assert s[i] == t[i - 1] && c == r[i - 1];
        }
      }
    }
    forall j | 0 <= j <= |s| && IsBoundary(s, j)
      ensures Rocks(s[..j]) == Rocks(b[..j])
    {
      assert j > 0;
      assert IsBoundary(t, j - 1) by {
        if j < |s| {
          assert s[j] == t[j - 1];
        }
      }
      assert IsBoundary(r, j - 1) by {
        if j < |s| {
          assert t[j - 1] == s[j];
        }
      }
      assert s[..j][1..] == t[..j - 1];
      SinkRocks(r, j - 1);
    }
  }

  /** After a settled empty cell there are no rocks up to the next fixed
      cell. */
  lemma {:induction false} NoRocksAfterSpace(c: seq<char>, i: nat, j: nat)
    requires Settled(c) && i < j <= |c| && c[i] == '.'
    requires forall m :: i <= m < j ==> !IsFixed(c[m])
    ensures Rocks(c[i..j]) == 0
    decreases j - i
  {
    assert c[i..j][1..] == c[i + 1..j];
    if i + 1 < j {
      assert c[i + 1] == '.';
      NoRocksAfterSpace(c, i + 1, j);
    }
  }

  /** Two tilts of the same line that agree before place `i` agree at `i`. */
  lemma TiltedAgreeAt(a: seq<char>, b: seq<char>, c: seq<char>, i: nat)
    requires Tilted(a, b) && Tilted(a, c) && i < |a|
    requires b[..i] == c[..i]
    ensures b[i] == c[i]
  {
    if !IsFixed(a[i]) && b[i] != c[i] {
      if c[i] == '.' {
        NoRockBeforeSpace(a, b, c, i);
      } else {
        NoRockBeforeSpace(a, c, b, i);
      }
    }
  }

  /** Where one tilt has an empty cell, another tilt agreeing before it
      has no rock. */
  lemma NoRockBeforeSpace(a: seq<char>, b: seq<char>, c: seq<char>, i: nat)
    requires Tilted(a, b) && Tilted(a, c) && i < |a|
    requires b[..i] == c[..i] && c[i] == '.'
    ensures b[i] != 'O'
  {
    var j := NextBoundary(a, i);
    assert j > i;
    assert Rocks(b[..j]) == Rocks(c[..j]);
    assert b[..j] == b[..i] + b[i..j];
    assert c[..j] == c[..i] + c[i..j];
    RocksAppend(b[..i], b[i..j]);
    RocksAppend(c[..i], c[i..j]);
    assert forall m :: i <= m < j ==> !IsFixed(c[m]);
    NoRocksAfterSpace(c, i, j);
    assert b[i..j][0] == b[i];
  }

  lemma {:induction false} TiltedAgreeBefore(a: seq<char>, b: seq<char>, c: seq<char>, i: nat)
    requires Tilted(a, b) && Tilted(a, c) && i <= |a|
    ensures b[..i] == c[..i]
    decreases i
  {
    if i > 0 {
      TiltedAgreeBefore(a, b, c, i - 1);
      TiltedAgreeAt(a, b, c, i - 1);
      assert b[..i] == b[..i - 1] + [b[i - 1]];
      assert c[..i] == c[..i - 1] + [c[i - 1]];
    }
  }

  /** A line has exactly one tilted form, and `Roll` computes it. */
  lemma TiltedIsRoll(a: seq<char>, b: seq<char>)
    requires Tilted(a, b)
    ensures b == Roll(a)
  {
    RollTilted(a);
    TiltedAgreeBefore(a, b, Roll(a), |a|);
    assert b == b[..|a|] && Roll(a) == Roll(a)[..|a|];
  }

  /** Tilting a tilted line changes nothing. */
  lemma RollIdempotent(s: seq<char>)
    ensures Roll(Roll(s)) == Roll(s)
  {
    var r := Roll(s);
    RollTilted(s);
    TiltedIsRoll(r, r);
  }

  /** Tilting only moves cells around. */
  lemma {:induction false} SinkPermutes(r: seq<char>)
    ensures multiset(SinkSpace(r)) == multiset(r) + multiset{'.'}
    decreases |r|
  {
    if r != [] && r[0] == 'O' {
      SinkPermutes(r[1..]);
      assert r == [r[0]] + r[1..];
    }
  }

  lemma {:induction false} RollPermutes(s: seq<char>)
    ensures multiset(Roll(s)) == multiset(s)
    decreases |s|
  {
    if s != [] {
      RollPermutes(s[1..]);
      assert s == [s[0]] + s[1..];
      if s[0] == '.' {
        SinkPermutes(Roll(s[1..]));
      }
    }
  }

  // ---------------------------------------------------------------------
  // The bubble passes of `tilt_grid`, on one line

  /** The pair ending at place `k` after its swap. */
  function Swapped(s: seq<char>, k: nat): (t: seq<char>)
    requires 0 < k < |s|
    ensures |t| == |s|
  {
    s[k - 1 := 'O'][k := '.']
  }

  /** An empty cell at `i` has no rock behind it before the next boundary:
      what the passes have finished at `i`. */
  ghost predicate FrontDone(s: seq<char>, i: nat)
    requires i < |s|
  {
    s[i] == '.' ==> forall m :: i < m < NextBoundary(s, i) ==> s[m] != 'O'
  }

  /** Boundaries sit where the fixed cells are. */
  lemma {:induction false} NextBoundarySame(a: seq<char>, b: seq<char>, i: nat)
    requires SameFixed(a, b) && i <= |a|
    ensures NextBoundary(a, i) == NextBoundary(b, i)
    decreases |a| - i
  {
    if i < |a| {
      assert IsFixed(a[i]) <==> IsFixed(b[i]);
      if !IsFixed(a[i]) {
        NextBoundarySame(a, b, i + 1);
      }
    }
  }

  /** One step of a pass: once the pair ending at `k` is dealt with, the
      place before it is finished. */
  lemma FrontStep(s: seq<char>, k: nat)
    requires 0 < k < |s| && FrontDone(s, k)
    requires !(s[k - 1] == '.' && s[k] == 'O')
    ensures FrontDone(s, k - 1)
  {
    if s[k - 1] == '.' && !IsFixed(s[k]) {
      assert NextBoundary(s, k - 1) == NextBoundary(s, k);
    }
  }

  /** A swap within a pass moves a rock one place forward without crossing
      a fixed cell. */
  lemma SwapKeeps(s0: seq<char>, s: seq<char>, k: nat)
    requires 0 < k < |s| && s[k - 1] == '.' && s[k] == 'O'
    requires SameFixed(s0, s) && SameRocksBefore(s0, s)
    ensures SameFixed(s0, Swapped(s, k)) && SameRocksBefore(s0, Swapped(s, k))
    ensures FrontDone(Swapped(s, k), k - 1)
  {
    var t := Swapped(s, k);
    forall j | 0 <= j <= |s0| && IsBoundary(s0, j)
      ensures Rocks(s0[..j]) == Rocks(t[..j])
    {
      assert IsBoundary(s, j);
      if j <= k - 1 {
        assert t[..j] == s[..j];
      } else {
        assert j > k;
        assert s[..j] == s[..k - 1] + ['.', 'O'] + s[k + 1..j];
        assert t[..j] == s[..k - 1] + ['O', '.'] + s[k + 1..j];
        RocksAppend(s[..k - 1] + ['.', 'O'], s[k + 1..j]);
        RocksAppend(s[..k - 1] + ['O', '.'], s[k + 1..j]);
        RocksAppend(s[..k - 1], ['.', 'O']);
        RocksAppend(s[..k - 1], ['O', '.']);
      }
    }
  }

  /** A later swap, behind the boundary of a finished place, leaves it
      finished. */
  lemma SwapKeepsFront(s: seq<char>, i: nat, k: nat)
    requires i + 1 < k < |s| && s[k - 1] == '.' && s[k] == 'O'
    requires FrontDone(s, i)
    ensures FrontDone(Swapped(s, k), i)
  {
    var t := Swapped(s, k);
    if t[i] == '.' {
      NextBoundarySame(s, t, i);
      var nb := NextBoundary(s, i);
      assert k >= nb;
    }
  }

  /** Once every place is finished, nothing can roll. */
  lemma FrontSettled(s: seq<char>)
    requires forall i :: 0 <= i < |s| ==> FrontDone(s, i)
    ensures Settled(s)
  {
    forall i | 0 <= i && i + 1 < |s|
      ensures !(s[i] == '.' && s[i + 1] == 'O')
    {
      if s[i] == '.' && !IsFixed(s[i + 1]) {
        assert FrontDone(s, i);
        assert NextBoundary(s, i) > i + 1;
      }
    }
  }

  // ---------------------------------------------------------------------
  // Directions, and the lines of a platform they tilt

  datatype Direction = North | South | East | West

  /** North and South tilt columns, East and West rows. */
  predicate Vertical(d: Direction)
  {
    d.North? || d.South?
  }

  function LineCount(d: Direction, h: nat, w: nat): nat
  {
    if Vertical(d) then w else h
  }

  function LineLength(d: Direction, h: nat, w: nat): nat
  {
    if Vertical(d) then h else w
  }

  function LineOfCell(d: Direction, r: nat, c: nat): nat
  {
    if Vertical(d) then c else r
  }

  function PlaceOfCell(d: Direction, h: nat, w: nat, r: nat, c: nat): int
  {
    match d
    case North => r
    case South => h - 1 - r
    case West => c
    case East => w - 1 - c
  }

  /** The cell (row, column) at place `p` of line `l` of an `h` by `w`
      platform; place 0 lies on the edge the rocks roll towards. */
  function Cell(d: Direction, h: nat, w: nat, l: nat, p: nat): (rc: (nat, nat))
    requires l < LineCount(d, h, w) && p < LineLength(d, h, w)
    ensures rc.0 < h && rc.1 < w
    ensures LineOfCell(d, rc.0, rc.1) == l && PlaceOfCell(d, h, w, rc.0, rc.1) == p
  {
    match d
    case North => (p, l)
    case South => (h - 1 - p, l)
    case West => (l, p)
    case East => (l, w - 1 - p)
  }

  /** Every cell lies on exactly one line, at one place. */
  lemma CellOfPlace(d: Direction, h: nat, w: nat, r: nat, c: nat)
    requires r < h && c < w
    ensures LineOfCell(d, r, c) < LineCount(d, h, w)
    ensures 0 <= PlaceOfCell(d, h, w, r, c) < LineLength(d, h, w)
    ensures Cell(d, h, w, LineOfCell(d, r, c), PlaceOfCell(d, h, w, r, c)) == (r, c)
  {
  }

  /** A platform as a value: its rows, all of one width. */
  type Grid = seq<seq<char>>

  function Width(G: Grid): nat
  {
    if G == [] then 0 else |G[0]|
  }

  ghost predicate IsGrid(G: Grid)
  {
    forall r :: 0 <= r < |G| ==> |G[r]| == Width(G)
  }

  function LineOf(G: Grid, d: Direction, l: nat): (s: seq<char>)
    requires IsGrid(G) && l < LineCount(d, |G|, Width(G))
    ensures |s| == LineLength(d, |G|, Width(G))
  {
    var h, w := |G|, Width(G);
    seq(LineLength(d, h, w), p requires 0 <= p < LineLength(d, h, w) =>
      G[Cell(d, h, w, l, p).0][Cell(d, h, w, l, p).1])
  }

  /** The platform after tilting it towards `d`: each of its lines
      rolled. */
  function Tilt(G: Grid, d: Direction): (T: Grid)
    requires IsGrid(G)
    ensures IsGrid(T) && |T| == |G| && Width(T) == Width(G)
  {
    var h, w := |G|, Width(G);
    seq(h, r requires 0 <= r < h =>
      seq(w, c requires 0 <= c < w =>
        CellOfPlace(d, h, w, r, c);
        Roll(LineOf(G, d, LineOfCell(d, r, c)))[PlaceOfCell(d, h, w, r, c)]))
  }

  /** Each line of the tilted platform is that line rolled. */
  lemma TiltLines(G: Grid, d: Direction, l: nat)
    requires IsGrid(G) && l < LineCount(d, |G|, Width(G))
    ensures LineOf(Tilt(G, d), d, l) == Roll(LineOf(G, d, l))
  {
    var T := Tilt(G, d);
    var h, w := |G|, Width(G);
    forall p | 0 <= p < LineLength(d, h, w)
      ensures LineOf(T, d, l)[p] == Roll(LineOf(G, d, l))[p]
    {
      var rc := Cell(d, h, w, l, p);
      assert LineOf(T, d, l)[p] == T[rc.0][rc.1];
    }
  }

  /** Lines of a platform are equal when the platforms are. */
  lemma GridOfLines(A: Grid, B: Grid, d: Direction)
    requires IsGrid(A) && IsGrid(B) && |A| == |B| && Width(A) == Width(B)
    requires forall l :: 0 <= l < LineCount(d, |A|, Width(A)) ==> LineOf(A, d, l) == LineOf(B, d, l)
    ensures A == B
  {
    var h, w := |A|, Width(A);
    forall r | 0 <= r < h
      ensures A[r] == B[r]
    {
      forall c | 0 <= c < w
        ensures A[r][c] == B[r][c]
      {
        CellOfPlace(d, h, w, r, c);
        var l, p := LineOfCell(d, r, c), PlaceOfCell(d, h, w, r, c);
        assert LineOf(A, d, l)[p] == LineOf(B, d, l)[p];
      }
    }
  }

  /** Tilting twice the same way changes nothing more. */
  lemma TiltIdempotent(G: Grid, d: Direction)
    requires IsGrid(G)
    ensures Tilt(Tilt(G, d), d) == Tilt(G, d)
  {
    var T := Tilt(G, d);
    forall l | 0 <= l < LineCount(d, |T|, Width(T))
      ensures LineOf(Tilt(T, d), d, l) == LineOf(T, d, l)
    {
      TiltLines(T, d, l);
      TiltLines(G, d, l);
      RollIdempotent(LineOf(G, d, l));
    }
    GridOfLines(Tilt(T, d), T, d);
  }

  /** Each line keeps its cells, only rearranged; fixed cells stay in their
      place, and every rock stays between the same fixed cells. */
  lemma TiltRearranges(G: Grid, d: Direction, l: nat)
    requires IsGrid(G) && l < LineCount(d, |G|, Width(G))
    ensures var a, b := LineOf(G, d, l), LineOf(Tilt(G, d), d, l);
      multiset(b) == multiset(a) && SameFixed(a, b) && SameRocksBefore(a, b)
  {
    TiltLines(G, d, l);
    RollPermutes(LineOf(G, d, l));
    RollTilted(LineOf(G, d, l));
  }

  /** No fixed cell moves, and no cell becomes one. */
  lemma TiltKeepsFixed(G: Grid, d: Direction, r: nat, c: nat)
    requires IsGrid(G) && r < |G| && c < Width(G)
    ensures IsFixed(G[r][c]) || IsFixed(Tilt(G, d)[r][c]) ==> Tilt(G, d)[r][c] == G[r][c]
  {
    var h, w := |G|, Width(G);
    CellOfPlace(d, h, w, r, c);
    var l, p := LineOfCell(d, r, c), PlaceOfCell(d, h, w, r, c);
    TiltRearranges(G, d, l);
    assert LineOf(G, d, l)[p] == G[r][c];
    assert LineOf(Tilt(G, d), d, l)[p] == Tilt(G, d)[r][c];
  }

  /** After tilting North no empty cell lies directly above a round rock. */
  lemma NorthSettled(G: Grid, r: nat, c: nat)
    requires IsGrid(G) && r + 1 < |G| && c < Width(G)
    ensures !(Tilt(G, North)[r][c] == '.' && Tilt(G, North)[r + 1][c] == 'O')
  {
    var T := Tilt(G, North);
    TiltLines(G, North, c);
    RollTilted(LineOf(G, North, c));
    assert LineOf(T, North, c)[r] == T[r][c] && LineOf(T, North, c)[r + 1] == T[r + 1][c];
  }

  // ---------------------------------------------------------------------
  // The platform as a two-dimensional array

  ghost function Cells(g: array2<char>): (G: Grid)
    reads g
    ensures IsGrid(G) && |G| == g.Length0 && (g.Length0 > 0 ==> Width(G) == g.Length1)
  {
    seq(g.Length0, r requires 0 <= r < g.Length0 reads g =>
      seq(g.Length1, c requires 0 <= c < g.Length1 reads g => g[r, c]))
  }

  /** Line `l` of the array, read from place 0. */
  ghost function View(g: array2<char>, d: Direction, l: nat): (s: seq<char>)
    requires l < LineCount(d, g.Length0, g.Length1)
    reads g
    ensures |s| == LineLength(d, g.Length0, g.Length1)
  {
    var h, w := g.Length0, g.Length1;
    seq(LineLength(d, h, w), p requires 0 <= p < LineLength(d, h, w) reads g =>
      g[Cell(d, h, w, l, p).0, Cell(d, h, w, l, p).1])
  }

  lemma ViewIsLine(g: array2<char>, d: Direction, l: nat)
    requires g.Length0 > 0 && l < LineCount(d, g.Length0, g.Length1)
    ensures View(g, d, l) == LineOf(Cells(g), d, l)
  {
    var G := Cells(g);
    forall p | 0 <= p < LineLength(d, g.Length0, g.Length1)
      ensures View(g, d, l)[p] == LineOf(G, d, l)[p]
    {
      var rc := Cell(d, g.Length0, g.Length1, l, p);
      assert G[rc.0][rc.1] == g[rc.0, rc.1];
    }
  }

  /** Place `p` of line `l` set to `x`. */
  method SetPlace(g: array2<char>, d: Direction, l: nat, p: nat, x: char)
    requires l < LineCount(d, g.Length0, g.Length1) && p < LineLength(d, g.Length0, g.Length1)
    modifies g
    ensures View(g, d, l) == old(View(g, d, l))[p := x]
    ensures forall m :: 0 <= m < LineCount(d, g.Length0, g.Length1) && m != l ==>
      View(g, d, m) == old(View(g, d, m))
  {
    var h, w := g.Length0, g.Length1;
    var (r, c) := Cell(d, h, w, l, p);
    g[r, c] := x;
    forall q | 0 <= q < LineLength(d, h, w)
      ensures View(g, d, l)[q] == old(View(g, d, l))[p := x][q]
    {
    }
    forall m | 0 <= m < LineCount(d, h, w) && m != l
      ensures View(g, d, m) == old(View(g, d, m))
    {
      forall q | 0 <= q < LineLength(d, h, w)
        ensures View(g, d, m)[q] == old(View(g, d, m))[q]
      {
      }
    }
  }

  /** The swap of `tilt_grid`: the rock at place `k` of line `l` moves to
      place `k - 1`, which it leaves empty behind. */
  method MoveRock(g: array2<char>, d: Direction, l: nat, k: nat)
    requires l < LineCount(d, g.Length0, g.Length1) && 0 < k < LineLength(d, g.Length0, g.Length1)
    modifies g
    ensures View(g, d, l) == Swapped(old(View(g, d, l)), k)
    ensures forall m :: 0 <= m < LineCount(d, g.Length0, g.Length1) && m != l ==>
      View(g, d, m) == old(View(g, d, m))
  {
    SetPlace(g, d, l, k, '.');
    SetPlace(g, d, l, k - 1, 'O');
  }

  /** What the passes over a line keep: compared with the line `s0` they
      started from, fixed cells and rock counts between them are the same,
      and the places before `j` are finished. */
  ghost predicate Progress(s0: seq<char>, s: seq<char>, j: nat)
  {
    |s0| == |s| && j <= |s| && SameFixed(s0, s) && SameRocksBefore(s0, s) &&
    forall i :: 0 <= i < j ==> FrontDone(s, i)
  }

  /** Moving a rock forward within pass `j` keeps the progress, and
      finishes the place it moves to for this pass. */
  lemma MoveProgress(s0: seq<char>, s: seq<char>, j: nat, k: nat)
    requires Progress(s0, s, j) && j < k < |s| && s[k - 1] == '.' && s[k] == 'O'
    ensures Progress(s0, Swapped(s, k), j) && FrontDone(Swapped(s, k), k - 1)
  {
    SwapKeeps(s0, s, k);
    forall i | 0 <= i < j
      ensures FrontDone(Swapped(s, k), i)
    {
      SwapKeepsFront(s, i, k);
    }
  }

  ghost predicate PassesDone(g: array2<char>, d: Direction, l: nat, s0: seq<char>, j: nat)
    requires l < LineCount(d, g.Length0, g.Length1)
    reads g
  {
    Progress(s0, View(g, d, l), j)
  }

  /** The body of the inner loop of `tilt_grid`: a rock at place `k` with
      an empty cell in front of it moves one place forward. */
  method Step(g: array2<char>, d: Direction, l: nat, j: nat, k: nat, ghost s0: seq<char>)
    requires l < LineCount(d, g.Length0, g.Length1) && j < k < LineLength(d, g.Length0, g.Length1)
    requires PassesDone(g, d, l, s0, j) && FrontDone(View(g, d, l), k)
    modifies g
    ensures PassesDone(g, d, l, s0, j) && FrontDone(View(g, d, l), k - 1)
    ensures forall m :: 0 <= m < LineCount(d, g.Length0, g.Length1) && m != l ==>
      View(g, d, m) == old(View(g, d, m))
  {
    ghost var s := View(g, d, l);
    var (r1, c1) := Cell(d, g.Length0, g.Length1, l, k - 1);
    var (r2, c2) := Cell(d, g.Length0, g.Length1, l, k);
    if g[r1, c1] == '.' && g[r2, c2] == 'O' {
      assert s[k - 1] == '.' && s[k] == 'O';
      MoveProgress(s0, s, j, k);
      MoveRock(g, d, l, k);
    } else {
      assert !(s[k - 1] == '.' && s[k] == 'O');
      FrontStep(s, k);
    }
  }

  /** The inner loop of `tilt_grid`: pass `j` walks the pairs from the far
      edge down to place `j`, so that place `j` is finished. */
  method Pass(g: array2<char>, d: Direction, l: nat, j: nat, ghost s0: seq<char>)
    requires l < LineCount(d, g.Length0, g.Length1) && j < LineLength(d, g.Length0, g.Length1)
    requires PassesDone(g, d, l, s0, j)
    modifies g
    ensures PassesDone(g, d, l, s0, j + 1)
    ensures forall m :: 0 <= m < LineCount(d, g.Length0, g.Length1) && m != l ==>
      View(g, d, m) == old(View(g, d, m))
  {
    var n := LineLength(d, g.Length0, g.Length1);
    for k := n downto j + 1
      invariant PassesDone(g, d, l, s0, j)
      invariant FrontDone(View(g, d, l), k - 1)
      invariant forall m :: 0 <= m < LineCount(d, g.Length0, g.Length1) && m != l ==>
        View(g, d, m) == old(View(g, d, m))
    {
      Step(g, d, l, j, k, s0);
    }
  }

  /** One column (North, South) or row (East, West) of `tilt_grid`: as many
      passes as the line is long.  For South and East the source runs its
      loops over the same pairs in mirror image; here they are the North
      and West passes on places counted from the far edge, in the same
      order. */
  method TiltLine(g: array2<char>, d: Direction, l: nat)
    requires l < LineCount(d, g.Length0, g.Length1)
    modifies g
    ensures View(g, d, l) == Roll(old(View(g, d, l)))
    ensures forall m :: 0 <= m < LineCount(d, g.Length0, g.Length1) && m != l ==>
      View(g, d, m) == old(View(g, d, m))
  {
    var n := LineLength(d, g.Length0, g.Length1);
    ghost var s0 := View(g, d, l);
    for j := 0 to n
      invariant PassesDone(g, d, l, s0, j)
      invariant forall m :: 0 <= m < LineCount(d, g.Length0, g.Length1) && m != l ==>
        View(g, d, m) == old(View(g, d, m))
    {
      Pass(g, d, l, j, s0);
    }
    FrontSettled(View(g, d, l));
    TiltedIsRoll(s0, View(g, d, l));
  }

  /** Every cell takes the value of its place in its rolled line. */
  lemma CellsFromViews(g: array2<char>, d: Direction, G0: Grid)
    requires IsGrid(G0) && |G0| == g.Length0 && (g.Length0 > 0 ==> Width(G0) == g.Length1)
    requires g.Length0 > 0 ==> forall m :: 0 <= m < LineCount(d, g.Length0, g.Length1) ==>
      View(g, d, m) == Roll(LineOf(G0, d, m))
    ensures Cells(g) == Tilt(G0, d)
  {
    var h, w := g.Length0, g.Length1;
    var G, T := Cells(g), Tilt(G0, d);
    forall r | 0 <= r < h
      ensures G[r] == T[r]
    {
      forall c | 0 <= c < w
        ensures G[r][c] == T[r][c]
      {
        CellOfPlace(d, h, w, r, c);
        var l, p := LineOfCell(d, r, c), PlaceOfCell(d, h, w, r, c);
        assert View(g, d, l)[p] == g[r, c];
      }
    }
  }

  /** `tilt_grid`: every column or row of the platform tilted, one after
      the other. */
  method TiltGrid(g: array2<char>, d: Direction)
    modifies g
    ensures Cells(g) == Tilt(old(Cells(g)), d)
  {
    ghost var G0 := Cells(g);
    var lines := LineCount(d, g.Length0, g.Length1);
    if g.Length0 > 0 {
      forall m | 0 <= m < lines
        ensures View(g, d, m) == LineOf(G0, d, m)
      {
        ViewIsLine(g, d, m);
      }
    }
    for l := 0 to lines
      invariant g.Length0 > 0 ==> forall m :: 0 <= m < l ==> View(g, d, m) == Roll(LineOf(G0, d, m))
      invariant g.Length0 > 0 ==> forall m :: l <= m < lines ==> View(g, d, m) == LineOf(G0, d, m)
    {
      TiltLine(g, d, l);
    }
    CellsFromViews(g, d, G0);
  }

  /** One spin cycle: North, West, South, then East. */
  function Cycle(G: Grid): (C: Grid)
    requires IsGrid(G)
    ensures IsGrid(C) && |C| == |G| && Width(C) == Width(G)
  {
    Tilt(Tilt(Tilt(Tilt(G, North), West), South), East)
  }

  /** `tilt_grid_cycle`. */
  method TiltCycle(g: array2<char>)
    modifies g
    ensures Cells(g) == Cycle(old(Cells(g)))
  {
    TiltGrid(g, North);
    TiltGrid(g, West);
    TiltGrid(g, South);
    TiltGrid(g, East);
  }

  /** `n` spin cycles. */
  function Cycles(G: Grid, n: nat): (C: Grid)
    requires IsGrid(G)
    ensures IsGrid(C) && |C| == |G| && Width(C) == Width(G)
  {
    if n == 0 then G else Cycle(Cycles(G, n - 1))
  }

  // ---------------------------------------------------------------------
  // Load on the North support beams

  /** Each round rock weighs the number of rows from it to the South edge,
      its own row included: row `r` of `h` weighs `h - r`. */
  function Load(G: Grid): nat
  {
    if G == [] then 0 else Rocks(G[0]) * |G| + Load(G[1..])
  }

  /** The round rocks of row `r`, counted along it. */
  method RowRocks(g: array2<char>, r: nat) returns (count: nat)
    requires r < g.Length0
    ensures count == Rocks(Cells(g)[r])
  {
    ghost var row := Cells(g)[r];
    count := 0;
    for c := 0 to g.Length1
      invariant count == Rocks(row[..c])
    {
      assert row[..c + 1] == row[..c] + [g[r, c]];
      RocksAppend(row[..c], [g[r, c]]);
      if g[r, c] == 'O' {
        count := count + 1;
      }
    }
    assert row[..g.Length1] == row;
  }

  lemma LoadFront(G: Grid, k: nat)
    requires k < |G|
    ensures Load(G[k..]) == Rocks(G[k]) * (|G| - k) + Load(G[k + 1..])
  {
    assert G[k..][1..] == G[k + 1..];
  }

  /** `compute_total_load`: the rows taken from the South edge up, the
      `j`-th of them weighing `j + 1`. */
  method TotalLoad(g: array2<char>) returns (load: nat)
    ensures load == Load(Cells(g))
  {
    ghost var G := Cells(g);
    var h := g.Length0;
    load := 0;
    for j := 0 to h
      invariant load == Load(G[h - j..])
    {
      var count := RowRocks(g, h - 1 - j);
      LoadFront(G, h - 1 - j);
      load := load + count * (j + 1);
    }
    assert G[h - h..] == G;
  }

  // ---------------------------------------------------------------------
  // Parsing, and the two parts

  function Concat(ls: seq<string>): (s: string)
  {
    if ls == [] then [] else ls[0] + Concat(ls[1..])
  }

  /** `h` rows of width `w`, cut from the front of `flat`. */
  function Rows(flat: string, w: nat, h: nat): (G: Grid)
    requires |flat| == h * w
    ensures |G| == h && forall r :: 0 <= r < h ==> |G[r]| == w
  {
    if h == 0 then []
    else
      assert |flat| == (h - 1) * w + w;
      [flat[..w]] + Rows(flat[w..], w, h - 1)
  }

  /** `parse_grid`: the characters of all lines, laid out in rows as wide
      as the first line.  The source panics when there is no line, or when
      the characters do not fill lines-many rows of that width. */
  function ParseGrid(input: string): (r: Option<Grid>)
    ensures r.Some? <==> Lines(input) != [] && |Concat(Lines(input))| == |Lines(input)| * |Lines(input)[0]|
    ensures r.Some? ==> IsGrid(r.value) && |r.value| == |Lines(input)| && Width(r.value) == |Lines(input)[0]|
  {
    var lines := Lines(input);
    if lines == [] then None
    else
      var flat := Concat(lines);
      if |flat| != |lines| * |lines[0]| then None
      else Some(Rows(flat, |lines[0]|, |lines|))
  }

  /** The rows of a platform, each ended by a newline. */
  function GridText(G: Grid): string
  {
    Join(G + [""], '\n')
  }

  lemma {:induction false} RowsOfConcat(G: Grid, w: nat)
    requires forall r :: 0 <= r < |G| ==> |G[r]| == w
    ensures |Concat(G)| == |G| * w && Rows(Concat(G), w, |G|) == G
    decreases |G|
  {
    if G != [] {
      RowsOfConcat(G[1..], w);
      var flat := Concat(G);
      assert flat == G[0] + Concat(G[1..]);
      assert flat[..w] == G[0] && flat[w..] == Concat(G[1..]);
      assert G == [G[0]] + G[1..];
    }
  }

  /** Reading back a printed platform gives the same platform. */
  lemma ParseGridText(G: Grid)
    requires G != [] && IsGrid(G)
    requires forall r, c :: 0 <= r < |G| && 0 <= c < |G[r]| ==> G[r][c] != '\n' && G[r][c] != '\r'
    ensures ParseGrid(GridText(G)) == Some(G)
  {
    LinesOfJoin(G);
    var lines := Lines(GridText(G));
    forall r | 0 <= r < |G|
      ensures lines[r] == G[r]
    {
      assert StripCr(G[r]) == G[r] by {
        if G[r] != [] {
          assert G[r][|G[r]| - 1] != '\r';
        }
      }
    }
    assert lines == G;
    RowsOfConcat(G, Width(G));
  }

  /** The platform as an array. */
  method NewGrid(G: Grid) returns (g: array2<char>)
    requires IsGrid(G)
    ensures fresh(g) && Cells(g) == G
  {
    g := new char[|G|, Width(G)]((r, c) requires 0 <= r < |G| && 0 <= c < Width(G) => G[r][c]);
    forall r | 0 <= r < |G|
      ensures Cells(g)[r] == G[r]
    {
      assert forall c :: 0 <= c < Width(G) ==> Cells(g)[r][c] == G[r][c];
    }
  }

  /** Part 1 of `main`: the load after one tilt North. */
  method Part1(input: string) returns (load: Option<nat>)
    ensures load.Some? <==> ParseGrid(input).Some?
    ensures load.Some? ==> load.value == Load(Tilt(ParseGrid(input).value, North))
  {
    var parsed := ParseGrid(input);
    if parsed.None? {
      return None;
    }
    var g := NewGrid(parsed.value);
    TiltGrid(g, North);
    var total := TotalLoad(g);
    return Some(total);
  }

  /** Part 2 of `main`: the load after a thousand spin cycles. */
  method Part2(input: string) returns (load: Option<nat>)
    ensures load.Some? <==> ParseGrid(input).Some?
    ensures load.Some? ==> load.value == Load(Cycles(ParseGrid(input).value, 1000))
  {
    var parsed := ParseGrid(input);
    if parsed.None? {
      return None;
    }
    var g := NewGrid(parsed.value);
    for i := 0 to 1000
      invariant Cells(g) == Cycles(parsed.value, i)
    {
      TiltCycle(g);
    }
    var total := TotalLoad(g);
    return Some(total);
  }
}
