/** The seed almanac's range-mapping engine (day05/src/lib.rs).

    A `MapRange` is one affine rule that sends the source interval
    [sourceRangeStart, sourceRangeStart + rangeLength) onto the destination
    interval of the same length; a `Map` is an ordered table of such rules in
    which the first rule that matches wins and unmatched values pass through.
    The three solvers fold the maps over the seed ranges.  Integers are
    unbounded: the model does not capture i64 overflow. */
module Day05Lib {
  import opened Common

  /** A half-open range start..end, Rust's `Range<i64>`; it may be empty or reversed. */
  datatype Interval = Interval(start: int, end: int)

  datatype MapRange = MapRange(destinationRangeStart: int, sourceRangeStart: int, rangeLength: int)

  datatype Map = Map(name: string, ranges: seq<MapRange>)

  datatype Input = Input(seeds: seq<Interval>, maps: seq<Map>)

  // ---------------------------------------------------------------------------
  // Intervals as sets of points

  function Len(r: Interval): int { r.end - r.start }

  predicate InSpan(r: Interval, v: int) { r.start <= v < r.end }

  ghost function Span(r: Interval): set<int>
  {
    set v | r.start <= v < r.end && InSpan(r, v)
  }

  /** All points covered by a list of ranges. */
  ghost function Points(rs: seq<Interval>): set<int>
  {
    if rs == [] then {} else Points(rs[..|rs| - 1]) + Span(rs[|rs| - 1])
  }

  /** Total length of a list of ranges (a reversed range counts negatively). */
  function SumLen(rs: seq<Interval>): int
  {
    if rs == [] then 0 else SumLen(rs[..|rs| - 1]) + Len(rs[|rs| - 1])
  }

  /** Total length of the non-empty ranges: the work left on the stack. */
  function Work(rs: seq<Interval>): nat
  {
    if rs == [] then 0
    else Work(rs[..|rs| - 1]) + (if Len(rs[|rs| - 1]) > 0 then Len(rs[|rs| - 1]) else 0)
  }

  lemma {:induction false} PointsAppend(a: seq<Interval>, b: seq<Interval>)
    ensures Points(a + b) == Points(a) + Points(b)
    ensures SumLen(a + b) == SumLen(a) + SumLen(b)
    decreases |b|
  {
    if b == [] {
      assert a + b == a;
    } else {
      var b' := b[..|b| - 1];
      assert (a + b)[..|a + b| - 1] == a + b';
      PointsAppend(a, b');
    }
  }

  lemma SingletonPoints(r: Interval)
    ensures Points([r]) == Span(r) && SumLen([r]) == Len(r)
  {
    assert [r][..0] == [];
  }

  // ---------------------------------------------------------------------------
  // One rule

  predicate IsContainedInSourceRange(e: MapRange, value: int)
  {
    e.sourceRangeStart <= value < e.sourceRangeStart + e.rangeLength
  }

  predicate IsContainedInDestinationRange(e: MapRange, value: int)
  {
    e.destinationRangeStart <= value < e.destinationRangeStart + e.rangeLength
  }

  function Convert(e: MapRange, value: int): (r: Option<int>)
    ensures r.Some? <==> IsContainedInSourceRange(e, value)
    ensures r.Some? ==> IsContainedInDestinationRange(e, r.value)
    ensures r.Some? ==> r.value - e.destinationRangeStart == value - e.sourceRangeStart
  {
    if IsContainedInSourceRange(e, value)
    then Some(e.destinationRangeStart + (value - e.sourceRangeStart))
    else None
  }

  function Unconvert(e: MapRange, value: int): (r: Option<int>)
    ensures r.Some? <==> IsContainedInDestinationRange(e, value)
    ensures r.Some? ==> IsContainedInSourceRange(e, r.value)
    ensures r.Some? ==> r.value - e.sourceRangeStart == value - e.destinationRangeStart
  {
    if IsContainedInDestinationRange(e, value)
    then Some(e.sourceRangeStart + (value - e.destinationRangeStart))
    else None
  }

  /** `unconvert` undoes `convert` on a single rule, and conversely. */
  lemma ConvertRoundTrip(e: MapRange, value: int)
    ensures IsContainedInSourceRange(e, value) ==> Unconvert(e, Convert(e, value).value) == Some(value)
    ensures IsContainedInDestinationRange(e, value) ==> Convert(e, Unconvert(e, value).value) == Some(value)
  {
  }

  /** A rule of length zero or less never matches. */
  lemma EmptyRuleIsInert(e: MapRange, value: int)
    requires e.rangeLength <= 0
    ensures Convert(e, value) == None && Unconvert(e, value) == None
  {
  }

  // ---------------------------------------------------------------------------
  // A table of rules: first match wins, identity otherwise

  /** Index of the first rule whose source range holds `value`, or |rs| if none does. */
  function FirstSource(rs: seq<MapRange>, value: int): (i: nat)
    ensures i <= |rs|
    ensures i < |rs| ==> IsContainedInSourceRange(rs[i], value)
    ensures forall j :: 0 <= j < i ==> !IsContainedInSourceRange(rs[j], value)
  {
    if rs == [] then 0
    else if IsContainedInSourceRange(rs[0], value) then 0
    else 1 + FirstSource(rs[1..], value)
  }

  /** Index of the first rule whose destination range holds `value`, or |rs| if none does. */
  function FirstDestination(rs: seq<MapRange>, value: int): (i: nat)
    ensures i <= |rs|
    ensures i < |rs| ==> IsContainedInDestinationRange(rs[i], value)
    ensures forall j :: 0 <= j < i ==> !IsContainedInDestinationRange(rs[j], value)
  {
    if rs == [] then 0
    else if IsContainedInDestinationRange(rs[0], value) then 0
    else 1 + FirstDestination(rs[1..], value)
  }

  /** `find_map(convert)`: the first rule that converts. */
  function FindConvert(rs: seq<MapRange>, value: int): Option<int>
  {
    if rs == [] then None
    else match Convert(rs[0], value)
      case Some(v) => Some(v)
      case None => FindConvert(rs[1..], value)
  }

  function FindUnconvert(rs: seq<MapRange>, value: int): Option<int>
  {
    if rs == [] then None
    else match Unconvert(rs[0], value)
      case Some(v) => Some(v)
      case None => FindUnconvert(rs[1..], value)
  }

  lemma {:induction false} FindConvertIsFirst(rs: seq<MapRange>, value: int)
    ensures var i := FirstSource(rs, value);
            FindConvert(rs, value) == if i < |rs| then Convert(rs[i], value) else None
  {
    if rs != [] && !IsContainedInSourceRange(rs[0], value) {
      FindConvertIsFirst(rs[1..], value);
    }
  }

  lemma {:induction false} FindUnconvertIsFirst(rs: seq<MapRange>, value: int)
    ensures var i := FirstDestination(rs, value);
            FindUnconvert(rs, value) == if i < |rs| then Unconvert(rs[i], value) else None
  {
    if rs != [] && !IsContainedInDestinationRange(rs[0], value) {
      FindUnconvertIsFirst(rs[1..], value);
    }
  }

  /** `Map::map`: the first rule in declaration order that holds the value
      shifts it; a value no rule holds passes through unchanged. */
  function MapValue(m: Map, value: int): (r: int)
    ensures var i := FirstSource(m.ranges, value);
            r == if i < |m.ranges|
                 then m.ranges[i].destinationRangeStart + (value - m.ranges[i].sourceRangeStart)
                 else value
  {
    FindConvertIsFirst(m.ranges, value);
    match FindConvert(m.ranges, value)
    case Some(v) => v
    case None => value
  }

  /** `Map::unmap`: first match over `unconvert`, identity otherwise. */
  function UnmapValue(m: Map, value: int): (r: int)
    ensures var i := FirstDestination(m.ranges, value);
            r == if i < |m.ranges|
                 then m.ranges[i].sourceRangeStart + (value - m.ranges[i].destinationRangeStart)
                 else value
  {
    FindUnconvertIsFirst(m.ranges, value);
    match FindUnconvert(m.ranges, value)
    case Some(v) => v
    case None => value
  }

  /** If the rule at index j holds `value` and no earlier rule does, rule j decides. */
  lemma MapValueByRule(m: Map, value: int, j: nat)
    requires j < |m.ranges| && IsContainedInSourceRange(m.ranges[j], value)
    requires forall k :: 0 <= k < j ==> !IsContainedInSourceRange(m.ranges[k], value)
    ensures MapValue(m, value) == m.ranges[j].destinationRangeStart + (value - m.ranges[j].sourceRangeStart)
  {
    var i := FirstSource(m.ranges, value);
    assert i == j;
  }

  /** Whenever some rule's destination holds a value, `unmap` followed by `map`
      returns it, provided that earlier rules hold neither the value (as a
      destination) nor its preimage (as a source). */
  lemma UnmapThenMap(m: Map, value: int)
    requires FirstDestination(m.ranges, value) == FirstSource(m.ranges, UnmapValue(m, value))
    ensures MapValue(m, UnmapValue(m, value)) == value
  {
  }

  // ---------------------------------------------------------------------------
  // Splitting a range along the rules (`Map::map_range`)

  /** `dst` is the pointwise image of `src` under `Map::map`, shifted as a block. */
  ghost predicate ShiftedImage(m: Map, src: Interval, dst: Interval)
  {
    && Len(dst) == Len(src)
    && forall v :: src.start <= v < src.end ==> MapValue(m, v) == dst.start + (v - src.start)
  }

  ghost function Image(m: Map, s: set<int>): set<int>
  {
    set v | v in s :: MapValue(m, v)
  }

  function Max(a: int, b: int): int { if a < b then b else a }

  function Min(a: int, b: int): int { if a < b then a else b }

  /** A rule that does not overlap a range holds none of its points. */
  lemma NoOverlapNoMatch(e: MapRange, r: Interval, v: int)
    requires !(Max(r.start, e.sourceRangeStart) < Min(r.end, e.sourceRangeStart + e.rangeLength))
    requires r.start <= v < r.end
    ensures !IsContainedInSourceRange(e, v)
  {
  }

  lemma SpanSplit(r: Interval, a: int, b: int)
    requires r.start <= a <= b <= r.end
    ensures Span(r) == Span(Interval(r.start, a)) + Span(Interval(a, b)) + Span(Interval(b, r.end))
  {
  }

  predicate Overlaps(e: MapRange, r: Interval)
  {
    Max(r.start, e.sourceRangeStart) < Min(r.end, e.sourceRangeStart + e.rangeLength)
  }

  lemma AppendOne(a: seq<Interval>, x: Interval)
    ensures Points(a + [x]) == Points(a) + Span(x)
    ensures SumLen(a + [x]) == SumLen(a) + Len(x)
    ensures Work(a + [x]) == Work(a) + (if Len(x) > 0 then Len(x) else 0)
  {
    assert (a + [x])[..|a|] == a;
  }

  /** The part of r that rule e's source range covers. */
  function OverlapOf(e: MapRange, r: Interval): Interval
  {
    Interval(Max(r.start, e.sourceRangeStart), Min(r.end, e.sourceRangeStart + e.rangeLength))
  }

  /** Where rule e sends a block of its source range. */
  function ImageOf(e: MapRange, ov: Interval): Interval
  {
    Interval(ov.start - e.sourceRangeStart + e.destinationRangeStart,
             ov.end - e.sourceRangeStart + e.destinationRangeStart)
  }

  /** The left and right remainders that `map_range` pushes back around an overlap. */
  function Remainders(r: Interval, ov: Interval): seq<Interval>
  {
    (if ov.start > r.start then [Interval(r.start, ov.start)] else [])
    + (if r.end > ov.end then [Interval(ov.end, r.end)] else [])
  }

  /** One split step: rule j is the first rule overlapping r.  The overlap is
      mapped as a block by rule j, and the remainders cover the rest of r, are
      non-empty and are together strictly shorter than r. */
  lemma SplitStep(m: Map, r: Interval, j: nat)
    requires j < |m.ranges| && Overlaps(m.ranges[j], r)
    requires forall k :: 0 <= k < j ==> !Overlaps(m.ranges[k], r)
    ensures var ov := OverlapOf(m.ranges[j], r);
            var pushed := Remainders(r, ov);
            && ShiftedImage(m, ov, ImageOf(m.ranges[j], ov))
            && Span(r) == Span(ov) + Points(pushed)
            && Len(r) == Len(ov) + SumLen(pushed)
            && Work(pushed) < Len(r)
            && (forall i :: 0 <= i < |pushed| ==> Len(pushed[i]) > 0)
  {
    OverlapMapsAsBlock(m, r, j);
    RemaindersCover(r, OverlapOf(m.ranges[j], r));
  }

  /** The overlap with the first overlapping rule j is mapped by rule j as a block. */
  lemma OverlapMapsAsBlock(m: Map, r: Interval, j: nat)
    requires j < |m.ranges| && Overlaps(m.ranges[j], r)
    requires forall k :: 0 <= k < j ==> !Overlaps(m.ranges[k], r)
    ensures ShiftedImage(m, OverlapOf(m.ranges[j], r), ImageOf(m.ranges[j], OverlapOf(m.ranges[j], r)))
  {
    var e := m.ranges[j];
    var ov := OverlapOf(e, r);
    var os, oe := ov.start, ov.end;
    forall v | os <= v < oe
      ensures MapValue(m, v) == ImageOf(e, ov).start + (v - os)
    {
      forall k | 0 <= k < j ensures !IsContainedInSourceRange(m.ranges[k], v) {
        NoOverlapNoMatch(m.ranges[k], r, v);
      }
      MapValueByRule(m, v, j);
    }
  }

  /** A non-empty sub-range ov of r and the remainders around it cover r;
      the remainders are non-empty and shorter than r. */
  lemma RemaindersCover(r: Interval, ov: Interval)
    requires r.start <= ov.start < ov.end <= r.end
    ensures var pushed := Remainders(r, ov);
            && Span(r) == Span(ov) + Points(pushed)
            && Len(r) == Len(ov) + SumLen(pushed)
            && Work(pushed) < Len(r)
            && (forall i :: 0 <= i < |pushed| ==> Len(pushed[i]) > 0)
  {
    var left, right := Interval(r.start, ov.start), Interval(ov.end, r.end);
    assert Span(r) == Span(left) + Span(ov) + Span(right) by {
      SpanSplit(r, ov.start, ov.end);
    }
    RemaindersParts(r, ov);
  }

  /** The remainders hold the points and the length of the parts of r left
      and right of ov. */
  lemma RemaindersParts(r: Interval, ov: Interval)
    requires r.start <= ov.start < ov.end <= r.end
    ensures var pushed := Remainders(r, ov);
            var left, right := Interval(r.start, ov.start), Interval(ov.end, r.end);
            && Points(pushed) == Span(left) + Span(right)
            && SumLen(pushed) == Len(left) + Len(right)
            && Work(pushed) == Len(left) + Len(right)
            && (forall i :: 0 <= i < |pushed| ==> Len(pushed[i]) > 0)
  {
    var left, right := Interval(r.start, ov.start), Interval(ov.end, r.end);
    var l: seq<Interval> := if ov.start > r.start then [left] else [];
    var rt: seq<Interval> := if r.end > ov.end then [right] else [];
    assert Points(l) == Span(left) && SumLen(l) == Len(left) && Work(l) == Len(left) by {
      if ov.start > r.start {
        AppendOne([], left);
        assert [] + [left] == [left];
      } else {
        assert Span(left) == {};
      }
    }
    assert Points(rt) == Span(right) && SumLen(rt) == Len(right) && Work(rt) == Len(right) by {
      if r.end > ov.end {
        AppendOne([], right);
        assert [] + [right] == [right];
      } else {
        assert Span(right) == {};
      }
    }
    PointsAppend(l, rt);
    WorkAppend(l, rt);
  }

  /** A popped range that no rule overlaps is mapped by the identity. */
  lemma PassThrough(m: Map, r: Interval)
    requires forall k :: 0 <= k < |m.ranges| ==> !Overlaps(m.ranges[k], r)
    ensures ShiftedImage(m, r, r)
  {
    forall v | r.start <= v < r.end
      ensures MapValue(m, v) == r.start + (v - r.start)
    {
      var i := FirstSource(m.ranges, v);
      if i < |m.ranges| {
        NoOverlapNoMatch(m.ranges[i], r, v);
      }
    }
  }

  /** The loop invariant of the splitter: `pieces` are the already-mapped
      sub-ranges of `range`, `mappings` their images, and `stack` the rest. */
  ghost predicate SplitInv(m: Map, range: Interval, mappings: seq<Interval>, pieces: seq<Interval>, stack: seq<Interval>)
  {
    && |pieces| == |mappings|
    && (forall i :: 0 <= i < |mappings| ==> ShiftedImage(m, pieces[i], mappings[i]))
    && Points(pieces) + Points(stack) == Span(range)
    && SumLen(mappings) + SumLen(stack) == Len(range)
    && SumLen(pieces) == SumLen(mappings)
    && (Len(range) > 0 ==> forall i :: 0 <= i < |stack| ==> Len(stack[i]) > 0)
    && (Len(range) > 0 ==> forall i :: 0 <= i < |mappings| ==> Len(mappings[i]) > 0)
    && (Len(range) <= 0 ==> (stack == [range] && mappings == []) || (stack == [] && mappings == [range]))
    && (stack == [] ==> |mappings| >= 1)
  }

  lemma SplitInvInit(m: Map, range: Interval)
    ensures SplitInv(m, range, [], [], [range])
  {
    SingletonPoints(range);
  }

  /** Popping r, whose first overlapping rule is j, keeps the invariant and
      strictly lowers the work left on the stack. */
  lemma OverlapStepKeepsInv(m: Map, range: Interval, mappings: seq<Interval>, pieces: seq<Interval>,
                            rest: seq<Interval>, r: Interval, j: nat)
    requires SplitInv(m, range, mappings, pieces, rest + [r])
    requires j < |m.ranges| && Overlaps(m.ranges[j], r)
    requires forall k :: 0 <= k < j ==> !Overlaps(m.ranges[k], r)
    ensures var ov := OverlapOf(m.ranges[j], r);
            && SplitInv(m, range, mappings + [ImageOf(m.ranges[j], ov)], pieces + [ov], rest + Remainders(r, ov))
            && Work(rest + Remainders(r, ov)) < Work(rest + [r])
  {
    var e := m.ranges[j];
    var ov := OverlapOf(e, r);
    var pushed := Remainders(r, ov);
    var stack := rest + [r];
    var mappings', pieces', stack' := mappings + [ImageOf(e, ov)], pieces + [ov], rest + pushed;
    SplitStep(m, r, j);
    assert Points(pieces') + Points(stack') == Span(range) by {
      AppendOne(rest, r);
      AppendOne(pieces, ov);
      PointsAppend(rest, pushed);
    }
    assert SumLen(mappings') + SumLen(stack') == Len(range) && SumLen(pieces') == SumLen(mappings') by {
      AppendOne(rest, r);
      AppendOne(pieces, ov);
      AppendOne(mappings, ImageOf(e, ov));
      PointsAppend(rest, pushed);
    }
    assert Work(stack') < Work(stack) by {
      AppendOne(rest, r);
      WorkAppend(rest, pushed);
    }
    if Len(range) > 0 {
      assert r == stack[|stack| - 1];
      forall i | 0 <= i < |stack'| ensures Len(stack'[i]) > 0 {
        if i < |rest| { assert stack'[i] == stack[i]; }
      }
      assert Len(ImageOf(e, ov)) > 0 by {
        AppendOne(mappings, ImageOf(e, ov));
      }
    }
    forall i | 0 <= i < |mappings'| ensures ShiftedImage(m, pieces'[i], mappings'[i]) {
      if i < |mappings| {
        assert pieces'[i] == pieces[i] && mappings'[i] == mappings[i];
      }
    }
  }

  /** Popping r when no rule overlaps it keeps the invariant. */
  lemma PassStepKeepsInv(m: Map, range: Interval, mappings: seq<Interval>, pieces: seq<Interval>,
                         rest: seq<Interval>, r: Interval)
    requires SplitInv(m, range, mappings, pieces, rest + [r])
    requires forall k :: 0 <= k < |m.ranges| ==> !Overlaps(m.ranges[k], r)
    ensures SplitInv(m, range, mappings + [r], pieces + [r], rest)
    ensures Work(rest) <= Work(rest + [r])
  {
    PassThrough(m, r);
    AppendOne(rest, r);
    AppendOne(pieces, r);
    AppendOne(mappings, r);
    var stack := rest + [r];
    if Len(range) > 0 {
      assert r == stack[|stack| - 1];
      forall i | 0 <= i < |rest| ensures Len(rest[i]) > 0 {
        assert rest[i] == stack[i];
      }
    } else {
      assert |stack| == 1;
      assert rest == [];
    }
    var mappings' := mappings + [r];
    var pieces' := pieces + [r];
    forall i | 0 <= i < |mappings'| ensures ShiftedImage(m, pieces'[i], mappings'[i]) {
      if i < |mappings| {
        assert pieces'[i] == pieces[i] && mappings'[i] == mappings[i];
      }
    }
  }

  /** `Map::map_range`: splits `range` along the rules of `m` with a work list
      and maps every fragment as a block.  `pieces` (ghost) are the sub-ranges
      of `range` that the returned fragments are the images of. */
  method MapRangeSplit(m: Map, range: Interval) returns (mappings: seq<Interval>, ghost pieces: seq<Interval>)
    ensures |mappings| >= 1 && |pieces| == |mappings|
    ensures forall i :: 0 <= i < |mappings| ==> ShiftedImage(m, pieces[i], mappings[i])
    ensures Points(pieces) == Span(range)
    ensures SumLen(pieces) == Len(range)
    ensures SumLen(mappings) == Len(range)
    ensures Len(range) > 0 ==> forall i :: 0 <= i < |mappings| ==> Len(mappings[i]) > 0
    ensures Len(range) <= 0 ==> mappings == [range]
  {
    var rangesToMap := [range];
    mappings := [];
    pieces := [];
    SplitInvInit(m, range);
    while rangesToMap != []
      invariant SplitInv(m, range, mappings, pieces, rangesToMap)
      decreases Work(rangesToMap), |rangesToMap|
    {
      var r := rangesToMap[|rangesToMap| - 1];
      var rest := rangesToMap[..|rangesToMap| - 1];
      assert rangesToMap == rest + [r];
      // scan the rules in order for the first one overlapping r
      var doesOverlap := false;
      var j := 0;
      while j < |m.ranges| && !doesOverlap
        invariant 0 <= j <= |m.ranges|
        invariant doesOverlap ==> 0 < j && Overlaps(m.ranges[j - 1], r)
        invariant forall k :: 0 <= k < (if doesOverlap then j - 1 else j) ==> !Overlaps(m.ranges[k], r)
      {
        doesOverlap := Overlaps(m.ranges[j], r);
        j := j + 1;
      }
      ghost var before := Work(rangesToMap);
      if doesOverlap {
        var e := m.ranges[j - 1];
        var overlap := OverlapOf(e, r);
        OverlapStepKeepsInv(m, range, mappings, pieces, rest, r, j - 1);
        mappings, pieces, rangesToMap :=
          mappings + [ImageOf(e, overlap)], pieces + [overlap], rest + Remainders(r, overlap);
        assert Work(rangesToMap) < before;
      } else {
        PassStepKeepsInv(m, range, mappings, pieces, rest, r);
        mappings, pieces, rangesToMap := mappings + [r], pieces + [r], rest;
        assert Work(rangesToMap) <= before;
      }
    }
  }

  lemma {:induction false} WorkAppend(a: seq<Interval>, b: seq<Interval>)
    ensures Work(a + b) == Work(a) + Work(b)
    decreases |b|
  {
    if b == [] {
      assert a + b == a;
    } else {
      assert (a + b)[..|a + b| - 1] == a + b[..|b| - 1];
      WorkAppend(a, b[..|b| - 1]);
    }
  }

  // ---------------------------------------------------------------------------
  // Folding the stages

  /** A seed's location: `map` applied by every stage in order (the fold in
      `lowest_location_bf`). */
  function Forward(maps: seq<Map>, v: int): int
  {
    if maps == [] then v else MapValue(maps[|maps| - 1], Forward(maps[..|maps| - 1], v))
  }

  /** A location's candidate seed: `unmap` applied by the stages in reverse order. */
  function Backward(maps: seq<Map>, v: int): int
  {
    if maps == [] then v else Backward(maps[..|maps| - 1], UnmapValue(maps[|maps| - 1], v))
  }

  /** The locations of a set of seeds. */
  ghost function Locations(maps: seq<Map>, s: set<int>): set<int>
  {
    set v | v in s :: Forward(maps, v)
  }

  lemma LocationsUnion(maps: seq<Map>, a: set<int>, b: set<int>)
    ensures Locations(maps, a + b) == Locations(maps, a) + Locations(maps, b)
  {
  }

  /** Every location some seed reaches. */
  ghost function Reachable(maps: seq<Map>, seeds: seq<Interval>): set<int>
  {
    Locations(maps, Points(seeds))
  }

  /** `x` is the least element of `s`. */
  ghost predicate IsLeast(x: int, s: set<int>)
  {
    x in s && forall y :: y in s ==> x <= y
  }

  lemma LeastIsUnique(x: int, y: int, s: set<int>)
    requires IsLeast(x, s) && IsLeast(y, s)
    ensures x == y
  {
  }

  // ---------------------------------------------------------------------------
  // Brute force

  function MinOption(a: Option<int>, b: Option<int>): (r: Option<int>)
    ensures r.None? <==> a.None? && b.None?
    ensures r.Some? ==> (a.Some? && r.value == a.value) || (b.Some? && r.value == b.value)
    ensures a.Some? ==> r.Some? && r.value <= a.value
    ensures b.Some? ==> r.Some? && r.value <= b.value
  {
    match (a, b)
    case (None, _) => b
    case (_, None) => a
    case (Some(x), Some(y)) => Some(if x <= y then x else y)
  }

  /** The least location of the seeds in `r`, visited in increasing order. */
  function LowestOverRange(maps: seq<Map>, r: Interval): (res: Option<int>)
    ensures res.None? <==> Span(r) == {}
    ensures res.Some? ==> IsLeast(res.value, Locations(maps, Span(r)))
    decreases Len(r)
  {
    if r.start >= r.end then
      assert forall v :: v !in Span(r);
      None
    else
      var rest := LowestOverRange(maps, Interval(r.start + 1, r.end));
      assert Span(r) == {r.start} + Span(Interval(r.start + 1, r.end));
      LocationsUnion(maps, {r.start}, Span(Interval(r.start + 1, r.end)));
      assert Locations(maps, {r.start}) == {Forward(maps, r.start)};
      MinOption(Some(Forward(maps, r.start)), rest)
  }

  /** `lowest_location_bf`: the least location over every value of every seed
      range; `None` where the Rust code's `min().unwrap()` panics. */
  function LowestLocationBf(maps: seq<Map>, seeds: seq<Interval>): (res: Option<int>)
    ensures res.None? <==> Points(seeds) == {}
    ensures res.Some? ==> IsLeast(res.value, Reachable(maps, seeds))
  {
    if seeds == [] then None
    else
      var init := seeds[..|seeds| - 1];
      var last := seeds[|seeds| - 1];
      var a := LowestLocationBf(maps, init);
      var b := LowestOverRange(maps, last);
      assert Points(seeds) == Points(init) + Span(last);
      LocationsUnion(maps, Points(init), Span(last));
      MinOption(a, b)
  }

  // ---------------------------------------------------------------------------
  // Interval propagation

  /** A block-shifted fragment covers exactly the image of its piece. */
  lemma ShiftedImageSpan(m: Map, p: Interval, d: Interval)
    requires ShiftedImage(m, p, d)
    ensures Span(d) == Image(m, Span(p))
  {
    forall w | w in Span(d) ensures w in Image(m, Span(p)) {
      var v := p.start + (w - d.start);
      assert InSpan(p, v) && MapValue(m, v) == w;
    }
  }

  /** The fragments of `map_range` together cover the image of the pieces. */
  lemma {:induction false} FragmentsCoverImage(m: Map, pieces: seq<Interval>, frags: seq<Interval>)
    requires |pieces| == |frags|
    requires forall i :: 0 <= i < |frags| ==> ShiftedImage(m, pieces[i], frags[i])
    ensures Points(frags) == Image(m, Points(pieces))
    decreases |frags|
  {
    if frags != [] {
      var n := |frags| - 1;
      FragmentsCoverImage(m, pieces[..n], frags[..n]);
      ShiftedImageSpan(m, pieces[n], frags[n]);
    }
  }

  /** Mapping the locations after some stages by one more stage. */
  lemma LocationsStep(maps: seq<Map>, i: nat, s: set<int>)
    requires i < |maps|
    ensures Image(maps[i], Locations(maps[..i], s)) == Locations(maps[..i + 1], s)
  {
    assert maps[..i + 1][..i] == maps[..i];
  }

  /** `out` is the image under `m` of the seed ranges `done`, of the same total length. */
  ghost predicate Covers(m: Map, out: seq<Interval>, done: seq<Interval>)
  {
    Points(out) == Image(m, Points(done)) && SumLen(out) == SumLen(done)
  }

  /** Appending the fragments of one more seed range keeps the output the
      image of the seed ranges done so far, of the same total length. */
  lemma MapRangesStep(m: Map, out: seq<Interval>, frags: seq<Interval>, pieces: seq<Interval>,
                      done: seq<Interval>, r: Interval, next: seq<Interval>)
    requires next == done + [r]
    requires Covers(m, out, done)
    requires |pieces| == |frags| && forall i :: 0 <= i < |frags| ==> ShiftedImage(m, pieces[i], frags[i])
    requires Points(pieces) == Span(r) && SumLen(frags) == Len(r)
    ensures Covers(m, out + frags, next)
  {
    assert Points(frags) == Image(m, Span(r)) by {
      FragmentsCoverImage(m, pieces, frags);
    }
    AppendOne(done, r);
    PointsAppend(out, frags);
    ImageUnion(m, Points(done), Span(r));
  }

  predicate AllNonEmpty(rs: seq<Interval>)
  {
    forall k :: 0 <= k < |rs| ==> Len(rs[k]) > 0
  }

  lemma AllNonEmptyAppend(a: seq<Interval>, b: seq<Interval>)
    requires AllNonEmpty(a) && AllNonEmpty(b)
    ensures AllNonEmpty(a + b)
  {
    forall k | 0 <= k < |a + b| ensures Len((a + b)[k]) > 0 {
      if k < |a| { assert (a + b)[k] == a[k]; }
      else { assert (a + b)[k] == b[k - |a|]; }
    }
  }

  lemma ImageUnion(m: Map, a: set<int>, b: set<int>)
    ensures Image(m, a + b) == Image(m, a) + Image(m, b)
  {
  }

  /** The fragments of one seed range stay in the order `flat_map` emits them. */
  method MapRanges(m: Map, seeds: seq<Interval>) returns (out: seq<Interval>)
    ensures Points(out) == Image(m, Points(seeds))
    ensures SumLen(out) == SumLen(seeds)
    ensures out == [] <==> seeds == []
    ensures (forall i :: 0 <= i < |seeds| ==> Len(seeds[i]) > 0) ==> forall i :: 0 <= i < |out| ==> Len(out[i]) > 0
  {
    out := [];
    var i := 0;
    ghost var done: seq<Interval> := [];
    while i < |seeds|
      invariant 0 <= i <= |seeds| && done == seeds[..i]
      invariant Covers(m, out, done)
      invariant out == [] <==> i == 0
      invariant (forall k :: 0 <= k < |seeds| ==> Len(seeds[k]) > 0) ==> forall k :: 0 <= k < |out| ==> Len(out[k]) > 0
    {
      var frags, pieces := MapRangeSplit(m, seeds[i]);
      ghost var next := seeds[..i + 1];
      assert next == done + [seeds[i]];
      MapRangesStep(m, out, frags, pieces, done, seeds[i], next);
      if forall k :: 0 <= k < |seeds| ==> Len(seeds[k]) > 0 {
        assert Len(seeds[i]) > 0;
        AllNonEmptyAppend(out, frags);
      }
      out, i, done := out + frags, i + 1, next;
    }
    assert seeds[..i] == seeds;
  }

  /** The least start of a list of ranges (`map(|r| r.start).min()`). */
  function MinStart(rs: seq<Interval>): (res: Option<int>)
    ensures res.None? <==> rs == []
    ensures res.Some? ==> exists i :: 0 <= i < |rs| && res.value == rs[i].start
    ensures res.Some? ==> forall i :: 0 <= i < |rs| ==> res.value <= rs[i].start
  {
    if rs == [] then None
    else
      var init := MinStart(rs[..|rs| - 1]);
      var last := rs[|rs| - 1].start;
      if init.Some? && init.value <= last then init else Some(last)
  }

  /** Over non-empty ranges, the least start is the least point. */
  lemma {:induction false} MinStartIsLeastPoint(rs: seq<Interval>)
    requires forall i :: 0 <= i < |rs| ==> Len(rs[i]) > 0
    ensures MinStart(rs).Some? <==> Points(rs) != {}
    ensures MinStart(rs).Some? ==> IsLeast(MinStart(rs).value, Points(rs))
    decreases |rs|
  {
    if rs != [] {
      var n := |rs| - 1;
      MinStartIsLeastPoint(rs[..n]);
      assert rs[n].start in Span(rs[n]);
      forall v | v in Points(rs) ensures MinStart(rs).value <= v {
        if v !in Span(rs[n]) {
          assert v in Points(rs[..n]);
        }
      }
    }
  }

  /** `lowest_location_intervals`: every stage splits every range with
      `map_range`; the answer is the least start among the final ranges, and
      `None` where the Rust code panics on an empty seed list.  Over non-empty
      seed ranges it agrees with the brute force. */
  method LowestLocationIntervals(maps: seq<Map>, seeds: seq<Interval>) returns (res: Option<int>)
    ensures res.None? <==> seeds == []
    ensures (forall i :: 0 <= i < |seeds| ==> Len(seeds[i]) > 0) ==> res == LowestLocationBf(maps, seeds)
  {
    var current := seeds;
    var i := 0;
    assert maps[..0] == [];
    forall v | v in Points(seeds) ensures v in Locations([], Points(seeds)) {
      assert Forward([], v) == v;
    }
    while i < |maps|
      invariant 0 <= i <= |maps|
      invariant Points(current) == Reachable(maps[..i], seeds)
      invariant current == [] <==> seeds == []
      invariant (forall k :: 0 <= k < |seeds| ==> Len(seeds[k]) > 0) ==> forall k :: 0 <= k < |current| ==> Len(current[k]) > 0
    {
      current := MapRanges(maps[i], current);
      LocationsStep(maps, i, Points(seeds));
      i := i + 1;
    }
    assert maps[..i] == maps;
    res := MinStart(current);
    if forall k :: 0 <= k < |seeds| ==> Len(seeds[k]) > 0 {
      MinStartIsLeastPoint(current);
      var bf := LowestLocationBf(maps, seeds);
      if res.Some? {
        LeastIsUnique(res.value, bf.value, Reachable(maps, seeds));
      }
    }
  }

  // ---------------------------------------------------------------------------
  // Backward scan

  /** `seeds.iter().any(|s| s.contains(&v))`. */
  function SeedsContain(seeds: seq<Interval>, v: int): (r: bool)
    ensures r <==> v in Points(seeds)
  {
    if seeds == [] then false
    else SeedsContain(seeds[..|seeds| - 1], v) || InSpan(seeds[|seeds| - 1], v)
  }

  /** `unmap` is a two-sided inverse of `map` on this stage. */
  ghost predicate StageIsBijection(m: Map)
  {
    && (forall v :: UnmapValue(m, MapValue(m, v)) == v)
    && (forall v :: MapValue(m, UnmapValue(m, v)) == v)
  }

  ghost predicate AllStagesBijections(maps: seq<Map>)
  {
    forall i :: 0 <= i < |maps| ==> StageIsBijection(maps[i])
  }

  /** With every stage a bijection, the backward chain inverts the forward fold. */
  lemma {:induction false} BackwardInvertsForward(maps: seq<Map>, v: int, l: int)
    requires AllStagesBijections(maps)
    ensures Backward(maps, Forward(maps, v)) == v
    ensures Forward(maps, Backward(maps, l)) == l
    decreases |maps|
  {
    if maps != [] {
      var n := |maps| - 1;
      assert StageIsBijection(maps[n]);
      BackwardInvertsForward(maps[..n], v, UnmapValue(maps[n], l));
    }
  }

  /** With every stage a bijection, a location is reachable exactly when its
      backward chain lands in a seed range. */
  lemma BackwardMembership(maps: seq<Map>, seeds: seq<Interval>, l: int)
    requires AllStagesBijections(maps)
    ensures Backward(maps, l) in Points(seeds) <==> l in Reachable(maps, seeds)
  {
    BackwardInvertsForward(maps, 0, l);
    if l in Reachable(maps, seeds) {
      var v :| v in Points(seeds) && Forward(maps, v) == l;
      BackwardInvertsForward(maps, v, l);
    }
  }

  /** `lowest_location_backwards`: tries the locations 0, 1, 2, ... in turn and
      returns the first whose reverse `unmap` chain lands in a seed range.  The
      Rust search is unbounded; here it gives up at `limit`. */
  method LowestLocationBackwards(maps: seq<Map>, seeds: seq<Interval>, limit: nat) returns (res: Option<int>)
    ensures res.Some? ==> 0 <= res.value < limit && Backward(maps, res.value) in Points(seeds)
    ensures res.Some? ==> forall l :: 0 <= l < res.value ==> Backward(maps, l) !in Points(seeds)
    ensures res.None? ==> forall l :: 0 <= l < limit ==> Backward(maps, l) !in Points(seeds)
    ensures AllStagesBijections(maps) && LowestLocationBf(maps, seeds).Some?
            && 0 <= LowestLocationBf(maps, seeds).value < limit
            ==> res == LowestLocationBf(maps, seeds)
  {
    var location := 0;
    while location < limit
      invariant 0 <= location <= limit
      invariant forall l :: 0 <= l < location ==> Backward(maps, l) !in Points(seeds)
    {
      var currentValue := location;
      var k := |maps|;
      assert maps[..k] == maps;
      while k > 0
        invariant 0 <= k <= |maps|
        invariant Backward(maps[..k], currentValue) == Backward(maps, location)
      {
        assert maps[..k][..k - 1] == maps[..k - 1];
        k := k - 1;
        currentValue := UnmapValue(maps[k], currentValue);
      }
      if SeedsContain(seeds, currentValue) {
        res := Some(location);
        if AllStagesBijections(maps) {
          BackwardsAgreement(maps, seeds, location);
        }
        return;
      }
      location := location + 1;
    }
    res := None;
    if AllStagesBijections(maps) {
      BackwardsAgreement(maps, seeds, limit);
    }
  }

  /** The step of the backward scan's agreement with the brute force: if no
      location below `bound` passes the backward test, then under bijective
      stages the least reachable location is not below `bound`, and if `bound`
      passes it, `bound` is that least location. */
  lemma BackwardsAgreement(maps: seq<Map>, seeds: seq<Interval>, bound: nat)
    requires AllStagesBijections(maps)
    requires forall l :: 0 <= l < bound ==> Backward(maps, l) !in Points(seeds)
    ensures var bf := LowestLocationBf(maps, seeds);
            bf.Some? && 0 <= bf.value ==> bound <= bf.value
    ensures var bf := LowestLocationBf(maps, seeds);
            Backward(maps, bound) in Points(seeds) && bf.Some? && 0 <= bf.value
            ==> bf.value == bound
  {
    var bf := LowestLocationBf(maps, seeds);
    if bf.Some? && 0 <= bf.value < bound {
      BackwardMembership(maps, seeds, bf.value);
      assert false;
    }
    if Backward(maps, bound) in Points(seeds) {
      BackwardMembership(maps, seeds, bound);
    }
  }

  // ---------------------------------------------------------------------------
  // The unit tests' examples

  const SeedToSoil := Map("seed-to-soil map", [MapRange(50, 98, 2), MapRange(52, 50, 48)])

  lemma ConvertExamples()
    ensures var e := MapRange(50, 98, 2);
            Convert(e, 97) == None && Convert(e, 98) == Some(50)
            && Convert(e, 99) == Some(51) && Convert(e, 100) == None
  {
  }

  lemma MapExamples()
    ensures MapValue(SeedToSoil, 79) == 81 && MapValue(SeedToSoil, 14) == 14
    ensures MapValue(SeedToSoil, 55) == 57 && MapValue(SeedToSoil, 13) == 13
    ensures MapValue(SeedToSoil, 98) == 50 && MapValue(SeedToSoil, 99) == 51
    ensures MapValue(SeedToSoil, 53) == 55 && MapValue(SeedToSoil, 10) == 10
  {
  }

  lemma UnmapExamples()
    ensures UnmapValue(SeedToSoil, 81) == 79 && UnmapValue(SeedToSoil, 14) == 14
    ensures UnmapValue(SeedToSoil, 57) == 55 && UnmapValue(SeedToSoil, 13) == 13
    ensures UnmapValue(SeedToSoil, 50) == 98 && UnmapValue(SeedToSoil, 51) == 99
    ensures UnmapValue(SeedToSoil, 55) == 53 && UnmapValue(SeedToSoil, 10) == 10
  {
  }
}
