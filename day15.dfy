/** Day 15: the HASH algorithm on bytes, and the HASHMAP procedure that
    places labelled lenses into 256 boxes. */
module Day15 {
  import opened Common

  type byte = x: int | 0 <= x < 256

  const Comma: byte := 44
  const Dash: byte := 45
  const Equals: byte := 61
  const Plus: byte := 43
  const NewLine: byte := 10
  const Return: byte := 13

  // ---------------------------------------------------------------------
  // HASH

  /** One byte of HASH in `u8` arithmetic: add the byte, multiply by 17,
      both wrapping around at 256. */
  function HashStep(current: byte, c: byte): byte
  {
    (current + c) % 256 * 17 % 256
  }

  /** HASH continued from `current` over the bytes `s`. */
  function HashFrom(current: byte, s: seq<byte>): byte
    decreases |s|
  {
    if s == [] then current else HashFrom(HashStep(current, s[0]), s[1..])
  }

  function Hash(s: seq<byte>): byte
  {
    HashFrom(0, s)
  }

  /** HASH of a concatenation continues from the HASH of its front. */
  lemma {:induction false} HashFromAppend(current: byte, a: seq<byte>, b: seq<byte>)
    ensures HashFrom(current, a + b) == HashFrom(HashFrom(current, a), b)
    decreases |a|
  {
    if a == [] {
      assert a + b == b;
    } else {
      assert (a + b)[1..] == a[1..] + b;
      HashFromAppend(HashStep(current, a[0]), a[1..], b);
    }
  }

  /** `hash`: the bytes taken in order. */
  method HashBytes(s: seq<byte>) returns (current: byte)
    ensures current == Hash(s)
  {
    current := 0;
    for i := 0 to |s|
      invariant current == Hash(s[..i])
    {
      HashFromAppend(0, s[..i], [s[i]]);
      assert s[..i + 1] == s[..i] + [s[i]];
      current := (current + s[i]) % 256;
      current := current * 17 % 256;
    }
    assert s[..|s|] == s;
  }

  /** "HASH" (bytes 72, 65, 83, 72) hashes to 52. */
  lemma HashExample(s: seq<byte>)
    requires |s| == 4 && s[0] == 72 && s[1] == 65 && s[2] == 83 && s[3] == 72
    ensures Hash(s) == 52
  {
    assert HashStep(0, 72) == 200 && HashStep(200, 65) == 153;
    assert HashStep(153, 83) == 172 && HashStep(172, 72) == 52;
    assert Hash(s) == HashFrom(200, s[1..]);
    assert HashFrom(200, s[1..]) == HashFrom(153, s[2..]) by { assert s[1..][1..] == s[2..]; }
    assert HashFrom(153, s[2..]) == HashFrom(172, s[3..]) by { assert s[2..][1..] == s[3..]; }
    assert HashFrom(172, s[3..]) == HashFrom(52, []) by { assert s[3..][1..] == []; }
  }

  // ---------------------------------------------------------------------
  // Steps

  datatype Lens = Lens(name: seq<byte>, focal: nat)

  /** A step of the initialization sequence: `label=focal` or `label-`. */
  datatype Op = Put(name: seq<byte>, focal: nat) | Take(name: seq<byte>)
  {
    function Name(): seq<byte>
    {
      match this
      case Put(l, _) => l
      case Take(l) => l
    }
  }

  predicate IsDigit(c: byte)
  {
    48 <= c <= 57
  }

  function DigitsValue(s: seq<byte>): nat
    requires forall i :: 0 <= i < |s| ==> IsDigit(s[i])
  {
    if s == [] then 0
    else
      assert IsDigit(s[|s| - 1]);
      DigitsValue(s[..|s| - 1]) * 10 + (s[|s| - 1] as int - 48)
  }

  /** `parse::<usize>()`: an optional '+' and at least one decimal digit. */
  function ParseUsize(s: seq<byte>): (r: Option<nat>)
    ensures r.Some? <==> var d := if s != [] && s[0] == Plus then s[1..] else s;
      d != [] && forall i :: 0 <= i < |d| ==> IsDigit(d[i])
  {
    var digits := if s != [] && s[0] == Plus then s[1..] else s;
    if digits != [] && forall i :: 0 <= i < |digits| ==> IsDigit(digits[i])
    then Some(DigitsValue(digits)) else None
  }

  /** The position of the first '-' or '=', or `|s|` when there is none. */
  function OpIndex(s: seq<byte>): (i: nat)
    ensures i <= |s| && (i < |s| ==> s[i] == Dash || s[i] == Equals)
    ensures forall k :: 0 <= k < i ==> s[k] != Dash && s[k] != Equals
  {
    if s == [] || s[0] == Dash || s[0] == Equals then 0 else 1 + OpIndex(s[1..])
  }

  /** The step's label is everything before its first operator; a step
      without one, or a '=' without a number after it, makes the source
      panic.  Whatever follows a '-' is ignored. */
  function ParseOp(s: seq<byte>): (r: Option<Op>)
    ensures r.Some? ==> r.value.Name() == s[..OpIndex(s)]
    ensures OpIndex(s) == |s| ==> r.None?
  {
    var i := OpIndex(s);
    if i == |s| then None
    else if s[i] == Equals then
      var focal := ParseUsize(s[i + 1..]);
      if focal.None? then None else Some(Put(s[..i], focal.value))
    else Some(Take(s[..i]))
  }

  // ---------------------------------------------------------------------
  // One box

  /** `position` of the lens with this label. */
  function Find(box: seq<Lens>, name: seq<byte>): (r: Option<nat>)
    ensures r.Some? ==> r.value < |box| && box[r.value].name == name
    ensures r.Some? ==> forall k :: 0 <= k < r.value ==> box[k].name != name
    ensures r.None? ==> forall k :: 0 <= k < |box| ==> box[k].name != name
  {
    if box == [] then None
    else if box[0].name == name then Some(0)
    else
      var rest := Find(box[1..], name);
      if rest.None? then None else Some(rest.value + 1)
  }

  /** The effect of one step on the box its label hashes to. */
  function Apply(box: seq<Lens>, op: Op): seq<Lens>
  {
    var at := Find(box, op.Name());
    match op
    case Put(name, focal) =>
      if at.Some? then box[at.value := Lens(name, focal)] else box + [Lens(name, focal)]
    case Take(name) =>
      if at.Some? then box[..at.value] + box[at.value + 1..] else box
  }

  /** No label twice in a box. */
  ghost predicate Distinct(box: seq<Lens>)
  {
    forall i, j :: 0 <= i < j < |box| ==> box[i].name != box[j].name
  }

  /** The labels in box order. */
  function Labels(box: seq<Lens>): (r: seq<seq<byte>>)
    ensures |r| == |box| && forall i :: 0 <= i < |box| ==> r[i] == box[i].name
  {
    seq(|box|, i requires 0 <= i < |box| => box[i].name)
  }

  /** A list with every copy of `x` left out, the rest in order. */
  function Without<T(==)>(xs: seq<T>, x: T): (r: seq<T>)
    ensures x !in r
  {
    if xs == [] then [] else (if xs[0] == x then [] else [xs[0]]) + Without(xs[1..], x)
  }

  /** The focal length of the lens with this label, if any. */
  function FocalOf(box: seq<Lens>, name: seq<byte>): Option<nat>
  {
    var at := Find(box, name);
    if at.Some? then Some(box[at.value].focal) else None
  }

  /** The first lens with a label is the one `Find` returns. */
  lemma FindAt(box: seq<Lens>, name: seq<byte>, i: nat)
    requires i < |box| && box[i].name == name
    requires forall k :: 0 <= k < i ==> box[k].name != name
    ensures Find(box, name) == Some(i)
  {
    var r := Find(box, name);
    assert r.Some?;
    assert !(r.value < i);
    assert !(r.value > i);
  }

  /** '=' sets the focal length of its label, keeping the lens's slot when
      the label is there and adding it at the back otherwise; no other
      label's lens changes. */
  lemma PutSemantics(box: seq<Lens>, name: seq<byte>, focal: nat)
    requires Distinct(box)
    ensures var b := Apply(box, Put(name, focal));
      Distinct(b) && FocalOf(b, name) == Some(focal) &&
      (forall l :: l != name ==> FocalOf(b, l) == FocalOf(box, l)) &&
      Labels(b) == (if Find(box, name).Some? then Labels(box) else Labels(box) + [name])
  {
    var b := Apply(box, Put(name, focal));
    var at := Find(box, name);
    if at.Some? {
      assert Labels(b) == Labels(box);
    } else {
      assert Labels(b) == Labels(box) + [name];
      assert forall k :: 0 <= k < |box| ==> b[k] == box[k];
      FindAt(b, name, |box|);
    }
    forall l | l != name
      ensures FocalOf(b, l) == FocalOf(box, l)
    {
      PutFocal(box, name, focal, l);
    }
  }

  lemma PutFocal(box: seq<Lens>, name: seq<byte>, focal: nat, l: seq<byte>)
    requires l != name
    ensures FocalOf(Apply(box, Put(name, focal)), l) == FocalOf(box, l)
  {
    var b := Apply(box, Put(name, focal));
    var f := Find(box, l);
    assert forall k :: 0 <= k < |box| ==> b[k].name == box[k].name || b[k].name == name;
    assert forall k :: 0 <= k < |box| && box[k].name == l ==> b[k] == box[k];
    if f.Some? {
      FindAt(b, l, f.value);
    } else {
      assert Find(b, l).None?;
    }
  }

  lemma {:induction false} WithoutAbsent<T>(xs: seq<T>, x: T)
    requires x !in xs
    ensures Without(xs, x) == xs
    decreases |xs|
  {
    if xs != [] {
      WithoutAbsent(xs[1..], x);
      assert xs == [xs[0]] + xs[1..];
    }
  }

  lemma {:induction false} WithoutAppend<T>(xs: seq<T>, ys: seq<T>, x: T)
    ensures Without(xs + ys, x) == Without(xs, x) + Without(ys, x)
    decreases |xs|
  {
    if xs == [] {
      assert xs + ys == ys;
    } else {
      assert (xs + ys)[1..] == xs[1..] + ys;
      WithoutAppend(xs[1..], ys, x);
    }
  }

  /** '-' takes out the lens with its label, keeping the other lenses in
      order, and does nothing when the label is not there. */
  lemma TakeSemantics(box: seq<Lens>, name: seq<byte>)
    requires Distinct(box)
    ensures var b := Apply(box, Take(name));
      Distinct(b) && FocalOf(b, name).None? &&
      (forall l :: l != name ==> FocalOf(b, l) == FocalOf(box, l)) &&
      Labels(b) == Without(Labels(box), name)
  {
    var b := Apply(box, Take(name));
    var at := Find(box, name);
    if at.Some? {
      TakeLabels(box, name, at.value);
      forall l | l != name
        ensures FocalOf(b, l) == FocalOf(box, l)
      {
        TakeFocal(box, name, at.value, l);
      }
    } else {
      WithoutAbsent(Labels(box), name);
    }
  }

  lemma LabelsAppend(x: seq<Lens>, y: seq<Lens>)
    ensures Labels(x + y) == Labels(x) + Labels(y)
  {
  }

  lemma TakeLabels(box: seq<Lens>, name: seq<byte>, i: nat)
    requires Distinct(box) && Find(box, name) == Some(i)
    ensures Labels(box[..i] + box[i + 1..]) == Without(Labels(box), name)
    ensures Distinct(box[..i] + box[i + 1..])
  {
    var front, back := Labels(box[..i]), Labels(box[i + 1..]);
    assert box == box[..i] + [box[i]] + box[i + 1..];
    LabelsAppend(box[..i] + [box[i]], box[i + 1..]);
    LabelsAppend(box[..i], [box[i]]);
    LabelsAppend(box[..i], box[i + 1..]);
    assert Labels(box) == front + [name] + back;
    assert name !in back by {
      forall k | 0 <= k < |back|
        ensures back[k] != name
      {
        assert back[k] == box[i + 1 + k].name;
      }
    }
    WithoutSplit(front, name, back);
    DistinctRemove(box, i);
  }

  /** Leaving out the only copy of `x`. */
  lemma WithoutSplit<T>(front: seq<T>, x: T, back: seq<T>)
    requires x !in front && x !in back
    ensures Without(front + [x] + back, x) == front + back
  {
    var mid := front + [x];
    WithoutAppend(front, [x], x);
    WithoutAbsent(front, x);
    WithoutSelf(x);
    assert Without(mid, x) == front by {
      assert front + [] == front;
    }
    WithoutAppend(mid, back, x);
    WithoutAbsent(back, x);
  }

  lemma WithoutSelf<T>(x: T)
    ensures Without([x], x) == []
  {
    assert [x][1..] == [];
  }

  lemma DistinctRemove(box: seq<Lens>, i: nat)
    requires Distinct(box) && i < |box|
    ensures Distinct(box[..i] + box[i + 1..])
  {
    var b := box[..i] + box[i + 1..];
    forall p, q | 0 <= p < q < |b|
      ensures b[p].name != b[q].name
    {
      var p', q' := if p < i then p else p + 1, if q < i then q else q + 1;
      assert b[p] == box[p'] && b[q] == box[q'];
    }
  }

  lemma TakeFocal(box: seq<Lens>, name: seq<byte>, i: nat, l: seq<byte>)
    requires Find(box, name) == Some(i) && l != name
    ensures FocalOf(box[..i] + box[i + 1..], l) == FocalOf(box, l)
  {
    var b := box[..i] + box[i + 1..];
    var f := Find(box, l);
    if f.None? {
      forall k | 0 <= k < |b|
        ensures b[k].name != l
      {
        if k < i { assert b[k] == box[k]; } else { assert b[k] == box[k + 1]; }
      }
    } else {
      var v := f.value;
      var w := if v < i then v else v - 1;
      assert b[w] == box[v];
      forall k | 0 <= k < w
        ensures b[k].name != l
      {
        if k < i { assert b[k] == box[k]; } else { assert b[k] == box[k + 1]; }
      }
      FindAt(b, l, w);
    }
  }

  lemma {:induction false} WithoutSubset<T>(xs: seq<T>, x: T, y: T)
    requires y in Without(xs, x)
    ensures y in xs
    decreases |xs|
  {
    if xs != [] {
      var head := if xs[0] == x then [] else [xs[0]];
      if y !in head {
        assert y in Without(xs[1..], x);
        WithoutSubset(xs[1..], x, y);
      }
    }
  }

  /** A step only brings in its own label. */
  lemma ApplyLabels(box: seq<Lens>, op: Op, y: seq<byte>)
    requires Distinct(box) && y in Labels(Apply(box, op))
    ensures y in Labels(box) || y == op.Name()
  {
    match op
    case Put(name, focal) =>
      PutSemantics(box, name, focal);
    case Take(name) =>
      TakeSemantics(box, name);
      WithoutSubset(Labels(box), name, y);
  }

  // ---------------------------------------------------------------------
  // All the boxes

  /** The 256 boxes, box `i` at index `i`, each with its lenses in slot order. */
  type Boxes = seq<seq<Lens>>

  /** 256 empty boxes. */
  function EmptyBoxes(): (r: Boxes)
    ensures |r| == 256 && forall i :: 0 <= i < 256 ==> r[i] == []
  {
    seq(256, i => [])
  }

  /** One step: the box its label hashes to takes it, the others stay. */
  function Step(bs: Boxes, op: Op): (r: Boxes)
    requires |bs| == 256
    ensures |r| == 256
  {
    var h := Hash(op.Name());
    bs[h := Apply(bs[h], op)]
  }

  /** The steps parsed and carried out in order from `bs`; a step that does
      not parse stops everything, as the source's panic does. */
  function ArrangeFrom(bs: Boxes, steps: seq<seq<byte>>): (r: Option<Boxes>)
    requires |bs| == 256
    ensures r.Some? ==> |r.value| == 256
    ensures r.Some? <==> forall i :: 0 <= i < |steps| ==> ParseOp(steps[i]).Some?
    decreases |steps|
  {
    if steps == [] then Some(bs)
    else
      assert forall i :: 1 <= i < |steps| ==> steps[i] == steps[1..][i - 1];
      match ParseOp(steps[0])
      case None => None
      case Some(op) => ArrangeFrom(Step(bs, op), steps[1..])
  }

  /** The HASHMAP procedure, from empty boxes. */
  function Arrange(steps: seq<seq<byte>>): Option<Boxes>
  {
    ArrangeFrom(EmptyBoxes(), steps)
  }

  /** Each box holds a label at most once, and only labels that hash to it. */
  ghost predicate WellPlaced(bs: Boxes)
  {
    |bs| == 256 &&
    forall i :: 0 <= i < 256 ==>
      Distinct(bs[i]) && forall k :: 0 <= k < |bs[i]| ==> Hash(bs[i][k].name) == i
  }

  /** The focal length the boxes hold for a label: the box it hashes to is
      the only place to look. */
  function Lookup(bs: Boxes, name: seq<byte>): Option<nat>
    requires |bs| == 256
  {
    FocalOf(bs[Hash(name)], name)
  }

  lemma StepWellPlaced(bs: Boxes, op: Op)
    requires WellPlaced(bs)
    ensures WellPlaced(Step(bs, op))
  {
    var h := Hash(op.Name());
    var b: Boxes := Step(bs, op);
    if op.Put? {
      PutSemantics(bs[h], op.name, op.focal);
    } else {
      TakeSemantics(bs[h], op.name);
    }
    forall k | 0 <= k < |b[h]|
      ensures Hash(b[h][k].name) == h
    {
      assert b[h][k].name in Labels(b[h]);
      ApplyLabels(bs[h], op, b[h][k].name);
    }
  }

  /** The boxes behave as a map from labels to focal lengths: '=' binds its
      label, '-' unbinds it, and every other label keeps its binding. */
  lemma StepLookup(bs: Boxes, op: Op, name: seq<byte>)
    requires WellPlaced(bs)
    ensures Lookup(Step(bs, op), name) ==
      if name != op.Name() then Lookup(bs, name)
      else if op.Put? then Some(op.focal) else None
  {
    var h := Hash(op.Name());
    if Hash(name) == h {
      match op
      case Put(l, focal) => PutSemantics(bs[h], l, focal);
      case Take(l) => TakeSemantics(bs[h], l);
    }
  }

  lemma {:induction false} ArrangeWellPlaced(bs: Boxes, steps: seq<seq<byte>>)
    requires WellPlaced(bs) && ArrangeFrom(bs, steps).Some?
    ensures WellPlaced(ArrangeFrom(bs, steps).value)
    decreases |steps|
  {
    if steps != [] {
      var op := ParseOp(steps[0]).value;
      StepWellPlaced(bs, op);
      ArrangeWellPlaced(Step(bs, op), steps[1..]);
    }
  }

  /** After the whole procedure no box holds a label twice, and every lens
      sits in the box its label hashes to. */
  lemma ArrangeIsWellPlaced(steps: seq<seq<byte>>)
    requires Arrange(steps).Some?
    ensures WellPlaced(Arrange(steps).value)
  {
    assert WellPlaced(EmptyBoxes());
    ArrangeWellPlaced(EmptyBoxes(), steps);
  }

  /** `arrange_boxes`: the steps one after another on an array of 256 boxes. */
  method ArrangeBoxes(steps: seq<seq<byte>>) returns (r: Option<array<seq<Lens>>>)
    ensures r.None? <==> Arrange(steps).None?
    ensures r.Some? ==> fresh(r.value) && r.value[..] == Arrange(steps).value
  {
    var boxes := new seq<Lens>[256](_ => []);
    assert boxes[..] == EmptyBoxes();
    for k := 0 to |steps|
      invariant ArrangeFrom(boxes[..], steps[k..]) == Arrange(steps)
    {
      var op := ParseOp(steps[k]);
      if op.None? {
        return None;
      }
      assert steps[k..][1..] == steps[k + 1..];
      var h := HashBytes(op.value.Name());
      boxes[h] := Apply(boxes[h], op.value);
    }
    assert steps[|steps|..] == [];
    return Some(boxes);
  }

  // ---------------------------------------------------------------------
  // Focusing power

  /** Focusing power of the box at 1-based position `n`: each lens weighs
      `n` times its 1-based slot times its focal length. */
  function BoxPower(box: seq<Lens>, n: nat): nat
  {
    if box == [] then 0 else BoxPower(box[..|box| - 1], n) + n * |box| * box[|box| - 1].focal
  }

  /** Focusing power of all the boxes. */
  function Power(bs: Boxes): nat
  {
    if bs == [] then 0 else Power(bs[..|bs| - 1]) + BoxPower(bs[|bs| - 1], |bs|)
  }

  /** `compute_focusing_power`: boxes in order, slots in order. */
  method FocusingPower(boxes: array<seq<Lens>>) returns (result: nat)
    ensures result == Power(boxes[..])
  {
    result := 0;
    for i := 0 to boxes.Length
      invariant result == Power(boxes[..i])
    {
      var p := SlotsPower(boxes[i], i + 1);
      result := result + p;
      assert boxes[..i + 1][..i] == boxes[..i];
    }
    assert boxes[..boxes.Length] == boxes[..];
  }

  /** The inner loop of `compute_focusing_power`, over one box's slots. */
  method SlotsPower(b: seq<Lens>, n: nat) returns (result: nat)
    ensures result == BoxPower(b, n)
  {
    result := 0;
    for slot := 0 to |b|
      invariant result == BoxPower(b[..slot], n)
    {
      assert b[..slot + 1][..slot] == b[..slot];
      result := result + n * (slot + 1) * b[slot].focal;
    }
    assert b[..|b|] == b;
  }

  /** Changing the focal length in one slot changes the power by that slot's
      weight times the difference, whatever the other lenses are. */
  lemma {:induction false} BoxPowerReplace(box: seq<Lens>, n: nat, s: nat, l: Lens)
    requires s < |box|
    ensures BoxPower(box[s := l], n) + n * (s + 1) * box[s].focal
         == BoxPower(box, n) + n * (s + 1) * l.focal
    decreases |box|
  {
    var m := |box| - 1;
    if s < m {
      assert box[s := l][..m] == box[..m][s := l];
      BoxPowerReplace(box[..m], n, s, l);
    } else {
      assert box[s := l][..m] == box[..m];
    }
  }

  /** A box's power is its position times the power it would have first. */
  lemma {:induction false} BoxPowerScales(box: seq<Lens>, n: nat)
    ensures BoxPower(box, n) == n * BoxPower(box, 1)
    decreases |box|
  {
    if box != [] {
      BoxPowerScales(box[..|box| - 1], n);
    }
  }

  // ---------------------------------------------------------------------
  // Input

  /** The first position of `c` in `s`, or `|s|`. */
  function Position(s: seq<byte>, c: byte): (i: nat)
    ensures i <= |s| && (i < |s| ==> s[i] == c)
    ensures forall k :: 0 <= k < i ==> s[k] != c
  {
    if s == [] || s[0] == c then 0 else 1 + Position(s[1..], c)
  }

  /** `split(',')`: the pieces between commas, empty pieces included. */
  function Fields(s: seq<byte>): (r: seq<seq<byte>>)
    ensures |r| >= 1
    decreases |s|
  {
    var i := Position(s, Comma);
    if i == |s| then [s] else [s[..i]] + Fields(s[i + 1..])
  }

  /** The pieces glued back together with commas. */
  function Glue(parts: seq<seq<byte>>): seq<byte>
  {
    if parts == [] then [] else if |parts| == 1 then parts[0]
    else parts[0] + [Comma] + Glue(parts[1..])
  }

  /** Splitting on commas loses nothing. */
  lemma {:induction false} GlueFields(s: seq<byte>)
    ensures Glue(Fields(s)) == s
    decreases |s|
  {
    var i := Position(s, Comma);
    if i < |s| {
      var front, back := s[..i], s[i + 1..];
      var rest := Fields(back);
      assert Fields(s) == [front] + rest;
      GlueFields(back);
      GlueCons(front, rest);
      CutAt(s, i);
    }
  }

  /** A sequence is its front, the element at the cut, and its back. */
  lemma CutAt(s: seq<byte>, i: nat)
    requires i < |s| && s[i] == Comma
    ensures s == s[..i] + [Comma] + s[i + 1..]
  {
  }

  lemma GlueCons(p: seq<byte>, rest: seq<seq<byte>>)
    requires rest != []
    ensures Glue([p] + rest) == p + [Comma] + Glue(rest)
  {
    assert ([p] + rest)[1..] == rest;
  }

  /** No piece holds a comma. */
  lemma {:induction false} FieldsHaveNoComma(s: seq<byte>)
    ensures forall i :: 0 <= i < |Fields(s)| ==> Comma !in Fields(s)[i]
    decreases |s|
  {
    var i := Position(s, Comma);
    if i < |s| {
      FieldsHaveNoComma(s[i + 1..]);
      assert Comma !in s[..i] by {
        forall k | 0 <= k < i
          ensures s[..i][k] != Comma
        {
        }
      }
    }
  }

  /** `lines().next().unwrap()` on the bytes of the input: everything up to
      the first line feed, less a carriage return right before it.  Empty
      input has no line, and the source panics. */
  function FirstLine(input: seq<byte>): (r: Option<seq<byte>>)
    ensures r.None? <==> input == []
    ensures r.Some? ==> r.value <= input && NewLine !in r.value
  {
    if input == [] then None
    else
      var i := Position(input, NewLine);
      var line := if i < |input| && i > 0 && input[i - 1] == Return then input[..i - 1] else input[..i];
      assert NewLine !in line by {
        forall k | 0 <= k < |line|
          ensures line[k] != NewLine
        {
          assert line[k] == input[k];
        }
      }
      Some(line)
  }

  /** `parse_input`: the comma-separated steps of the first line. */
  function ParseInput(input: seq<byte>): (r: Option<seq<seq<byte>>>)
    ensures r.None? <==> input == []
    ensures r.Some? ==> Glue(r.value) <= input
  {
    var line := FirstLine(input);
    if line.None? then None
    else
      GlueFields(line.value);
      Some(Fields(line.value))
  }

  /** A line ended by "\n" or "\r\n" yields exactly its comma pieces. */
  lemma ParseInputOfLine(line: seq<byte>, ending: seq<byte>, rest: seq<byte>)
    requires NewLine !in line && (line == [] || line[|line| - 1] != Return)
    requires ending == [NewLine] || ending == [Return, NewLine]
    ensures ParseInput(line + ending + rest) == Some(Fields(line))
  {
    FirstLineOf(line, ending, rest);
  }

  lemma FirstLineOf(line: seq<byte>, ending: seq<byte>, rest: seq<byte>)
    requires NewLine !in line && (line == [] || line[|line| - 1] != Return)
    requires ending == [NewLine] || ending == [Return, NewLine]
    ensures FirstLine(line + ending + rest) == Some(line)
  {
    var input := line + ending + rest;
    var e := |line| + |ending| - 1;
    assert forall k :: 0 <= k < |line| ==> input[k] == line[k];
    assert input[e] == NewLine;
    if ending == [Return, NewLine] {
      assert input[|line|] == Return;
    }
    assert Position(input, NewLine) == e;
    assert input[..|line|] == line;
  }

  // ---------------------------------------------------------------------
  // The two parts

  function Hashes(steps: seq<seq<byte>>): (r: seq<int>)
    ensures |r| == |steps| && forall i :: 0 <= i < |steps| ==> r[i] == Hash(steps[i])
  {
    seq(|steps|, i requires 0 <= i < |steps| => Hash(steps[i]) as int)
  }

  /** Part 1: the sum of the HASH of every step. */
  function Part1(input: seq<byte>): (r: Option<int>)
    ensures r.None? <==> input == []
    ensures r.Some? ==> 0 <= r.value <= 255 * |ParseInput(input).value|
  {
    var steps := ParseInput(input);
    if steps.None? then None
    else
      HashesBound(Hashes(steps.value));
      Some(Sum(Hashes(steps.value)))
  }

  /** Part 2: the focusing power after the HASHMAP procedure. */
  function Part2(input: seq<byte>): (r: Option<nat>)
    ensures r.Some? <==> (input != [] &&
      forall i :: 0 <= i < |ParseInput(input).value| ==> ParseOp(ParseInput(input).value[i]).Some?)
  {
    var steps := ParseInput(input);
    if steps.None? then None
    else
      var boxes := Arrange(steps.value);
      if boxes.None? then None else Some(Power(boxes.value))
  }

  /** Every step hashes below 256, so part 1 is at most 255 per step. */
  lemma {:induction false} HashesBound(xs: seq<int>)
    requires forall i :: 0 <= i < |xs| ==> 0 <= xs[i] < 256
    ensures 0 <= Sum(xs) <= 255 * |xs|
    decreases |xs|
  {
    if xs != [] {
      HashesBound(xs[..|xs| - 1]);
    }
  }
}
