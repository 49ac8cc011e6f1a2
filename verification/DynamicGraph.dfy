/**
 The dynamic graph over its launches: recorded once, patched on every later launch, and each
 launch list equal to what recording again with that launch's stack would hold.
 */
module DynamicGraph {
  import opened DynamicParams
  import opened DynamicLaunch

  predicate UsesRatio(s: OpSpec, first: Stack)
    requires AllResolve(AllOperands(s), first)
  {
    match s
    case AsStrided(sizes, strides, offset, selfStrides) =>
      AllResolve(strides, first) && !RatioUndefined(selfStrides, Values(strides, first))
    case StridedInsert(strides, offset, selfStrides) =>
      AllResolve(strides, first) && !RatioUndefined(selfStrides, Values(strides, first))
    case _ => false
  }

  function ShapeEntries(shapes: seq<seq<Operand>>, stack: Stack): seq<LaunchEntry>
    requires AllResolve(Concat(shapes), stack)
  {
    if shapes == [] then []
    else
      PartsResolve(shapes[0], Concat(shapes[1..]), Concat(shapes), stack);
      [ShapeEntry(false, Values(shapes[0], stack))] + ShapeEntries(shapes[1..], stack)
  }

  /** Patch values that hold a count and that many strides. */
  predicate HasStrides(values: seq<int>) { |values| >= 2 && 0 <= values[0] <= |values| - 2 }

  lemma CountRecorded(strides: seq<Operand>, offset: Operand, isAsStrided: bool, stack: Stack)
    requires |strides| <= SYN_MAX_TENSOR_DIM + 1
    requires AllResolve(StrideLayout(strides, offset, isAsStrided).operands, stack)
    ensures HasStrides(HostValues(RecordOf(StrideLayout(strides, offset, isAsStrided), stack).host))
  {
    var ps := StrideLayout(strides, offset, isAsStrided).operands;
    assert ps[0] == Constant(StrideCount(strides, isAsStrided));
    Int64Survives(ValueOf(ps[0], stack));
  }

  /** A stride payload and, on the ratio path, the offset that carries its strides. */
  function StrideEntries(strides: seq<Operand>, offset: Operand, isAsStrided: bool, ratio: bool, stack: Stack): (r: seq<LaunchEntry>)
    requires |strides| <= SYN_MAX_TENSOR_DIM + 1 && Resolves(offset, stack)
    requires AllResolve(StrideLayout(strides, offset, isAsStrided).operands, stack)
    ensures |r| > 0 && r[0].HostEntry? && HasStrides(r[0].values)
  {
    CountRecorded(strides, offset, isAsStrided, stack);
    [RecordedEntry(RecordOf(StrideLayout(strides, offset, isAsStrided), stack).host)] + OffsetEntry(ratio, ValueOf(offset, stack))
  }

  /** The launch entries of an op: the payloads its record step would store for this stack, the sizes
      its shape tensors have, and a stride-carrying offset right behind its own strides. */
  function Expected(s: OpSpec, ratio: bool, k: Kernels, stack: Stack): seq<LaunchEntry>
    requires Ready(s, stack)
  {
    Operands(s, stack);
    match s
    case Repeat(ps) =>
      ReversedValues(ps, stack);
      [RecordedEntry(RecordOf(RepeatLayout(ps), stack).host)]
    case Randperm(end) =>
      assert Resolves([end][0], stack);
      [RecordedEntry(RecordOf(RandpermLayout(end), stack).host)]
    case ConstantPad(pads) =>
      PadOperandsResolve(pads, stack);
      [RecordedEntry(RecordOf(PadLayout(pads), stack).host)]
    case Arange(b) =>
      var v := Values(b, stack);
      [RecordedEntry(RecordOf(ArangeLayout(b), stack).host), ShapeEntry(false, [k.depth(v[0], v[1], v[2])])]
    case Slice(range, self) =>
      var r, z := Values(range, stack), Values(self, stack);
      [ShapeEntry(false, SliceSizes(r, z)), RecordedEntry(SliceHost(r, z))]
    case AsStrided(sizes, strides, offset, _) =>
      StrideEntries(strides, offset, true, ratio, stack) + [ShapeEntry(false, Values(sizes, stack))]
    case StridedInsert(strides, offset, _) =>
      StrideEntries(strides, offset, false, ratio, stack)
    case ShapeOnly(shapes) => ShapeEntries(shapes, stack)
  }

  // --- the registered ops ---

  function ShapesFor(shapes: seq<seq<Operand>>, stack: Stack): (r: seq<Shape>)
    requires AllResolve(Concat(shapes), stack)
    ensures |r| == |shapes|
  {
    if shapes == [] then []
    else
      PartsResolve(shapes[0], Concat(shapes[1..]), Concat(shapes), stack);
      [ShapeFor(shapes[0], stack)] + ShapesFor(shapes[1..], stack)
  }

  /** The offset tensor that exists on the ratio path only. */
  function OffsetFor(ratio: bool, offset: Operand, stack: Stack): Option<Shape>
    requires Resolves(offset, stack)
  {
    if ratio then Some(ShapeFor([offset], stack)) else Option.None
  }

  /** A registered op: payloads and pairs are those recorded on the first launch, for ever; its shape
      tensors have the sizes of the last launch. */
  function PlannedFor(s: OpSpec, first: Stack, last: Stack): PlannedOp
    requires Ready(s, first) && Ready(s, last)
  {
    Operands(s, first);
    Operands(s, last);
    match s
    case Repeat(ps) =>
      ReversedValues(ps, first);
      PlannedHost(RepeatLayout(ps), RecordOf(RepeatLayout(ps), first))
    case Randperm(end) =>
      assert Resolves([end][0], first);
      PlannedHost(RandpermLayout(end), RecordOf(RandpermLayout(end), first))
    case ConstantPad(pads) =>
      PadOperandsResolve(pads, first);
      PlannedHost(PadLayout(pads), RecordOf(PadLayout(pads), first))
    case Arange(b) => PlannedArange(RecordOf(ArangeLayout(b), first).host, PairsOf(b, first, false))
    case Slice(range, self) =>
      PlannedSlice(SliceHost(Values(range, first), Values(self, first)), PairsOf(range, first, true), PairsOf(self, first, true))
    case AsStrided(sizes, strides, offset, _) =>
      PlannedStrides(StrideLayout(strides, offset, true), RecordOf(StrideLayout(strides, offset, true), first),
                     OffsetFor(UsesRatio(s, first), offset, last), Some(ShapeFor(sizes, last)))
    case StridedInsert(strides, offset, _) =>
      PlannedStrides(StrideLayout(strides, offset, false), RecordOf(StrideLayout(strides, offset, false), first),
                     OffsetFor(UsesRatio(s, first), offset, last), Option.None)
    case ShapeOnly(shapes) => PlannedShapes(ShapesFor(shapes, last))
  }

  /** No negative constant where it would be taken for a stack index. */
  predicate Strict(s: OpSpec) {
    match s
    case Repeat(ps) => NonNegative(ps)
    case Randperm(end) => NonNegative([end])
    case Slice(range, self) => |range| == 4 && NonNegative([range[3]]) && NonNegative(self)
    case AsStrided(sizes, strides, offset, _) => NonNegative(sizes) && NonNegative(strides) && NonNegative([offset])
    case StridedInsert(strides, offset, _) => NonNegative(strides) && NonNegative([offset])
    case ShapeOnly(shapes) => forall i :: 0 <= i < |shapes| ==> NonNegative(shapes[i])
    case _ => true
  }

  lemma PayloadIsHostValues(l: Layout, stack: Stack)
    requires AllResolve(l.operands, stack)
    ensures Payload(l, stack) == HostValues(RecordOf(l, stack).host)
  {
  }

  lemma StrideConstants(strides: seq<Operand>, offset: Operand, count: nat)
    requires NonNegative(strides) && NonNegative([offset]) && |strides| <= SYN_MAX_TENSOR_DIM + 1
    ensures !HasNegativeConstant(StrideOperands(strides, offset, count))
  {
    var ps := StrideOperands(strides, offset, count);
    forall k | 0 <= k < |ps| && ps[k].Constant? ensures ps[k].v >= 0 {
      if 2 <= k < 2 + |strides| { assert ps[k] == strides[|strides| - 1 - (k - 2)]; }
      if k == 1 { assert [offset][0] == ps[k]; }
    }
  }

  /** One host payload, patched for a launch. */
  method PatchHost(l: Layout, rec: Recorded, ghost first: Stack, stack: Stack) returns (e: LaunchEntry)
    requires ValidLayout(l) && AllResolve(l.operands, first) && AllResolve(l.operands, stack) && rec == RecordOf(l, first)
    requires l.tolerant || !l.markNegative || !HasNegativeConstant(l.operands)
    ensures e == RecordedEntry(RecordOf(l, stack).host)
  {
    PatchIsRecord(l, first, stack);
    PayloadIsHostValues(l, stack);
    var values := UpdateDynamicInputs(l, rec, stack);
    e := EntryFor(rec.host, values.value);
  }

  method PatchRepeat(s: OpSpec, p: PlannedOp, ghost first: Stack, ghost last: Stack, k: Kernels, stack: Stack)
    returns (es: seq<LaunchEntry>)
    requires s.Repeat? && Ready(s, first) && Ready(s, last) && Ready(s, stack) && Strict(s) && p == PlannedFor(s, first, last)
    ensures es == Expected(s, false, k, stack)
  {
    ReversedValues(s.repeats, stack);
    ReversedValues(s.repeats, first);
    assert !HasNegativeConstant(RepeatLayout(s.repeats).operands);
    var e := PatchHost(p.l, p.rec, first, stack);
    es := [e];
  }

  method PatchRandperm(s: OpSpec, p: PlannedOp, ghost first: Stack, ghost last: Stack, k: Kernels, stack: Stack)
    returns (es: seq<LaunchEntry>)
    requires s.Randperm? && Ready(s, first) && Ready(s, last) && Ready(s, stack) && Strict(s) && p == PlannedFor(s, first, last)
    ensures es == Expected(s, false, k, stack)
  {
    RandpermResolves(s.end, first);
    RandpermResolves(s.end, stack);
    assert [s.end][0].Constant? ==> s.end.v >= 0;
    var e := PatchHost(p.l, p.rec, first, stack);
    es := [e];
  }

  lemma RandpermResolves(end: Operand, stack: Stack)
    requires AllResolve([end], stack)
    ensures Resolves(end, stack) && AllResolve(RandpermLayout(end).operands, stack)
  {
    assert Resolves([end][0], stack);
  }

  method PatchPad(s: OpSpec, p: PlannedOp, ghost first: Stack, ghost last: Stack, k: Kernels, stack: Stack)
    returns (es: seq<LaunchEntry>)
    requires s.ConstantPad? && Ready(s, first) && Ready(s, last) && Ready(s, stack) && p == PlannedFor(s, first, last)
    ensures es == Expected(s, false, k, stack)
  {
    PadOperandsResolve(s.pads, stack);
    PadOperandsResolve(s.pads, first);
    var e := PatchHost(p.l, p.rec, first, stack);
    es := [e];
  }

  method PatchArange(p: PlannedOp, s: OpSpec, ghost first: Stack, ghost last: Stack, k: Kernels, stack: Stack)
    returns (es: seq<LaunchEntry>)
    requires s.Arange? && Ready(s, first) && Ready(s, last) && Ready(s, stack) && p == PlannedFor(s, first, last)
    ensures es == Expected(s, false, k, stack)
  {
    var b := PatchRecordedPairs(p.bounds, s.bounds, first, stack, false, false);
    var v := b.value;
    var cast := [Cast(I32, v[0]), Cast(I32, v[1]), Cast(I32, v[2])];
    ArangeValues(s.bounds, stack, cast);
    es := [EntryFor(p.host, cast), ShapeEntry(false, [k.depth(v[0], v[1], v[2])])];
  }

  lemma ArangeValue(x: int)
    ensures ToInt64(Cast(I32, ToWord(Cast(I32, x)))) == Cast(I32, x)
  {
    CastThroughWord(I32, I32, x);
  }

  lemma ArangeValues(b: seq<Operand>, stack: Stack, cast: seq<int>)
    requires |b| == 3 && AllResolve(b, stack)
    requires cast == [Cast(I32, ValueOf(b[0], stack)), Cast(I32, ValueOf(b[1], stack)), Cast(I32, ValueOf(b[2], stack))]
    ensures cast == HostValues(RecordOf(ArangeLayout(b), stack).host)
  {
    var values := Values(b, stack);
    forall i | 0 <= i < 3 ensures cast[i] == ToInt64(Cast(I32, ToWord(Cast(I32, values[i])))) { ArangeValue(values[i]); }
  }

  method PatchSlice(p: PlannedOp, s: OpSpec, ghost first: Stack, ghost last: Stack, k: Kernels, stack: Stack)
    returns (es: seq<LaunchEntry>)
    requires s.Slice? && Ready(s, first) && Ready(s, last) && Ready(s, stack) && Strict(s) && p == PlannedFor(s, first, last)
    ensures es == Expected(s, false, k, stack)
  {
    Operands(s, first);
    Operands(s, stack);
    var self := PatchRecordedPairs(p.self, s.self, first, stack, true, false);
    assert s.range[3..] == [s.range[3]] && NonNegative(s.range[3..]);
    var front := PatchRecordedPairs(p.range[..3], s.range[..3], first, stack, true, true);
    var step := PatchRecordedPairs(p.range[3..], s.range[3..], first, stack, true, false);
    var range := front.value + step.value;
    assert range == Values(s.range, stack);
    var wrapped := WrapDim(range[0], |self.value|).value;
    var start, shape := ComputeOutputShape(self.value, wrapped, range[1], range[2], range[3]);
    var params := SliceParams(|self.value|, wrapped, start, range[3]);
    var cast := seq(11, i requires 0 <= i < 11 => ToInt64(ToWord(params[i])));
    SliceValues(params, cast);
    es := [ShapeEntry(false, shape), EntryFor(p.host, cast)];
  }

  lemma SliceValues(params: seq<int>, cast: seq<int>)
    requires |params| == 11 && |cast| == 11 && forall i :: 0 <= i < 11 ==> cast[i] == ToInt64(ToWord(params[i]))
    ensures cast == HostValues(HostOf(params, U64, U64))
  {
  }

  method PatchOptional(s: Option<Shape>, carries: bool, ghost ps: seq<Operand>, ghost last: Stack, stack: Stack)
    returns (es: seq<LaunchEntry>, t: Option<Shape>)
    requires AllResolve(ps, last) && AllResolve(ps, stack) && NonNegative(ps)
    requires s.Some? ==> s.value == ShapeFor(ps, last)
    ensures es == if s.Some? then [ShapeEntry(carries, Values(ps, stack))] else []
    ensures t == if s.Some? then Some(ShapeFor(ps, stack)) else Option.None
  {
    if s.Some? {
      var shape := PatchShape(s.value, ps, last, stack);
      return [ShapeEntry(carries, shape.sizes)], Some(shape);
    }
    return [], s;
  }

  method PatchStrides(p: PlannedOp, s: OpSpec, ghost first: Stack, ghost last: Stack, ghost k: Kernels, stack: Stack)
    returns (es: seq<LaunchEntry>, q: PlannedOp)
    requires s.AsStrided? || s.StridedInsert?
    requires Ready(s, first) && Ready(s, last) && Ready(s, stack) && Strict(s) && p == PlannedFor(s, first, last)
    ensures es == Expected(s, UsesRatio(s, first), k, stack) && q == PlannedFor(s, first, stack)
  {
    Operands(s, first);
    Operands(s, last);
    Operands(s, stack);
    StrideConstants(s.strides, s.offset, StrideCount(s.strides, s.AsStrided?));
    var e := PatchHost(p.l, p.rec, first, stack);
    SingleOffset(s.offset, stack);
    SingleOffset(s.offset, last);
    var offsets, offset := PatchOptional(p.offset, true, [s.offset], last, stack);
    var shapes, sizes := PatchOptional(p.sizes, false, if s.AsStrided? then s.sizes else [], last, stack);
    es := [e] + offsets + shapes;
    q := p.(offset := offset, sizes := sizes);
  }

  lemma SingleOffset(offset: Operand, stack: Stack)
    requires Resolves(offset, stack)
    ensures AllResolve([offset], stack) && Values([offset], stack) == [ValueOf(offset, stack)]
  {
  }

  method PatchShapes(p: PlannedOp, s: OpSpec, ghost first: Stack, ghost last: Stack, ghost k: Kernels, stack: Stack)
    returns (es: seq<LaunchEntry>, q: PlannedOp)
    requires s.ShapeOnly? && Ready(s, first) && Ready(s, last) && Ready(s, stack) && Strict(s) && p == PlannedFor(s, first, last)
    ensures es == Expected(s, UsesRatio(s, first), k, stack) && q == PlannedFor(s, first, stack)
  {
    var done: seq<Shape>;
    es, done := [], [];
    assert s.shapes[0..] == s.shapes && p.shapes[0..] == p.shapes;
    for i := 0 to |p.shapes|
      invariant AllResolve(Concat(s.shapes[i..]), stack) && AllResolve(Concat(s.shapes[i..]), last)
      invariant es + ShapeEntries(s.shapes[i..], stack) == ShapeEntries(s.shapes, stack)
      invariant done + ShapesFor(s.shapes[i..], stack) == ShapesFor(s.shapes, stack)
      invariant p.shapes[i..] == ShapesFor(s.shapes[i..], last)
    {
      ShapesUnfold(s.shapes, i, stack);
      ShapesUnfold(s.shapes, i, last);
      assert p.shapes[i..][0] == p.shapes[i] && p.shapes[i..][1..] == p.shapes[i + 1..];
      var shape := PatchShape(p.shapes[i], s.shapes[i], last, stack);
      es := es + [ShapeEntry(false, shape.sizes)];
      done := done + [shape];
    }
    assert es + [] == es && done + [] == done;
    q := PlannedShapes(done);
  }

  lemma ShapesUnfold(shapes: seq<seq<Operand>>, i: nat, stack: Stack)
    requires i < |shapes| && AllResolve(Concat(shapes[i..]), stack)
    ensures AllResolve(shapes[i], stack) && AllResolve(Concat(shapes[i + 1..]), stack)
    ensures ShapeEntries(shapes[i..], stack) == [ShapeEntry(false, Values(shapes[i], stack))] + ShapeEntries(shapes[i + 1..], stack)
    ensures ShapesFor(shapes[i..], stack) == [ShapeFor(shapes[i], stack)] + ShapesFor(shapes[i + 1..], stack)
  {
    assert shapes[i..][1..] == shapes[i + 1..];
    PartsResolve(shapes[i], Concat(shapes[i + 1..]), Concat(shapes[i..]), stack);
  }

  /** The patch function an op has registered. */
  method PatchOp(s: OpSpec, p: PlannedOp, ghost first: Stack, ghost last: Stack, k: Kernels, stack: Stack)
    returns (es: seq<LaunchEntry>, q: PlannedOp)
    requires Ready(s, first) && Ready(s, last) && Ready(s, stack) && Strict(s) && p == PlannedFor(s, first, last)
    ensures es == Expected(s, UsesRatio(s, first), k, stack) && q == PlannedFor(s, first, stack)
  {
    q := p;
    match s {
      case Arange(_) => es := PatchArange(p, s, first, last, k, stack);
      case Slice(_, _) => es := PatchSlice(p, s, first, last, k, stack);
      case AsStrided(_, _, _, _) => es, q := PatchStrides(p, s, first, last, k, stack);
      case StridedInsert(_, _, _) => es, q := PatchStrides(p, s, first, last, k, stack);
      case ShapeOnly(_) => es, q := PatchShapes(p, s, first, last, k, stack);
      case Repeat(_) => es := PatchRepeat(s, p, first, last, k, stack);
      case Randperm(_) => es := PatchRandperm(s, p, first, last, k, stack);
      case ConstantPad(_) => es := PatchPad(s, p, first, last, k, stack);
    }
  }

  // --- recording ---

  method RecordShape(ps: seq<Operand>, stack: Stack) returns (t: Shape)
    requires AllResolve(ps, stack)
    ensures t == ShapeFor(ps, stack)
  {
    var values, marks := GetValuesAndScalarIndexes(ps, stack);
    t := Shape(marks, values);
  }

  /** ReplaceWithDynamicHPUOp for the three stride ops: the payload, and an offset shape tensor that
      carries the strides when they are ratios of the base's. */
  method RecordStridesOp(s: OpSpec, stack: Stack) returns (p: PlannedOp)
    requires (s.AsStrided? || s.StridedInsert?) && Ready(s, stack)
    ensures p == PlannedFor(s, stack, stack)
  {
    Operands(s, stack);
    var rec := RecordStrides(s.strides, s.offset, s.AsStrided?, stack);
    var sizes := Option<Shape>.None;
    if s.AsStrided? {
      var t := RecordShape(s.sizes, stack);
      sizes := Some(t);
    }
    var strides, _ := GetValuesAndScalarIndexes(s.strides, stack);
    var undefined := IsStridedRatioUndefined(s.selfStrides, strides);
    var offset := Option<Shape>.None;
    if !undefined {
      assert AllResolve([s.offset], stack);
      var t := RecordShape([s.offset], stack);
      offset := Some(t);
    }
    p := PlannedStrides(StrideLayout(s.strides, s.offset, s.AsStrided?), rec, offset, sizes);
  }

  method RecordArange(s: OpSpec, stack: Stack) returns (p: PlannedOp)
    requires s.Arange? && Ready(s, stack)
    ensures p == PlannedFor(s, stack, stack)
  {
    var b := s.bounds;
    var pairs := RecordPairs(b, stack, false);
    var host := SetH2DTensorHostData([pairs[2].1, pairs[1].1, pairs[0].1], I32, I32, true);
    p := PlannedArange(host, pairs);
    assert Reversed([pairs[2].1, pairs[1].1, pairs[0].1]) == Values(b, stack);
  }

  method RecordSlice(s: OpSpec, stack: Stack) returns (p: PlannedOp)
    requires s.Slice? && Ready(s, stack)
    ensures p == PlannedFor(s, stack, stack)
  {
    Operands(s, stack);
    var self := RecordPairs(s.self, stack, true);
    var range := RecordPairs(s.range, stack, true);
    var dim := WrapDim(range[0].1, |self|).value;
    var sizes, _ := GetValuesAndScalarIndexes(s.self, stack);
    var start, _ := ComputeOutputShape(sizes, dim, range[1].1, range[2].1, range[3].1);
    var host := SetH2DTensorHostData(SliceParams(|self|, dim, start, range[3].1), U64, U64, false);
    p := PlannedSlice(host, range, self);
  }

  method RecordShapes(s: OpSpec, stack: Stack) returns (p: PlannedOp)
    requires s.ShapeOnly? && Ready(s, stack)
    ensures p == PlannedFor(s, stack, stack)
  {
    var shapes: seq<Shape> := [];
    assert s.shapes[0..] == s.shapes;
    for i := 0 to |s.shapes|
      invariant AllResolve(Concat(s.shapes[i..]), stack)
      invariant shapes + ShapesFor(s.shapes[i..], stack) == ShapesFor(s.shapes, stack)
    {
      ShapesUnfold(s.shapes, i, stack);
      var t := RecordShape(s.shapes[i], stack);
      shapes := shapes + [t];
    }
    assert shapes + [] == shapes;
    p := PlannedShapes(shapes);
  }

  /** ReplaceWithDynamicHPUOp, the part that fills the dynamic stack and registers the patch function. */
  method RecordOp(s: OpSpec, stack: Stack) returns (p: PlannedOp)
    requires Ready(s, stack)
    ensures p == PlannedFor(s, stack, stack)
  {
    match s {
      case Repeat(ps) =>
        var rec := RecordRepeat(ps, stack);
        p := PlannedHost(RepeatLayout(ps), rec);
      case Randperm(end) =>
        assert Resolves([end][0], stack);
        var rec := RecordRandperm(end, stack);
        p := PlannedHost(RandpermLayout(end), rec);
      case ConstantPad(pads) =>
        var rec := RecordPad(pads, stack);
        p := PlannedHost(PadLayout(pads), rec);
      case Arange(_) => p := RecordArange(s, stack);
      case Slice(_, _) => p := RecordSlice(s, stack);
      case ShapeOnly(_) => p := RecordShapes(s, stack);
      case _ => p := RecordStridesOp(s, stack);
    }
  }

  // --- all launches ---

  ghost predicate ReadyAt(plan: seq<OpSpec>, stack: Stack, i: nat) { i < |plan| && Ready(plan[i], stack) && Strict(plan[i]) }

  ghost predicate Accepts(plan: seq<OpSpec>, stack: Stack) { forall i :: 0 <= i < |plan| ==> ReadyAt(plan, stack, i) }

  /** The stacks a graph can be launched with. */
  ghost function Launchable(plan: seq<OpSpec>): iset<Stack> { iset stack: Stack | Accepts(plan, stack) }

  lemma LaunchableAt(plan: seq<OpSpec>, stack: Stack, i: nat)
    requires stack in Launchable(plan) && i < |plan|
    ensures ReadyAt(plan, stack, i)
  {
    assert Accepts(plan, stack);
  }

  /** The entries of op i; whether it takes the ratio path was decided by the first stack. */
  ghost function Segment(plan: seq<OpSpec>, first: Stack, k: Kernels, stack: Stack, i: nat): seq<LaunchEntry>
    requires first in Launchable(plan) && stack in Launchable(plan) && i < |plan|
  {
    LaunchableAt(plan, first, i);
    LaunchableAt(plan, stack, i);
    Expected(plan[i], UsesRatio(plan[i], first), k, stack)
  }

  /** The entries of the first n ops, op by op. */
  ghost function Segments(plan: seq<OpSpec>, first: Stack, k: Kernels, stack: Stack, n: nat): (r: seq<seq<LaunchEntry>>)
    requires first in Launchable(plan) && stack in Launchable(plan) && n <= |plan|
    ensures |r| == n
  {
    if n == 0 then [] else Segments(plan, first, k, stack, n - 1) + [Segment(plan, first, k, stack, n - 1)]
  }

  lemma {:induction false} SegmentAt(plan: seq<OpSpec>, first: Stack, k: Kernels, stack: Stack, n: nat, i: nat)
    requires first in Launchable(plan) && stack in Launchable(plan) && i < n <= |plan|
    ensures Segments(plan, first, k, stack, n)[i] == Segment(plan, first, k, stack, i)
  {
    if i < n - 1 { SegmentAt(plan, first, k, stack, n - 1, i); }
  }

  function Joined(segs: seq<seq<LaunchEntry>>, n: nat): seq<LaunchEntry>
    requires n <= |segs|
  {
    if n == 0 then [] else Joined(segs, n - 1) + segs[n - 1]
  }

  /** What the record steps of all ops would put on the launch list for this stack, each op on the path, with
      ratios or without, that the first stack chose for it. */
  ghost function ExpectedList(plan: seq<OpSpec>, first: Stack, k: Kernels, stack: Stack): seq<LaunchEntry>
    requires first in Launchable(plan) && stack in Launchable(plan)
  {
    Joined(Segments(plan, first, k, stack, |plan|), |plan|)
  }

  /** Op i as it is registered after a launch with stack `last`. */
  ghost function PlannedAt(plan: seq<OpSpec>, first: Stack, last: Stack, i: nat): PlannedOp
    requires first in Launchable(plan) && last in Launchable(plan) && i < |plan|
  {
    LaunchableAt(plan, first, i);
    LaunchableAt(plan, last, i);
    PlannedFor(plan[i], first, last)
  }

  /** The first n registered ops. */
  ghost function PlannedUpTo(plan: seq<OpSpec>, first: Stack, last: Stack, n: nat): (r: seq<PlannedOp>)
    requires first in Launchable(plan) && last in Launchable(plan) && n <= |plan|
    ensures |r| == n
  {
    seq(n, i requires 0 <= i < n => PlannedAt(plan, first, last, i))
  }

  ghost function AllPlanned(plan: seq<OpSpec>, first: Stack, last: Stack): (r: seq<PlannedOp>)
    requires first in Launchable(plan) && last in Launchable(plan)
    ensures |r| == |plan|
  {
    PlannedUpTo(plan, first, last, |plan|)
  }

  lemma PlannedIs(plan: seq<OpSpec>, first: Stack, last: Stack, n: nat, i: nat)
    requires first in Launchable(plan) && last in Launchable(plan) && i < n <= |plan|
    ensures PlannedUpTo(plan, first, last, n)[i] == PlannedAt(plan, first, last, i)
  {
  }

  lemma PlannedNext(plan: seq<OpSpec>, first: Stack, last: Stack, n: nat)
    requires first in Launchable(plan) && last in Launchable(plan) && n < |plan|
    ensures PlannedUpTo(plan, first, last, n + 1) == PlannedUpTo(plan, first, last, n) + [PlannedAt(plan, first, last, n)]
  {
    var all, before := PlannedUpTo(plan, first, last, n + 1), PlannedUpTo(plan, first, last, n);
    PlannedIs(plan, first, last, n + 1, n);
    forall i | 0 <= i < n ensures all[i] == before[i] {
      PlannedIs(plan, first, last, n + 1, i);
      PlannedIs(plan, first, last, n, i);
    }
    OneMore(all, before, PlannedAt(plan, first, last, n));
  }

  lemma OneMore(all: seq<PlannedOp>, before: seq<PlannedOp>, p: PlannedOp)
    requires |all| == |before| + 1 && all[|before|] == p && forall i :: 0 <= i < |before| ==> all[i] == before[i]
    ensures all == before + [p]
  {
  }

  method RecordAt(plan: seq<OpSpec>, stack: Stack, i: nat) returns (p: PlannedOp)
    requires stack in Launchable(plan) && i < |plan|
    ensures p == PlannedAt(plan, stack, stack, i)
  {
    LaunchableAt(plan, stack, i);
    p := RecordOp(plan[i], stack);
  }

  method RecordAll(plan: seq<OpSpec>, stack: Stack) returns (ops: seq<PlannedOp>)
    requires stack in Launchable(plan)
    ensures ops == AllPlanned(plan, stack, stack)
  {
    ops := [];
    for i := 0 to |plan|
      invariant ops == PlannedUpTo(plan, stack, stack, i)
    {
      var p := RecordAt(plan, stack, i);
      PlannedNext(plan, stack, stack, i);
      ops := ops + [p];
    }
  }

  method PatchAt(plan: seq<OpSpec>, ghost first: Stack, ghost last: Stack, k: Kernels, stack: Stack, i: nat, p: PlannedOp)
    returns (es: seq<LaunchEntry>, q: PlannedOp)
    requires first in Launchable(plan) && last in Launchable(plan) && stack in Launchable(plan) && i < |plan|
    requires p == PlannedAt(plan, first, last, i)
    ensures es == Segment(plan, first, k, stack, i) && q == PlannedAt(plan, first, stack, i)
  {
    LaunchableAt(plan, first, i);
    LaunchableAt(plan, last, i);
    LaunchableAt(plan, stack, i);
    es, q := PatchOp(plan[i], p, first, last, k, stack);
  }

  /** The loop over the registered ops: the launch list, and the ops with their new sizes. */
  method PatchAll(plan: seq<OpSpec>, ghost first: Stack, ghost last: Stack, k: Kernels, stack: Stack, ops: seq<PlannedOp>)
    returns (list: seq<LaunchEntry>, after: seq<PlannedOp>)
    requires first in Launchable(plan) && last in Launchable(plan) && stack in Launchable(plan)
    requires ops == AllPlanned(plan, first, last)
    ensures list == ExpectedList(plan, first, k, stack) && after == AllPlanned(plan, first, stack)
  {
    list, after := [], [];
    ghost var segs := Segments(plan, first, k, stack, |plan|);
    for i := 0 to |plan|
      invariant list == Joined(segs, i) && after == PlannedUpTo(plan, first, stack, i)
    {
      PlannedIs(plan, first, last, |plan|, i);
      PlannedNext(plan, first, stack, i);
      SegmentAt(plan, first, k, stack, |plan|, i);
      var es, q := PatchAt(plan, first, last, k, stack, i, ops[i]);
      list := list + es;
      after := after + [q];
    }
  }

  class DynamicLauncher {
    const plan: seq<OpSpec>
    ghost const first: Stack
    var ops: seq<PlannedOp>
    /** The stack of the last launch. */
    ghost var last: Stack

    ghost predicate Valid()
      reads this
    {
      first in Launchable(plan) && last in Launchable(plan) && ops == AllPlanned(plan, first, last)
    }

    /** The first launch records every op. */
    constructor (plan: seq<OpSpec>, stack: Stack)
      requires stack in Launchable(plan)
      ensures Valid() && this.plan == plan && first == stack == last
    {
      var recorded := RecordAll(plan, stack);
      this.plan, first, last, ops := plan, stack, stack, recorded;
    }

    /** HandleDynamicInputPatching on a later launch. Whatever launches came before, the list is the one
        that recording with this launch's stack would give on the paths chosen at the first launch, and
        the next launch finds the ops as if recorded with this stack. */
    method Launch(k: Kernels, stack: Stack) returns (list: seq<LaunchEntry>)
      requires Valid() && stack in Launchable(plan)
      modifies this
      ensures Valid() && last == stack && list == ExpectedList(plan, first, k, stack)
    {
      list, ops := PatchAll(plan, first, last, k, stack, ops);
      last := stack;
    }
  }

  // --- the launch list ---

  /** A stride-carrying shape tensor at i comes right behind a host tensor that holds strides. */
  predicate FollowsHost(es: seq<LaunchEntry>, i: nat)
    requires i < |es|
  {
    es[i].ShapeEntry? && es[i].carries ==> i > 0 && es[i - 1].HostEntry? && HasStrides(es[i - 1].values)
  }

  lemma {:induction false} ShapesCarryNothing(shapes: seq<seq<Operand>>, stack: Stack, i: nat)
    requires AllResolve(Concat(shapes), stack) && i < |ShapeEntries(shapes, stack)|
    ensures ShapeEntries(shapes, stack)[i].ShapeEntry? && !ShapeEntries(shapes, stack)[i].carries
  {
    PartsResolve(shapes[0], Concat(shapes[1..]), Concat(shapes), stack);
    if i > 0 { ShapesCarryNothing(shapes[1..], stack, i - 1); }
  }

  lemma ExpectedFollows(s: OpSpec, ratio: bool, k: Kernels, stack: Stack, es: seq<LaunchEntry>, i: nat)
    requires Ready(s, stack) && es == Expected(s, ratio, k, stack) && i < |es|
    ensures FollowsHost(es, i)
  {
    if s.ShapeOnly? {
      ShapesCarryNothing(s.shapes, stack, i);
    } else if s.AsStrided? || s.StridedInsert? {
      StridesFollow(s, ratio, k, stack, es, i);
    }
  }

  lemma StridesFollow(s: OpSpec, ratio: bool, k: Kernels, stack: Stack, es: seq<LaunchEntry>, i: nat)
    requires s.AsStrided? || s.StridedInsert?
    requires Ready(s, stack) && es == Expected(s, ratio, k, stack) && i < |es|
    ensures FollowsHost(es, i)
  {
    Operands(s, stack);
    var front := StrideEntries(s.strides, s.offset, s.AsStrided?, ratio, stack);
    assert front[..1] == es[..1];
  }

  lemma {:induction false} ShapesRegistered(shapes: seq<seq<Operand>>, stack: Stack, i: nat)
    requires AllResolve(Concat(shapes), stack) && i < |ShapeEntries(shapes, stack)|
    ensures Registered(ShapeEntries(shapes, stack)[i])
  {
    ShapesCarryNothing(shapes, stack, i);
  }

  lemma RecordedRegistered(values: seq<int>, kept: Width, w: Width)
    requires (kept == U64) == (w == U64)
    ensures Registered(RecordedEntry(HostOf(values, kept, w)))
  {
  }

  lemma ExpectedRegistered(s: OpSpec, ratio: bool, k: Kernels, stack: Stack, es: seq<LaunchEntry>, i: nat)
    requires Ready(s, stack) && es == Expected(s, ratio, k, stack) && i < |es|
    ensures Registered(es[i])
  {
    if s.ShapeOnly? {
      ShapesRegistered(s.shapes, stack, i);
    } else if es[i].HostEntry? {
      var values, kept, w := HostEntryOf(s, ratio, k, stack, es, i);
      RecordedRegistered(values, kept, w);
    }
  }

  /** Every host entry is a recorded payload of an element type kept at its own width. */
  lemma HostEntryOf(s: OpSpec, ratio: bool, k: Kernels, stack: Stack, es: seq<LaunchEntry>, i: nat)
    returns (values: seq<int>, kept: Width, w: Width)
    requires Ready(s, stack) && !s.ShapeOnly? && es == Expected(s, ratio, k, stack) && i < |es| && es[i].HostEntry?
    ensures es[i] == RecordedEntry(HostOf(values, kept, w)) && (kept == U64) == (w == U64)
  {
    if s.AsStrided? || s.StridedInsert? {
      Operands(s, stack);
      values, kept, w := Values(StrideLayout(s.strides, s.offset, s.AsStrided?).operands, stack), U64, U64;
    } else if s.Slice? {
      Operands(s, stack);
      var r := Values(s.range, stack);
      var z := Values(s.self, stack);
      values, kept, w := SliceParams(|z|, SlicedDim(r, z), SliceFrom(r, z), r[3]), U64, U64;
    } else {
      values, kept, w := SmallHostEntry(s, ratio, k, stack, es, i);
    }
  }

  lemma SmallHostEntry(s: OpSpec, ratio: bool, k: Kernels, stack: Stack, es: seq<LaunchEntry>, i: nat)
    returns (values: seq<int>, kept: Width, w: Width)
    requires s.Repeat? || s.Randperm? || s.ConstantPad? || s.Arange?
    requires Ready(s, stack) && es == Expected(s, ratio, k, stack) && i < |es| && es[i].HostEntry?
    ensures es[i] == RecordedEntry(HostOf(values, kept, w)) && kept != U64 && w != U64
  {
    var l := SmallLayout(s);
    SmallRecord(s, l, ratio, k, stack, es);
    values, kept, w := Values(l.operands, stack), l.kept, l.w;
  }

  /** An op with one payload of 32-bit values. */
  predicate SmallOp(s: OpSpec) {
    match s
    case ConstantPad(pads) => |pads| / 2 <= MAX_DIMENSIONS_NUM
    case _ => s.Repeat? || s.Randperm? || s.Arange?
  }

  function SmallLayout(s: OpSpec): Layout
    requires SmallOp(s)
  {
    match s
    case Repeat(ps) => RepeatLayout(ps)
    case Randperm(end) => RandpermLayout(end)
    case ConstantPad(pads) => PadLayout(pads)
    case Arange(b) => ArangeLayout(b)
  }

  lemma SmallRecord(s: OpSpec, l: Layout, ratio: bool, k: Kernels, stack: Stack, es: seq<LaunchEntry>)
    requires SmallOp(s) && l == SmallLayout(s)
    requires Ready(s, stack) && es == Expected(s, ratio, k, stack)
    ensures AllResolve(l.operands, stack) && l.kept != U64 && l.w != U64
    ensures es != [] && es[0] == RecordedEntry(RecordOf(l, stack).host) && forall i :: 0 < i < |es| ==> !es[i].HostEntry?
  {
    match s {
      case Repeat(ps) => ReversedValues(ps, stack);
      case Randperm(end) => RandpermResolves(end, stack);
      case ConstantPad(pads) => PadOperandsResolve(pads, stack);
      case Arange(b) =>
    }
  }

  /** A list whose stride-carrying tensors all follow their strides, and whose payloads have their registered length. */
  predicate GoodAt(es: seq<LaunchEntry>, i: nat)
    requires i < |es|
  {
    FollowsHost(es, i) && Registered(es[i])
  }

  /** A host entry whose patch values have the length registered for the tensor. */
  predicate Registered(e: LaunchEntry) {
    e.HostEntry? ==> |e.values| == e.size && e.elSize == SizeOf(e.width) && e.totalElem == 2 * BytesOf(e.width, e.size)
  }

  ghost predicate Good(es: seq<LaunchEntry>) { forall i :: 0 <= i < |es| ==> GoodAt(es, i) }

  /** The launch lists PatchDynamicTensors can place. */
  ghost function Placeable(): iset<seq<LaunchEntry>> { iset es: seq<LaunchEntry> | Good(es) }

  lemma PlaceableAt(es: seq<LaunchEntry>, i: nat)
    requires es in Placeable() && i < |es|
    ensures FollowsHost(es, i) && Registered(es[i])
  {
    assert Good(es) && GoodAt(es, i);
  }

  lemma NothingPlaceable()
    ensures [] in Placeable()
  {
  }

  lemma PlaceableConcat(a: seq<LaunchEntry>, b: seq<LaunchEntry>)
    requires a in Placeable() && b in Placeable()
    ensures a + b in Placeable()
  {
    forall i | 0 <= i < |a + b| ensures GoodAt(a + b, i) {
      if i < |a| { PlaceableAt(a, i); } else { PlaceableAt(b, i - |a|); }
    }
  }

  lemma SegmentPlaceable(plan: seq<OpSpec>, first: Stack, k: Kernels, stack: Stack, i: nat)
    requires first in Launchable(plan) && stack in Launchable(plan) && i < |plan|
    ensures Segment(plan, first, k, stack, i) in Placeable()
  {
    LaunchableAt(plan, first, i);
    LaunchableAt(plan, stack, i);
    var es := Segment(plan, first, k, stack, i);
    forall x | 0 <= x < |es| ensures GoodAt(es, x) {
      ExpectedFollows(plan[i], UsesRatio(plan[i], first), k, stack, es, x);
      ExpectedRegistered(plan[i], UsesRatio(plan[i], first), k, stack, es, x);
    }
  }

  lemma {:induction false} JoinedPlaceable(segs: seq<seq<LaunchEntry>>, n: nat)
    requires n <= |segs| && forall j :: 0 <= j < n ==> segs[j] in Placeable()
    ensures Joined(segs, n) in Placeable()
  {
    if n == 0 {
      NothingPlaceable();
    } else {
      JoinedPlaceable(segs, n - 1);
      PlaceableConcat(Joined(segs, n - 1), segs[n - 1]);
    }
  }

  /** Every launch list can be placed: the entry before a stride-carrying shape tensor is a host tensor
      that holds strides, so the lookup at i - 1 is in range and its type assert never fires, and every
      payload has the length registered when it was recorded. */
  lemma LaunchListPlaceable(plan: seq<OpSpec>, first: Stack, k: Kernels, stack: Stack)
    requires first in Launchable(plan) && stack in Launchable(plan)
    ensures ExpectedList(plan, first, k, stack) in Placeable()
  {
    var segs := Segments(plan, first, k, stack, |plan|);
    forall j | 0 <= j < |plan| ensures segs[j] in Placeable() {
      SegmentAt(plan, first, k, stack, |plan|, j);
      SegmentPlaceable(plan, first, k, stack, j);
    }
    JoinedPlaceable(segs, |plan|);
  }

  // --- where an op's entries are in the list ---

  /** The position of the first entry of op j. */
  ghost function OpStart(plan: seq<OpSpec>, first: Stack, k: Kernels, stack: Stack, j: nat): nat
    requires first in Launchable(plan) && stack in Launchable(plan) && j <= |plan|
  {
    |Joined(Segments(plan, first, k, stack, |plan|), j)|
  }

  lemma {:induction false} JoinedAround(segs: seq<seq<LaunchEntry>>, n: nat, j: nat) returns (rest: seq<LaunchEntry>)
    requires j < n <= |segs|
    ensures Joined(segs, n) == Joined(segs, j) + segs[j] + rest
  {
    if j == n - 1 {
      rest := [];
      assert Joined(segs, j) + segs[j] + [] == Joined(segs, j) + segs[j];
    } else {
      var more := JoinedAround(segs, n - 1, j);
      rest := more + segs[n - 1];
      assert Joined(segs, j) + segs[j] + rest == (Joined(segs, j) + segs[j] + more) + segs[n - 1];
    }
  }

  predicate HoldsStrides(s: OpSpec) { s.AsStrided? || s.StridedInsert? }

  /** What Ready gives a stride op. */
  predicate StrideOpReady(s: OpSpec, stack: Stack)
    requires HoldsStrides(s)
  {
    && |s.strides| <= SYN_MAX_TENSOR_DIM + 1 && AllResolve(s.strides, stack) && Resolves(s.offset, stack)
    && AllResolve(StrideLayout(s.strides, s.offset, s.AsStrided?).operands, stack)
  }

  lemma StrideOpExpected(s: OpSpec, ratio: bool, k: Kernels, stack: Stack)
    requires Ready(s, stack) && HoldsStrides(s)
    ensures StrideOpReady(s, stack)
    ensures var own := StrideEntries(s.strides, s.offset, s.AsStrided?, true, stack);
            var es := Expected(s, ratio, k, stack);
            && |own| == 2 && |es| >= 1 && es[0] == own[0]
            && (ratio ==> |es| >= 2 && es[1] == own[1])
  {
    Operands(s, stack);
  }

  /** The entries of op j in the list, behind those of the ops before it. */
  lemma SegmentInList(plan: seq<OpSpec>, first: Stack, k: Kernels, stack: Stack, j: nat)
    returns (before: seq<LaunchEntry>, own: seq<LaunchEntry>, rest: seq<LaunchEntry>)
    requires first in Launchable(plan) && stack in Launchable(plan) && j < |plan|
    ensures ExpectedList(plan, first, k, stack) == before + own + rest
    ensures |before| == OpStart(plan, first, k, stack, j) && own == Segment(plan, first, k, stack, j)
  {
    var segs := Segments(plan, first, k, stack, |plan|);
    SegmentAt(plan, first, k, stack, |plan|, j);
    before, own := Joined(segs, j), segs[j];
    rest := JoinedAround(segs, |plan|, j);
  }

  lemma StrideOpSegment(plan: seq<OpSpec>, first: Stack, k: Kernels, stack: Stack, j: nat)
    requires first in Launchable(plan) && stack in Launchable(plan) && j < |plan| && HoldsStrides(plan[j])
    ensures ReadyAt(plan, first, j) && StrideOpReady(plan[j], stack)
    ensures var own := StrideEntries(plan[j].strides, plan[j].offset, plan[j].AsStrided?, true, stack);
            var es := Segment(plan, first, k, stack, j);
            && |own| == 2 && |es| >= 1 && es[0] == own[0]
            && (UsesRatio(plan[j], first) ==> |es| >= 2 && es[1] == own[1])
  {
    LaunchableAt(plan, first, j);
    LaunchableAt(plan, stack, j);
    StrideOpExpected(plan[j], UsesRatio(plan[j], first), k, stack);
  }

  /** In every launch list a stride op's payload, the one recorded or patched for this launch's stack, is at
      its op's position p, and on the ratio path the offset that carries its strides is at the next. */
  lemma StrideOpInList(plan: seq<OpSpec>, first: Stack, k: Kernels, stack: Stack, j: nat, es: seq<LaunchEntry>, p: nat)
    requires first in Launchable(plan) && stack in Launchable(plan) && j < |plan| && HoldsStrides(plan[j])
    requires es == ExpectedList(plan, first, k, stack) && p == OpStart(plan, first, k, stack, j)
    ensures ReadyAt(plan, first, j) && StrideOpReady(plan[j], stack)
    ensures var own := StrideEntries(plan[j].strides, plan[j].offset, plan[j].AsStrided?, true, stack);
            && |own| == 2 && p < |es| && es[p] == own[0]
            && (UsesRatio(plan[j], first) ==> p + 1 < |es| && es[p + 1] == own[1])
  {
    StrideOpSegment(plan, first, k, stack, j);
    var before, own, rest := SegmentInList(plan, first, k, stack, j);
    assert es[p] == own[0];
    assert |own| > 1 ==> es[p + 1] == own[1];
  }

  /** In every launch list the sizes of an as_strided stand behind its payload and its offset, if it has one. */
  lemma SizesInList(plan: seq<OpSpec>, first: Stack, k: Kernels, stack: Stack, j: nat, es: seq<LaunchEntry>, p: nat)
    requires first in Launchable(plan) && stack in Launchable(plan) && j < |plan| && plan[j].AsStrided?
    requires es == ExpectedList(plan, first, k, stack) && p == OpStart(plan, first, k, stack, j)
    ensures ReadyAt(plan, first, j) && AllResolve(plan[j].sizes, stack)
    ensures var at := p + (if UsesRatio(plan[j], first) then 2 else 1);
            at < |es| && es[at].ShapeEntry? && !es[at].carries && es[at].sizes == Values(plan[j].sizes, stack)
  {
    var before, own, rest := SegmentInList(plan, first, k, stack, j);
    LaunchableAt(plan, first, j);
    LaunchableAt(plan, stack, j);
    Operands(plan[j], stack);
    SizesExpected(plan[j], UsesRatio(plan[j], first), k, stack);
    var i := if UsesRatio(plan[j], first) then 2 else 1;
    assert es[p + i] == own[i];
  }

  lemma SizesExpected(s: OpSpec, ratio: bool, k: Kernels, stack: Stack)
    requires Ready(s, stack) && s.AsStrided?
    ensures AllResolve(s.sizes, stack)
    ensures var es, at := Expected(s, ratio, k, stack), if ratio then 2 else 1;
            at < |es| && es[at].ShapeEntry? && !es[at].carries && es[at].sizes == Values(s.sizes, stack)
  {
    Operands(s, stack);
  }

  lemma {:induction false} ShapesListed(shapes: seq<seq<Operand>>, stack: Stack, i: nat)
    requires AllResolve(Concat(shapes), stack) && i < |shapes|
    ensures AllResolve(shapes[i], stack) && |ShapeEntries(shapes, stack)| == |shapes|
    ensures ShapeEntries(shapes, stack)[i] == ShapeEntry(false, Values(shapes[i], stack))
  {
    PartsResolve(shapes[0], Concat(shapes[1..]), Concat(shapes), stack);
    if i > 0 { ShapesListed(shapes[1..], stack, i - 1); } else { ShapesCounted(shapes[1..], stack); }
  }

  lemma {:induction false} ShapesCounted(shapes: seq<seq<Operand>>, stack: Stack)
    requires AllResolve(Concat(shapes), stack)
    ensures |ShapeEntries(shapes, stack)| == |shapes|
  {
    if shapes != [] {
      PartsResolve(shapes[0], Concat(shapes[1..]), Concat(shapes), stack);
      ShapesCounted(shapes[1..], stack);
    }
  }

  /** In every launch list the shape tensors of an op stand in order, with the sizes of this launch's stack. */
  lemma ShapesInList(plan: seq<OpSpec>, first: Stack, k: Kernels, stack: Stack, j: nat, es: seq<LaunchEntry>, p: nat, i: nat)
    requires first in Launchable(plan) && stack in Launchable(plan) && j < |plan| && plan[j].ShapeOnly? && i < |plan[j].shapes|
    requires es == ExpectedList(plan, first, k, stack) && p == OpStart(plan, first, k, stack, j)
    ensures AllResolve(plan[j].shapes[i], stack)
    ensures p + i < |es| && es[p + i] == ShapeEntry(false, Values(plan[j].shapes[i], stack))
  {
    var before, own, rest := SegmentInList(plan, first, k, stack, j);
    LaunchableAt(plan, first, j);
    LaunchableAt(plan, stack, j);
    ShapesListed(plan[j].shapes, stack, i);
    assert es[p + i] == own[i];
  }

  // --- strides travel with their offset ---

  predicate IsInt64(x: int) { -(TWO64 / 2) <= x < TWO64 / 2 }

  predicate AllInt64(s: seq<int>) { forall i :: 0 <= i < |s| ==> IsInt64(s[i]) }

  /** The strides PatchDynamicTensors takes from patch values: count at 0, reversed strides from 2 on. */
  function DecodeStrides(values: seq<int>): seq<int>
    requires HasStrides(values)
  {
    Reversed(values[2..2 + values[0]])
  }

  /** The copy loop and the reversal of PatchDynamicTensors. */
  method DecodeActualStrides(values: seq<int>) returns (strides: seq<int>)
    requires HasStrides(values)
    ensures strides == DecodeStrides(values)
  {
    strides := [];
    for i := 2 to 2 + values[0]
      invariant strides == values[2..i]
    {
      strides := strides + [values[i]];
    }
    strides := Reverse(strides);
  }

  lemma Int64Survives(x: int)
    requires IsInt64(x)
    ensures ToInt64(Cast(U64, ToWord(Cast(U64, x)))) == x
  {
  }

  function StrideValues(strides: seq<Operand>, offset: Operand, isAsStrided: bool, stack: Stack): (r: seq<int>)
    requires |strides| <= SYN_MAX_TENSOR_DIM + 1 && AllResolve(StrideLayout(strides, offset, isAsStrided).operands, stack)
    ensures |r| == SYN_MAX_TENSOR_DIM + 3
  {
    HostValues(RecordOf(StrideLayout(strides, offset, isAsStrided), stack).host)
  }

  lemma StrideValueAt(strides: seq<Operand>, offset: Operand, isAsStrided: bool, stack: Stack, i: nat)
    requires |strides| <= SYN_MAX_TENSOR_DIM + 1 && AllResolve(StrideLayout(strides, offset, isAsStrided).operands, stack)
    requires i < SYN_MAX_TENSOR_DIM + 3 && IsInt64(ValueOf(StrideLayout(strides, offset, isAsStrided).operands[i], stack))
    ensures StrideValues(strides, offset, isAsStrided, stack)[i] == ValueOf(StrideLayout(strides, offset, isAsStrided).operands[i], stack)
  {
    Int64Survives(ValueOf(StrideLayout(strides, offset, isAsStrided).operands[i], stack));
  }

  /** A recorded or patched stride payload is [count, offset, strides reversed, zeros]. */
  lemma StridePayload(strides: seq<Operand>, offset: Operand, isAsStrided: bool, stack: Stack)
    requires |strides| <= SYN_MAX_TENSOR_DIM + 1 && AllResolve(strides, stack) && Resolves(offset, stack)
    requires AllResolve(StrideLayout(strides, offset, isAsStrided).operands, stack)
    requires AllInt64(Values(strides, stack)) && IsInt64(ValueOf(offset, stack))
    ensures StrideValues(strides, offset, isAsStrided, stack)
            == [StrideCount(strides, isAsStrided), ValueOf(offset, stack)] + Reversed(Values(strides, stack))
               + seq(SYN_MAX_TENSOR_DIM + 1 - |strides|, _ => 0)
  {
    var ps := StrideLayout(strides, offset, isAsStrided).operands;
    var v := StrideValues(strides, offset, isAsStrided, stack);
    var plain := [StrideCount(strides, isAsStrided), ValueOf(offset, stack)] + Reversed(Values(strides, stack))
                 + seq(SYN_MAX_TENSOR_DIM + 1 - |strides|, _ => 0);
    forall i | 0 <= i < |ps| ensures v[i] == plain[i] {
      if 2 <= i < 2 + |strides| {
        assert ps[i] == strides[|strides| - 1 - (i - 2)];
        assert plain[i] == Values(strides, stack)[|strides| - 1 - (i - 2)];
      }
      assert plain[i] == ValueOf(ps[i], stack) && IsInt64(plain[i]);
      StrideValueAt(strides, offset, isAsStrided, stack, i);
    }
  }

  /** It decodes to the strides it was made from; only an as_strided of rank zero decodes to one stride, zero. */
  lemma StridesDecode(values: seq<int>, strides: seq<int>, count: nat, offset: int, zeros: seq<int>)
    requires values == [count, offset] + Reversed(strides) + zeros
    requires count == |strides| || (count == 1 && |strides| == 0 && |zeros| > 0 && zeros[0] == 0)
    ensures HasStrides(values)
    ensures DecodeStrides(values) == if count == |strides| then strides else [0]
  {
    if count == |strides| {
      assert values[2..2 + count] == Reversed(strides);
      ReverseTwice(strides);
    } else {
      assert values[2..3] == [0];
      assert Reversed([0]) == [0];
    }
  }

  /** The stride-carrying offset of a launch sits behind exactly its own strides: what is decoded from the
      entry before it are the strides of the same op under this launch's stack. */
  lemma CarriedStridesAreOwn(strides: seq<Operand>, offset: Operand, isAsStrided: bool, stack: Stack)
    requires 0 < |strides| <= SYN_MAX_TENSOR_DIM + 1 && AllResolve(strides, stack) && Resolves(offset, stack)
    requires AllResolve(StrideLayout(strides, offset, isAsStrided).operands, stack)
    requires AllInt64(Values(strides, stack)) && IsInt64(ValueOf(offset, stack))
    ensures var es := StrideEntries(strides, offset, isAsStrided, true, stack);
            && |es| == 2 && es[0].HostEntry? && es[1] == ShapeEntry(true, [ValueOf(offset, stack)])
            && HasStrides(es[0].values)
            && DecodeStrides(es[0].values) == Values(strides, stack)
  {
    StridePayload(strides, offset, isAsStrided, stack);
    StridesDecode(StrideValues(strides, offset, isAsStrided, stack), Values(strides, stack), |strides|,
                  ValueOf(offset, stack), seq(SYN_MAX_TENSOR_DIM + 1 - |strides|, _ => 0));
  }
}
