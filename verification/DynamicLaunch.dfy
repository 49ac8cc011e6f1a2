/**
 Launching a dynamic graph: every registered op patches its host payloads and shape tensors
 from the new stack and appends them to one launch list, on every launch after the first.
 */
module DynamicLaunch {
  import opened DynamicParams
  import SliceInsert

  /** A dynamic op as the graph gives it. Slice operands are [dim, start, end, step]. */
  datatype OpSpec =
    | Repeat(repeats: seq<Operand>)
    | Randperm(end: Operand)
    | ConstantPad(pads: seq<Operand>)
    | Arange(bounds: seq<Operand>)
    | Slice(range: seq<Operand>, self: seq<Operand>)
    | AsStrided(sizes: seq<Operand>, strides: seq<Operand>, offset: Operand, selfStrides: seq<int>)
    | StridedInsert(strides: seq<Operand>, offset: Operand, selfStrides: seq<int>)
    | ShapeOnly(shapes: seq<seq<Operand>>)

  /** A shape tensor in the dynamic stack: marks, and the sizes it has now. */
  datatype Shape = Shape(marks: seq<int>, sizes: seq<int>)

  type Pair = (int, int)

  /** A registered op: the payload (or mark and value pairs) and the shape tensors its patch function is given. */
  datatype PlannedOp =
    | PlannedHost(l: Layout, rec: Recorded)
    | PlannedArange(host: HostTensor, bounds: seq<Pair>)
    | PlannedSlice(host: HostTensor, range: seq<Pair>, self: seq<Pair>)
    | PlannedStrides(l: Layout, rec: Recorded, offset: Option<Shape>, sizes: Option<Shape>)
    | PlannedShapes(shapes: seq<Shape>)

  /** An element of launch_shapes: a host tensor (registered length, element size, type, bytes) with its
      patch values, or a shape tensor with its sizes. A shape tensor may carry stride data. */
  datatype LaunchEntry =
    | HostEntry(size: nat, elSize: nat, width: Width, totalElem: nat, values: seq<int>)
    | ShapeEntry(carries: bool, sizes: seq<int>)

  /** What is not part of this model: the number of arange elements. */
  datatype Kernels = Kernels(depth: (int, int, int) -> int)

  function AllOperands(s: OpSpec): seq<Operand> {
    match s
    case Repeat(ps) => ps
    case Randperm(end) => [end]
    case ConstantPad(ps) => ps
    case Arange(ps) => ps
    case Slice(range, self) => range + self
    case AsStrided(sizes, strides, offset, _) => sizes + strides + [offset]
    case StridedInsert(strides, offset, _) => strides + [offset]
    case ShapeOnly(shapes) => Concat(shapes)
  }

  function Concat(shapes: seq<seq<Operand>>): seq<Operand> {
    if shapes == [] then [] else shapes[0] + Concat(shapes[1..])
  }

  /** The ranks the layouts have room for. */
  predicate FitsLayout(s: OpSpec) {
    match s
    case ConstantPad(pads) => |pads| / 2 <= MAX_DIMENSIONS_NUM
    case Arange(bounds) => |bounds| == 3
    case Slice(range, self) => |range| == 4 && 1 <= |self| <= SYN_MAX_TENSOR_DIM
    case AsStrided(_, strides, _, _) => |strides| <= SYN_MAX_TENSOR_DIM + 1
    case StridedInsert(strides, _, _) => |strides| <= SYN_MAX_TENSOR_DIM + 1
    case _ => true
  }

  /** The stack has a scalar for every symbol, and a slice names a dimension of its tensor and steps forward. */
  ghost predicate Ready(s: OpSpec, stack: Stack) {
    FitsLayout(s) && AllResolve(AllOperands(s), stack)
    && (s.Slice? ==> AllResolve(s.range, stack) && AllResolve(s.self, stack) && SliceAccepted(Values(s.range, stack), Values(s.self, stack)))
  }

  // --- shape tensors ---

  predicate Patchable(s: Shape, stack: Stack) {
    forall i :: 0 <= i < |s.marks| ==> s.marks[i] == LONG_MAX || Readable(stack, s.marks[i])
  }

  function NewSizes(s: Shape, stack: Stack): (r: seq<int>)
    requires |s.marks| == |s.sizes| && Patchable(s, stack)
    ensures |r| == |s.sizes|
  {
    seq(|s.marks|, i requires 0 <= i < |s.marks| => if s.marks[i] == LONG_MAX then s.sizes[i] else stack[s.marks[i]].v)
  }

  /** The first entry, from i on, that is neither a constant nor in the stack. */
  function FirstStop(s: Shape, stack: Stack, i: nat): (k: nat)
    requires i <= |s.marks|
    ensures i <= k <= |s.marks|
    decreases |s.marks| - i
  {
    if i == |s.marks| || !(s.marks[i] == LONG_MAX || Readable(stack, s.marks[i])) then i else FirstStop(s, stack, i + 1)
  }

  /** UpdateShapeTensorSize: constants keep the size the tensor has; the first entry that has no value
      empties the tensor if it marks a negative constant, and fails otherwise. */
  method UpdateShapeTensorSize(s: Shape, stack: Stack) returns (r: Option<seq<int>>)
    requires |s.marks| == |s.sizes|
    ensures Patchable(s, stack) ==> r == Some(NewSizes(s, stack))
    ensures !Patchable(s, stack) ==>
              var k := FirstStop(s, stack, 0);
              k < |s.marks| && r == if s.marks[k] < 0 then Some([]) else Option.None
  {
    var shape: seq<int> := [];
    for i := 0 to |s.marks|
      invariant |shape| == i && FirstStop(s, stack, 0) == FirstStop(s, stack, i)
      invariant forall j :: 0 <= j < i ==> s.marks[j] == LONG_MAX || Readable(stack, s.marks[j])
      invariant forall j :: 0 <= j < i ==> shape[j] == if s.marks[j] == LONG_MAX then s.sizes[j] else stack[s.marks[j]].v
    {
      if s.marks[i] == LONG_MAX {
        shape := shape + [s.sizes[i]];
      } else if s.marks[i] < 0 {
        return Some([]);
      } else {
        var value := GetSymintValue(stack, s.marks[i]);
        if value.None? {
          return Option.None;
        }
        shape := shape + [value.value];
      }
    }
    assert shape == NewSizes(s, stack);
    r := Some(shape);
  }

  /** A shape tensor as it is after being recorded with, or patched for, a stack. */
  function ShapeFor(ps: seq<Operand>, stack: Stack): Shape
    requires AllResolve(ps, stack)
  {
    Shape(Marks(ps, true), Values(ps, stack))
  }

  predicate NonNegative(ps: seq<Operand>) { forall i :: 0 <= i < |ps| && ps[i].Constant? ==> ps[i].v >= 0 }

  /** Patched from whatever launch came last, the tensor is as recorded with this launch's stack. */
  method PatchShape(s: Shape, ghost ps: seq<Operand>, ghost last: Stack, stack: Stack) returns (r: Shape)
    requires AllResolve(ps, last) && AllResolve(ps, stack) && NonNegative(ps) && s == ShapeFor(ps, last)
    ensures r == ShapeFor(ps, stack)
  {
    forall i | 0 <= i < |ps| ensures s.marks[i] == LONG_MAX || Readable(stack, s.marks[i]) {
      assert Resolves(ps[i], stack);
    }
    var sizes := UpdateShapeTensorSize(s, stack);
    forall i | 0 <= i < |ps| ensures NewSizes(s, stack)[i] == ValueOf(ps[i], stack) {
      assert Resolves(ps[i], stack);
    }
    assert sizes.value == Values(ps, stack);
    r := s.(sizes := sizes.value);
  }

  // --- arange and slice keep mark and value pairs ---

  function PairsOf(ps: seq<Operand>, stack: Stack, markNegative: bool): (r: seq<Pair>)
    requires AllResolve(ps, stack)
    ensures |r| == |ps|
  {
    seq(|ps|, i requires 0 <= i < |ps| => (MarkOf(ps[i], markNegative), ValueOf(ps[i], stack)))
  }

  method RecordPairs(ps: seq<Operand>, stack: Stack, markNegative: bool) returns (pairs: seq<Pair>)
    requires AllResolve(ps, stack)
    ensures pairs == PairsOf(ps, stack, markNegative)
  {
    pairs := [];
    for i := 0 to |ps|
      invariant |pairs| == i && forall j :: 0 <= j < i ==> pairs[j] == (MarkOf(ps[j], markNegative), ValueOf(ps[j], stack))
    {
      var value, mark := GetValueAndScalarIndexFromInput(ps[i], stack, markNegative);
      pairs := pairs + [(mark, value)];
    }
  }

  /** One pair, patched; `tolerant` takes a negative mark for a constant. */
  method PatchPair(pair: Pair, stack: Stack, tolerant: bool) returns (r: Option<int>)
    ensures r == if FromRecord(pair.0, tolerant) then Some(pair.1)
                 else if Readable(stack, pair.0) then Some(stack[pair.0].v) else Option.None
  {
    if pair.0 == LONG_MAX || (tolerant && pair.0 < 0) {
      r := Some(pair.1);
    } else {
      r := GetSymintValue(stack, pair.0);
    }
  }

  /** Every pair, patched; the last one strictly when `strictLast` is set. */
  method PatchPairs(pairs: seq<Pair>, stack: Stack, tolerant: bool) returns (r: Option<seq<int>>)
    ensures (forall i :: 0 <= i < |pairs| ==> FromRecord(pairs[i].0, tolerant) || Readable(stack, pairs[i].0)) ==>
              r.Some? && |r.value| == |pairs|
              && forall i :: 0 <= i < |pairs| ==>
                   r.value[i] == if FromRecord(pairs[i].0, tolerant) then pairs[i].1 else stack[pairs[i].0].v
    ensures r.Some? ==> |r.value| == |pairs|
  {
    var values: seq<int> := [];
    for i := 0 to |pairs|
      invariant |values| == i
      invariant forall j :: 0 <= j < i ==> FromRecord(pairs[j].0, tolerant) || Readable(stack, pairs[j].0)
      invariant forall j :: 0 <= j < i ==> values[j] == if FromRecord(pairs[j].0, tolerant) then pairs[j].1 else stack[pairs[j].0].v
    {
      var v := PatchPair(pairs[i], stack, tolerant);
      if v.None? {
        return Option.None;
      }
      values := values + [v.value];
    }
    r := Some(values);
  }

  lemma PairsFollow(ps: seq<Operand>, first: Stack, stack: Stack, markNegative: bool, tolerant: bool, i: nat)
    requires AllResolve(ps, first) && AllResolve(ps, stack) && i < |ps|
    requires tolerant || !markNegative || (ps[i].Constant? ==> ps[i].v >= 0)
    ensures var pair := PairsOf(ps, first, markNegative)[i];
            && (FromRecord(pair.0, tolerant) || Readable(stack, pair.0))
            && (if FromRecord(pair.0, tolerant) then pair.1 else stack[pair.0].v) == ValueOf(ps[i], stack)
  {
    assert Resolves(ps[i], stack) && Resolves(ps[i], first);
  }

  method PatchRecordedPairs(pairs: seq<Pair>, ghost ps: seq<Operand>, ghost first: Stack, stack: Stack, ghost markNegative: bool, tolerant: bool)
    returns (r: Option<seq<int>>)
    requires AllResolve(ps, first) && pairs == PairsOf(ps, first, markNegative)
    ensures AllResolve(ps, stack) && (tolerant || !markNegative || NonNegative(ps)) ==> r == Some(Values(ps, stack))
    ensures r.Some? ==> |r.value| == |ps|
  {
    r := PatchPairs(pairs, stack, tolerant);
    if AllResolve(ps, stack) && (tolerant || !markNegative || NonNegative(ps)) {
      forall i | 0 <= i < |ps|
        ensures FromRecord(pairs[i].0, tolerant) || Readable(stack, pairs[i].0)
        ensures (if FromRecord(pairs[i].0, tolerant) then pairs[i].1 else stack[pairs[i].0].v) == ValueOf(ps[i], stack)
      {
        PairsFollow(ps, first, stack, markNegative, tolerant, i);
      }
      assert r.value == Values(ps, stack);
    }
  }

  /** start, end, step as 32-bit integers. */
  function ArangeLayout(bounds: seq<Operand>): Layout { Layout(bounds, I32, I32, true, false, false) }

  /** at::maybe_wrap_dim for a rank of at least one. */
  function WrapDim(dim: int, rank: nat): (r: Option<int>)
    requires rank > 0
    ensures r.Some? ==> 0 <= r.value < rank && (r.value - dim) % rank == 0
  {
    if 0 <= dim < rank then Some(dim)
    else if dim < 0 && 0 <= dim + rank then Some(dim + rank)
    else Option.None
  }

  /** rank, five steps, five starts; a dimension counted from the back holds the slice. */
  function SliceParams(rank: nat, dim: nat, start: int, step: int): (r: seq<int>)
    requires dim < rank <= SYN_MAX_TENSOR_DIM
    ensures |r| == 11
  {
    [rank, 1, 1, 1, 1, 1, 0, 0, 0, 0, 0][rank - dim := step][rank - dim + 5 := start]
  }

  // --- what re-recording would give ---

  /** The patch values that stand for a recorded payload. */
  function HostValues(t: HostTensor): (r: seq<int>)
    ensures |r| == |t.words|
  {
    seq(|t.words|, i requires 0 <= i < |t.words| => ToInt64(Cast(t.width, t.words[i])))
  }

  function EntryFor(t: HostTensor, values: seq<int>): LaunchEntry {
    HostEntry(t.size, t.elSize, t.width, t.totalElem, values)
  }

  function RecordedEntry(t: HostTensor): LaunchEntry { EntryFor(t, HostValues(t)) }

  /** SliceOperator::compute_output_shape accepts the slice: [dim, start, end, step] over these sizes. */
  predicate SliceAccepted(range: seq<int>, self: seq<int>) {
    && |range| == 4 && 1 <= |self| <= SYN_MAX_TENSOR_DIM && WrapDim(range[0], |self|).Some? && range[3] > 0
    && forall d :: 0 <= d < |self| ==> self[d] >= 0
  }

  function SlicedDim(range: seq<int>, self: seq<int>): (d: nat)
    requires SliceAccepted(range, self)
    ensures d < |self|
  {
    WrapDim(range[0], |self|).value
  }

  /** The start after compute_output_shape has clamped it in place. */
  function SliceFrom(range: seq<int>, self: seq<int>): nat
    requires SliceAccepted(range, self)
  {
    SliceInsert.ClampStart(range[1], self[SlicedDim(range, self)])
  }

  function SliceTo(range: seq<int>, self: seq<int>): (r: nat)
    requires SliceAccepted(range, self)
    ensures SliceFrom(range, self) <= r
  {
    SliceInsert.ClampEnd(range[2], SliceFrom(range, self), self[SlicedDim(range, self)])
  }

  function SliceHost(range: seq<int>, self: seq<int>): HostTensor
    requires SliceAccepted(range, self)
  {
    HostOf(SliceParams(|self|, SlicedDim(range, self), SliceFrom(range, self), range[3]), U64, U64)
  }

  /** The sizes of the result: the sliced dimension rounded up. */
  function SliceSizes(range: seq<int>, self: seq<int>): seq<int>
    requires SliceAccepted(range, self)
  {
    self[SlicedDim(range, self) := SliceInsert.SliceLength(SliceFrom(range, self), SliceTo(range, self), range[3])]
  }

  /** The bounds and the shape: end capped by the caller, then SliceOperator::compute_output_shape, which
      clamps start and end in place. */
  method ComputeOutputShape(self: seq<int>, dim: nat, start0: int, end0: int, step: int) returns (start: int, shape: seq<int>)
    requires dim < |self| && self[dim] >= 0 && step > 0
    ensures start == SliceInsert.ClampStart(start0, self[dim])
    ensures shape == self[dim := SliceInsert.SliceLength(start, SliceInsert.ClampEnd(end0, start, self[dim]), step)]
  {
    var size := self[dim];
    var end := if size < end0 then size else end0;
    start := if start0 == LONG_MAX then 0 else start0;
    if start < 0 {
      start := start + size;
    }
    if end < 0 {
      end := end + size;
    }
    if start < 0 {
      start := 0;
    } else if start >= size {
      start := size;
    }
    if end < start {
      end := start;
    } else if end >= size {
      end := size;
    }
    shape := self[dim := (end - start + step - 1) / step];
  }

  function OffsetEntry(ratio: bool, offset: int): seq<LaunchEntry> {
    if ratio then [ShapeEntry(true, [offset])] else []
  }

  /** IsStridedRatioUndefined. */
  predicate RatioUndefined(selfStrides: seq<int>, strides: seq<int>) {
    |selfStrides| != |strides| || exists i :: 0 <= i < |selfStrides| && strides[i] < selfStrides[i]
  }

  method IsStridedRatioUndefined(selfStrides: seq<int>, strides: seq<int>) returns (r: bool)
    ensures r == RatioUndefined(selfStrides, strides)
  {
    if |selfStrides| != |strides| {
      return true;
    }
    for i := 0 to |selfStrides|
      invariant forall j :: 0 <= j < i ==> strides[j] >= selfStrides[j]
    {
      if strides[i] < selfStrides[i] {
        return true;
      }
    }
    r := false;
  }

  /** Division as the source's language does it: towards zero. */
  function Quotient(x: int, n: int): int
    requires n != 0
  {
    if (x >= 0) == (n > 0) then Abs(x) / Abs(n) else -(Abs(x) / Abs(n))
  }

  function Abs(x: int): nat { if x < 0 then -x else x }

  /** The ratios recorded on the ratio path; none where a base stride is zero, which the source divides by. */
  method StrideRatios(selfStrides: seq<int>, strides: seq<int>) returns (r: Option<seq<int>>)
    requires |selfStrides| == |strides|
    ensures r.None? <==> exists i :: 0 <= i < |selfStrides| && selfStrides[i] == 0
    ensures r.Some? ==> |r.value| == |strides| && forall i :: 0 <= i < |strides| ==> selfStrides[i] != 0 && r.value[i] == Quotient(strides[i], selfStrides[i])
  {
    var ratios: seq<int> := [];
    for i := 0 to |strides|
      invariant |ratios| == i
      invariant forall j :: 0 <= j < i ==> selfStrides[j] != 0 && ratios[j] == Quotient(strides[j], selfStrides[j])
    {
      if selfStrides[i] == 0 {
        return Option.None;
      }
      ratios := ratios + [Quotient(strides[i], selfStrides[i])];
    }
    r := Some(ratios);
  }

  predicate AllPositive(s: seq<int>) { forall i :: 0 <= i < |s| ==> s[i] > 0 }

  /** The strides a minimum or maximum pass rebuilds from the base's strides and the ratios. */
  function Rebuilt(selfStrides: seq<int>, ratios: seq<int>): seq<int>
    requires |selfStrides| == |ratios|
  {
    seq(|ratios|, i requires 0 <= i < |ratios| => selfStrides[i] * ratios[i])
  }

  /** What the choice of path protects: with positive base strides of the view's rank, the ratios are used exactly
      when every one of them is at least one, so no pass rebuilds a stride of zero. */
  lemma RatioDefinedIff(selfStrides: seq<int>, strides: seq<int>)
    requires |selfStrides| == |strides| && AllPositive(selfStrides)
    ensures !RatioUndefined(selfStrides, strides) <==> forall i :: 0 <= i < |strides| ==> Quotient(strides[i], selfStrides[i]) >= 1
  {
    forall i | 0 <= i < |strides| ensures strides[i] < selfStrides[i] <==> Quotient(strides[i], selfStrides[i]) < 1 {
      BelowOne(strides[i], selfStrides[i]);
    }
  }

  lemma BelowOne(x: int, n: int)
    requires n > 0
    ensures x < n <==> Quotient(x, n) < 1
  {
    if 0 <= x < n { SliceInsert.DivFloor(x, n); }
    if x >= n { SliceInsert.DivFloor(x, n); if x / n < 1 { SliceInsert.MulLe(x / n + 1, 1, n); } }
    if x < 0 { assert Quotient(x, n) == -((-x) / n); }
  }

  /** The strides rebuilt over the recorded base are the view's exactly where the view's are multiples of the base's. */
  lemma RebuiltIff(selfStrides: seq<int>, strides: seq<int>, ratios: seq<int>)
    requires |selfStrides| == |strides| == |ratios| && AllPositive(selfStrides) && !RatioUndefined(selfStrides, strides)
    requires forall i :: 0 <= i < |strides| ==> ratios[i] == Quotient(strides[i], selfStrides[i])
    ensures Rebuilt(selfStrides, ratios) == strides <==> forall i :: 0 <= i < |strides| ==> strides[i] % selfStrides[i] == 0
  {
    forall i | 0 <= i < |strides| ensures Rebuilt(selfStrides, ratios)[i] == strides[i] <==> strides[i] % selfStrides[i] == 0 {
      assert Quotient(strides[i], selfStrides[i]) == strides[i] / selfStrides[i];
      WholeMultiple(strides[i], selfStrides[i]);
    }
  }

  lemma WholeMultiple(x: int, n: int)
    requires n > 0
    ensures n * (x / n) == x <==> x % n == 0
  {
    assert x == n * (x / n) + x % n;
  }

  lemma Operands(s: OpSpec, stack: Stack)
    requires Ready(s, stack)
    ensures s.AsStrided? ==> AllResolve(s.sizes, stack) && AllResolve(s.strides, stack) && Resolves(s.offset, stack)
    ensures s.StridedInsert? ==> AllResolve(s.strides, stack) && Resolves(s.offset, stack)
    ensures s.Slice? ==> AllResolve(s.range, stack) && AllResolve(s.self, stack)
    ensures s.AsStrided? ==> AllResolve(StrideLayout(s.strides, s.offset, true).operands, stack)
    ensures s.StridedInsert? ==> AllResolve(StrideLayout(s.strides, s.offset, false).operands, stack)
  {
    var all := AllOperands(s);
    match s {
      case AsStrided(sizes, strides, offset, _) =>
        PartsResolve(sizes, strides + [offset], all, stack);
        PartsResolve(strides, [offset], strides + [offset], stack);
        assert Resolves([offset][0], stack);
        StrideOperandsResolve(strides, offset, StrideCount(strides, true), stack);
      case StridedInsert(strides, offset, _) =>
        PartsResolve(strides, [offset], all, stack);
        assert Resolves([offset][0], stack);
        StrideOperandsResolve(strides, offset, StrideCount(strides, false), stack);
      case Slice(range, self) => PartsResolve(range, self, all, stack);
      case _ =>
    }
  }

  lemma PartsResolve(a: seq<Operand>, b: seq<Operand>, whole: seq<Operand>, stack: Stack)
    requires AllResolve(whole, stack) && whole == a + b
    ensures AllResolve(a, stack) && AllResolve(b, stack)
  {
    forall i | 0 <= i < |a| ensures Resolves(a[i], stack) { assert whole[i] == a[i]; }
    forall i | 0 <= i < |b| ensures Resolves(b[i], stack) { assert whole[|a| + i] == b[i]; }
  }

  lemma StrideOperandsResolve(strides: seq<Operand>, offset: Operand, count: nat, stack: Stack)
    requires AllResolve(strides, stack) && Resolves(offset, stack) && |strides| <= SYN_MAX_TENSOR_DIM + 1
    ensures AllResolve(StrideOperands(strides, offset, count), stack)
  {
    var ps := StrideOperands(strides, offset, count);
    forall k | 0 <= k < |ps| ensures Resolves(ps[k], stack) {
      if 2 <= k < 2 + |strides| { assert ps[k] == strides[|strides| - 1 - (k - 2)]; }
    }
  }

  lemma PadOperandsResolve(pads: seq<Operand>, stack: Stack)
    requires AllResolve(pads, stack) && |pads| / 2 <= MAX_DIMENSIONS_NUM
    ensures AllResolve(PadOperands(pads), stack)
  {
  }
}
