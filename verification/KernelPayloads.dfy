/**
 How the device kernels read the payloads of slice, repeat, arange and randperm back, and what a
 launch therefore computes: the payload layouts are right because their readers take them apart again.
 */
module KernelPayloads {
  import opened DynamicParams
  import opened DynamicLaunch
  import opened DynamicGraph
  import opened HostMemory
  import IndexSpace
  import SliceInsert

  // --- an op's payload in the chunk ---

  lemma EntryInList(plan: seq<OpSpec>, first: Stack, k: Kernels, stack: Stack, j: nat, i: nat, es: seq<LaunchEntry>, at: nat)
    requires first in Launchable(plan) && stack in Launchable(plan) && j < |plan| && es == ExpectedList(plan, first, k, stack)
    requires i < |Segment(plan, first, k, stack, j)| && at == OpStart(plan, first, k, stack, j) + i
    ensures at < |es| && es[at] == Segment(plan, first, k, stack, j)[i]
  {
    var before, own, rest := SegmentInList(plan, first, k, stack, j);
    InMiddle(es, before, own, rest, i, at);
  }

  lemma InMiddle(es: seq<LaunchEntry>, before: seq<LaunchEntry>, own: seq<LaunchEntry>, rest: seq<LaunchEntry>, i: nat, at: nat)
    requires es == before + own + rest && i < |own| && at == |before| + i
    ensures at < |es| && es[at] == own[i]
  {
  }

  /** Where a pass starts to read entry `at` of a list. */
  function EntryStart(es: seq<LaunchEntry>, at: nat, dryRun: bool, pass: Pass): nat
    requires at < |es| && es[at].HostEntry?
  {
    ReadStart(Start(es, at), Start(es, at) + es[at].totalElem, es[at].width, es[at].size, dryRun, pass)
  }

  lemma ListReads(plan: seq<OpSpec>, first: Stack, k: Kernels, stack: Stack,
                  es: seq<LaunchEntry>, at: nat, image: seq<Byte>, dryRun: bool, pass: Pass)
    requires first in Launchable(plan) && stack in Launchable(plan) && es == ExpectedList(plan, first, k, stack)
    requires image == Image(es, |es|) && at < |es| && es[at].HostEntry?
    ensures EntryStart(es, at, dryRun, pass) in PlacesReading(image, es[at].width, CastAll(es[at].width, es[at].values))
  {
    LaunchListPlaceable(plan, first, k, stack);
    PlaceableMeans(es);
    PatchedReads(es, at, image, dryRun, pass, EntryStart(es, at, dryRun, pass));
  }

  /** Host entry i of op j is at its place in the list, and every pass reads its own elements. */
  lemma PayloadAt(plan: seq<OpSpec>, first: Stack, k: Kernels, stack: Stack, j: nat, i: nat, own: LaunchEntry,
                  es: seq<LaunchEntry>, at: nat, image: seq<Byte>, dryRun: bool, pass: Pass)
    requires first in Launchable(plan) && stack in Launchable(plan) && j < |plan|
    requires es == ExpectedList(plan, first, k, stack) && image == Image(es, |es|)
    requires i < |Segment(plan, first, k, stack, j)| && own == Segment(plan, first, k, stack, j)[i] && own.HostEntry?
    requires at == OpStart(plan, first, k, stack, j) + i
    ensures at < |es| && es[at] == own
    ensures EntryStart(es, at, dryRun, pass) in PlacesReading(image, own.width, CastAll(own.width, own.values))
  {
    EntryInList(plan, first, k, stack, j, i, es, at);
    ListReads(plan, first, k, stack, es, at, image, dryRun, pass);
  }

  // --- slice ---

  /** Unsigned words taken into signed numbers. */
  function Signed(words: seq<int>): (r: seq<int>)
    ensures |r| == |words| && forall i :: 0 <= i < |words| ==> r[i] == ToInt64(words[i])
  {
    seq(|words|, i requires 0 <= i < |words| => ToInt64(words[i]))
  }

  predicate SlicePayload(v: seq<int>) { |v| == 11 && 0 <= v[0] <= SYN_MAX_TENSOR_DIM }

  /** get_start_tensor: the last words, from the back. */
  function StartTensor(v: seq<int>): (r: seq<int>)
    requires SlicePayload(v)
    ensures |r| == v[0]
  {
    Reversed(v)[SYN_MAX_TENSOR_DIM - v[0]..SYN_MAX_TENSOR_DIM]
  }

  /** get_step_tensor: the words behind the first, from the back. */
  function StepTensor(v: seq<int>): (r: seq<int>)
    requires SlicePayload(v)
    ensures |r| == v[0]
  {
    Reversed(v)[10 - v[0]..10]
  }

  /** The kernel takes element e of dimension d of its result from here. */
  function SourceIndex(v: seq<int>, d: nat, e: int): int
    requires SlicePayload(v) && d < v[0]
  {
    StartTensor(v)[d] + e * StepTensor(v)[d]
  }

  /** Some element of dimension d of a result with these sizes comes from index i. */
  ghost predicate TakenFrom(v: seq<int>, sizes: seq<int>, d: nat, i: int)
    requires SlicePayload(v) && d < v[0] && d < |sizes|
  {
    exists e :: 0 <= e < sizes[d] && SourceIndex(v, d, e) == i
  }

  /** The payload and the sizes of the result slice the tensor as Python does: in the sliced dimension exactly
      Python's indices are taken, all the others are taken whole and in order. */
  ghost predicate SlicesAsPython(v: seq<int>, sizes: seq<int>, range: seq<int>, self: seq<int>)
    requires SliceAccepted(range, self)
  {
    && SlicePayload(v) && v[0] == |self| == |sizes|
    && (forall d, e :: 0 <= d < |self| && d != SlicedDim(range, self) ==> SourceIndex(v, d, e) == e && sizes[d] == self[d])
    && (var d := SlicedDim(range, self);
        forall i :: TakenFrom(v, sizes, d, i) <==> SliceInsert.PythonSelected(i, range[1], range[2], range[3], self[d]))
  }

  lemma SliceParamsDecode(rank: nat, dim: nat, start: int, step: int, d: nat)
    requires d < rank && dim < rank <= SYN_MAX_TENSOR_DIM
    ensures SlicePayload(SliceParams(rank, dim, start, step)) && SliceParams(rank, dim, start, step)[0] == rank
    ensures StartTensor(SliceParams(rank, dim, start, step))[d] == if d == dim then start else 0
    ensures StepTensor(SliceParams(rank, dim, start, step))[d] == if d == dim then step else 1
  {
    var v := SliceParams(rank, dim, start, step);
    assert StartTensor(v)[d] == v[10 - (SYN_MAX_TENSOR_DIM - rank + d)];
    assert StepTensor(v)[d] == v[rank - d];
  }

  /** What the kernel takes in the sliced dimension: the indices of the clamped slice. */
  lemma SlicedIndices(v: seq<int>, sizes: seq<int>, d: nat, from: nat, to: nat, step: int, i: int)
    requires SlicePayload(v) && d < v[0] && d < |sizes| && step > 0 && from <= to
    requires StartTensor(v)[d] == from && StepTensor(v)[d] == step && sizes[d] == SliceInsert.SliceLength(from, to, step)
    ensures TakenFrom(v, sizes, d, i) <==> SliceInsert.Selected(i, from, to, step)
  {
    if TakenFrom(v, sizes, d, i) {
      var e :| 0 <= e < sizes[d] && SourceIndex(v, d, e) == i;
      SliceInsert.LengthCounts(from, to, step, e);
      StepsApart(i, from, step, e);
    }
    if SliceInsert.Selected(i, from, to, step) {
      var e := (i - from) / step;
      StepsBetween(i, from, step);
      SliceInsert.LengthCounts(from, to, step, e);
      assert SourceIndex(v, d, e) == i;
    }
  }

  lemma StepsApart(i: int, from: int, step: int, e: int)
    requires step > 0 && e >= 0 && i == from + e * step
    ensures i >= from && (i - from) % step == 0
  {
    SliceInsert.MulLe(0, e, step);
    MultipleMod(e, step);
  }

  lemma MultipleMod(e: int, step: int)
    requires step > 0 && e >= 0
    ensures (e * step) % step == 0
  {
    IndexSpace.DivModUnique(e, 0, step);
  }

  lemma StepsBetween(i: int, from: int, step: int)
    requires step > 0 && i >= from && (i - from) % step == 0
    ensures (i - from) / step >= 0 && i == from + ((i - from) / step) * step
  {
  }

  /** The parameters of an accepted slice, with the sizes beside them, slice as Python does. */
  lemma AcceptedSlices(range: seq<int>, self: seq<int>)
    requires SliceAccepted(range, self)
    ensures SlicesAsPython(SliceParams(|self|, SlicedDim(range, self), SliceFrom(range, self), range[3]), SliceSizes(range, self), range, self)
  {
    var dim, from, to := SlicedDim(range, self), SliceFrom(range, self), SliceTo(range, self);
    var v, sizes := SliceParams(|self|, dim, from, range[3]), SliceSizes(range, self);
    forall d: nat | d < |self| ensures StartTensor(v)[d] == (if d == dim then from else 0) && StepTensor(v)[d] == (if d == dim then range[3] else 1) {
      SliceParamsDecode(|self|, dim, from, range[3], d);
    }
    forall i ensures TakenFrom(v, sizes, dim, i) <==> SliceInsert.PythonSelected(i, range[1], range[2], range[3], self[dim]) {
      SlicedIndices(v, sizes, dim, from, to, range[3], i);
      SliceInsert.FixedSliceIsPython(range[1], range[2], range[3], self[dim], i);
    }
  }

  lemma SignedSurvives(params: seq<int>)
    requires AllInt64(params)
    ensures Signed(CastAll(U64, HostValues(HostOf(params, U64, U64)))) == params
  {
    var values := HostValues(HostOf(params, U64, U64));
    forall i | 0 <= i < |params| ensures Signed(CastAll(U64, values))[i] == params[i] {
      assert values[i] == ToInt64(Cast(U64, ToWord(Cast(U64, params[i]))));
      Int64Read(params[i], values[i]);
    }
  }

  lemma Int64Read(x: int, v: int)
    requires IsInt64(x) && v == ToInt64(Cast(U64, ToWord(Cast(U64, x))))
    ensures ToInt64(Cast(U64, v)) == x
  {
    Int64Survives(x);
  }

  lemma SliceParamsInt64(rank: nat, dim: nat, start: int, step: int)
    requires dim < rank <= SYN_MAX_TENSOR_DIM && IsInt64(start) && IsInt64(step)
    ensures AllInt64(SliceParams(rank, dim, start, step))
  {
  }

  /** The host entry of an accepted slice, as a pass reads it. */
  lemma SliceEntrySlices(range: seq<int>, self: seq<int>)
    requires SliceAccepted(range, self) && IsInt64(range[3]) && AllInt64(self)
    ensures SlicesAsPython(Signed(CastAll(U64, RecordedEntry(SliceHost(range, self)).values)), SliceSizes(range, self), range, self)
  {
    var dim, from := SlicedDim(range, self), SliceFrom(range, self);
    SliceParamsInt64(|self|, dim, from, range[3]);
    SignedSurvives(SliceParams(|self|, dim, from, range[3]));
    AcceptedSlices(range, self);
  }

  /** A slice op in any launch: every pass reads from the chunk a payload that, with the sizes in front of it,
      slices the tensor of this launch's stack as Python does. */
  lemma SliceLaunched(plan: seq<OpSpec>, first: Stack, k: Kernels, stack: Stack, j: nat,
                      es: seq<LaunchEntry>, p: nat, image: seq<Byte>, dryRun: bool, pass: Pass)
    requires first in Launchable(plan) && stack in Launchable(plan) && j < |plan| && plan[j].Slice?
    requires es == ExpectedList(plan, first, k, stack) && p == OpStart(plan, first, k, stack, j) && image == Image(es, |es|)
    requires SliceStackFits(plan[j], stack)
    ensures p + 1 < |es| && es[p].ShapeEntry? && es[p + 1].HostEntry? && es[p + 1].width == U64
    ensures EntryStart(es, p + 1, dryRun, pass) in PlacesReading(image, U64, CastAll(U64, es[p + 1].values))
    ensures SlicesAsPython(Signed(CastAll(U64, es[p + 1].values)), es[p].sizes, Values(plan[j].range, stack), Values(plan[j].self, stack))
  {
    var range, self := Values(plan[j].range, stack), Values(plan[j].self, stack);
    SliceSegment(plan, first, k, stack, j);
    EntryInList(plan, first, k, stack, j, 0, es, p);
    PayloadAt(plan, first, k, stack, j, 1, RecordedEntry(SliceHost(range, self)), es, p + 1, image, dryRun, pass);
    SliceEntrySlices(range, self);
  }

  /** The slice is accepted, and step and sizes are 64-bit numbers. */
  predicate SliceStackFits(s: OpSpec, stack: Stack)
    requires s.Slice?
  {
    && AllResolve(s.range, stack) && AllResolve(s.self, stack) && SliceAccepted(Values(s.range, stack), Values(s.self, stack))
    && IsInt64(Values(s.range, stack)[3]) && AllInt64(Values(s.self, stack))
  }

  lemma SliceSegment(plan: seq<OpSpec>, first: Stack, k: Kernels, stack: Stack, j: nat)
    requires first in Launchable(plan) && stack in Launchable(plan) && j < |plan| && plan[j].Slice?
    requires SliceStackFits(plan[j], stack)
    ensures var range, self := Values(plan[j].range, stack), Values(plan[j].self, stack);
            Segment(plan, first, k, stack, j) == [ShapeEntry(false, SliceSizes(range, self)), RecordedEntry(SliceHost(range, self))]
  {
    LaunchableAt(plan, first, j);
    LaunchableAt(plan, stack, j);
  }

  // --- repeat ---

  /** The counts from the words read as unsigned: back to front, each taken as a signed 32-bit number. */
  method RepeatCounts(words: seq<int>) returns (counts: seq<int>)
    ensures counts == CountsOf(words)
  {
    counts := [];
    var i := |words|;
    while i > 0
      invariant 0 <= i <= |words| && |counts| == |words| - i
      invariant forall d :: 0 <= d < |counts| ==> counts[d] == Cast(I32, words[|words| - 1 - d])
    {
      i := i - 1;
      counts := counts + [Cast(I32, words[i])];
    }
    assert |counts| == |words|;
  }

  function CountsOf(words: seq<int>): (r: seq<int>)
    ensures |r| == |words|
  {
    seq(|words|, d requires 0 <= d < |words| => Cast(I32, words[|words| - 1 - d]))
  }

  /** RepeatOperator::compute_output_shape: the tensor's sizes, with ones in front, times the counts. */
  function RepeatedShape(self: seq<nat>, counts: seq<int>): (r: seq<int>)
    requires |self| <= |counts|
    ensures |r| == |counts|
  {
    var more := |counts| - |self|;
    seq(|counts|, d requires 0 <= d < |counts| => (if d < more then 1 else self[d - more]) * counts[d])
  }

  /** The words of a payload as an unsigned reader takes them. */
  function UnsignedWords(words: seq<int>): (r: seq<int>)
    ensures |r| == |words| && forall i :: 0 <= i < |words| ==> r[i] == Cast(U32, words[i])
  {
    seq(|words|, i requires 0 <= i < |words| => Cast(U32, words[i]))
  }

  predicate AllInt32(s: seq<int>) { forall i :: 0 <= i < |s| ==> -(TWO32 / 2) <= s[i] < TWO32 / 2 }

  /** A 32-bit number survives record, patch value, host element and either reading. */
  lemma Int32Survives(x: int)
    requires -(TWO32 / 2) <= x < TWO32 / 2
    ensures var v := ToInt64(Cast(I32, ToWord(Cast(I32, x))));
            Cast(I32, v) == x && Cast(I32, Cast(U32, Cast(I32, v))) == x
  {
    CastThroughWord(I32, I32, x);
    SmallIsItself(x);
    UnsignedAndBack(x);
  }

  lemma SmallIsItself(x: int)
    requires -(TWO32 / 2) <= x < TWO32 / 2
    ensures Cast(I32, x) == x && ToInt64(x) == x
  {
  }

  lemma UnsignedAndBack(x: int)
    ensures Cast(I32, Cast(U32, x)) == Cast(I32, x)
  {
    var q := CastShifts(U32, x);
    CastCongruent(I32, x, Cast(U32, x), q);
  }

  lemma RepeatSegment(plan: seq<OpSpec>, first: Stack, k: Kernels, stack: Stack, j: nat)
    requires first in Launchable(plan) && stack in Launchable(plan) && j < |plan| && plan[j].Repeat?
    ensures AllResolve(plan[j].repeats, stack) && AllResolve(RepeatLayout(plan[j].repeats).operands, stack)
    ensures Segment(plan, first, k, stack, j) == [RecordedEntry(RecordOf(RepeatLayout(plan[j].repeats), stack).host)]
  {
    LaunchableAt(plan, first, j);
    LaunchableAt(plan, stack, j);
    ReversedValues(plan[j].repeats, stack);
  }

  lemma RepeatWords(repeats: seq<Operand>, stack: Stack, d: nat)
    requires AllResolve(repeats, stack) && AllResolve(RepeatLayout(repeats).operands, stack)
    requires AllInt32(Values(repeats, stack)) && d < |repeats|
    ensures CountsOf(UnsignedWords(CastAll(I32, HostValues(RecordOf(RepeatLayout(repeats), stack).host))))[d] == ValueOf(repeats[d], stack)
  {
    var n := |repeats|;
    assert RepeatLayout(repeats).operands[n - 1 - d] == repeats[d];
    assert Values(repeats, stack)[d] == ValueOf(repeats[d], stack);
    Int32Survives(ValueOf(repeats[d], stack));
  }

  /** A repeat op in any launch: every pass reads a payload whose counts are this launch's, dimension by dimension. */
  lemma RepeatLaunched(plan: seq<OpSpec>, first: Stack, k: Kernels, stack: Stack, j: nat,
                       es: seq<LaunchEntry>, p: nat, image: seq<Byte>, dryRun: bool, pass: Pass)
    requires first in Launchable(plan) && stack in Launchable(plan) && j < |plan| && plan[j].Repeat?
    requires es == ExpectedList(plan, first, k, stack) && p == OpStart(plan, first, k, stack, j) && image == Image(es, |es|)
    requires AllResolve(plan[j].repeats, stack) && AllInt32(Values(plan[j].repeats, stack))
    ensures p < |es| && es[p].HostEntry? && es[p].width == I32
    ensures EntryStart(es, p, dryRun, pass) in PlacesReading(image, I32, CastAll(I32, es[p].values))
    ensures CountsOf(UnsignedWords(CastAll(I32, es[p].values))) == Values(plan[j].repeats, stack)
  {
    RepeatSegment(plan, first, k, stack, j);
    PayloadAt(plan, first, k, stack, j, 0, RecordedEntry(RecordOf(RepeatLayout(plan[j].repeats), stack).host), es, p, image, dryRun, pass);
    RepeatRead(plan[j].repeats, stack);
  }

  lemma RepeatRead(repeats: seq<Operand>, stack: Stack)
    requires AllResolve(repeats, stack) && AllResolve(RepeatLayout(repeats).operands, stack) && AllInt32(Values(repeats, stack))
    ensures CountsOf(UnsignedWords(CastAll(I32, RecordedEntry(RecordOf(RepeatLayout(repeats), stack).host).values))) == Values(repeats, stack)
  {
    var counts := CountsOf(UnsignedWords(CastAll(I32, HostValues(RecordOf(RepeatLayout(repeats), stack).host))));
    forall d | 0 <= d < |repeats| ensures counts[d] == Values(repeats, stack)[d] { RepeatWords(repeats, stack, d); }
  }

  // --- arange and randperm ---

  /** The range kernel: element i of [start, limit, step], and the numbers it reaches before the limit. */
  function RangeElement(v: seq<int>, i: nat): int
    requires |v| == 3
  {
    v[0] + i * v[2]
  }

  ghost predicate Reaches(v: seq<int>, x: int)
    requires |v| == 3
  {
    x < v[1] && exists i: nat :: RangeElement(v, i) == x
  }

  lemma ThreeSurvive(operands: seq<Operand>, stack: Stack, l: Layout, i: nat)
    requires |operands| == 3 && l.operands == operands && AllResolve(operands, stack) && l.kept == l.w == I32 && i < 3
    requires AllInt32(Values(operands, stack))
    ensures CastAll(I32, HostValues(RecordOf(l, stack).host))[i] == ValueOf(operands[i], stack)
  {
    assert Values(operands, stack)[i] == ValueOf(operands[i], stack);
    Int32Survives(ValueOf(operands[i], stack));
  }

  /** An arange op in any launch: every pass reads start, limit and step of this launch, in this order. */
  lemma ArangeLaunched(plan: seq<OpSpec>, first: Stack, k: Kernels, stack: Stack, j: nat,
                       es: seq<LaunchEntry>, p: nat, image: seq<Byte>, dryRun: bool, pass: Pass)
    requires first in Launchable(plan) && stack in Launchable(plan) && j < |plan| && plan[j].Arange?
    requires es == ExpectedList(plan, first, k, stack) && p == OpStart(plan, first, k, stack, j) && image == Image(es, |es|)
    requires ReadyAt(plan, stack, j) && AllInt32(Values(plan[j].bounds, stack))
    ensures p < |es| && es[p].HostEntry? && es[p].width == I32
    ensures EntryStart(es, p, dryRun, pass) in PlacesReading(image, I32, CastAll(I32, es[p].values))
    ensures var v, b := CastAll(I32, es[p].values), Values(plan[j].bounds, stack);
            && |v| == 3 && v[1] == b[1]
            && forall i: nat :: RangeElement(v, i) == b[0] + i * b[2]
  {
    var b := plan[j].bounds;
    ArangeSegment(plan, first, k, stack, j);
    PayloadAt(plan, first, k, stack, j, 0, RecordedEntry(RecordOf(ArangeLayout(b), stack).host), es, p, image, dryRun, pass);
    ArangeWords(b, stack);
  }

  lemma ArangeWords(b: seq<Operand>, stack: Stack)
    requires |b| == 3 && AllResolve(b, stack) && AllInt32(Values(b, stack))
    ensures CastAll(I32, RecordedEntry(RecordOf(ArangeLayout(b), stack).host).values) == Values(b, stack)
  {
    ThreeSurvive(b, stack, ArangeLayout(b), 0);
    ThreeSurvive(b, stack, ArangeLayout(b), 1);
    ThreeSurvive(b, stack, ArangeLayout(b), 2);
  }

  lemma ArangeSegment(plan: seq<OpSpec>, first: Stack, k: Kernels, stack: Stack, j: nat)
    requires first in Launchable(plan) && stack in Launchable(plan) && j < |plan| && plan[j].Arange?
    requires ReadyAt(plan, stack, j)
    ensures |plan[j].bounds| == 3 && AllResolve(plan[j].bounds, stack)
    ensures var own := Segment(plan, first, k, stack, j);
            |own| == 2 && own[0] == RecordedEntry(RecordOf(ArangeLayout(plan[j].bounds), stack).host)
  {
    LaunchableAt(plan, first, j);
  }

  /** A randperm op in any launch: the numbers every pass is given to permute are 0, 1, ... below this launch's end. */
  lemma RandpermLaunched(plan: seq<OpSpec>, first: Stack, k: Kernels, stack: Stack, j: nat,
                         es: seq<LaunchEntry>, p: nat, image: seq<Byte>, dryRun: bool, pass: Pass)
    requires first in Launchable(plan) && stack in Launchable(plan) && j < |plan| && plan[j].Randperm?
    requires es == ExpectedList(plan, first, k, stack) && p == OpStart(plan, first, k, stack, j) && image == Image(es, |es|)
    requires Resolves(plan[j].end, stack) && AllInt32([ValueOf(plan[j].end, stack)])
    ensures p < |es| && es[p].HostEntry? && es[p].width == I32
    ensures EntryStart(es, p, dryRun, pass) in PlacesReading(image, I32, CastAll(I32, es[p].values))
    ensures var v, end := CastAll(I32, es[p].values), ValueOf(plan[j].end, stack);
            && |v| == 3 && v[1] == end
            && forall x :: Reaches(v, x) <==> 0 <= x < end
  {
    var end := plan[j].end;
    RandpermSegment(plan, first, k, stack, j);
    PayloadAt(plan, first, k, stack, j, 0, RecordedEntry(RecordOf(RandpermLayout(end), stack).host), es, p, image, dryRun, pass);
    RandpermWords(end, stack);
    CountsUpTo(CastAll(I32, es[p].values), ValueOf(end, stack));
  }

  lemma RandpermWords(end: Operand, stack: Stack)
    requires Resolves(end, stack) && AllResolve(RandpermLayout(end).operands, stack) && AllInt32([ValueOf(end, stack)])
    ensures var v := CastAll(I32, HostValues(RecordOf(RandpermLayout(end), stack).host));
            |v| == 3 && v[0] == 0 && v[1] == ValueOf(end, stack) && v[2] == 1
  {
    var ps := RandpermLayout(end).operands;
    assert [ValueOf(end, stack)][0] == ValueOf(end, stack);
    assert ps[0] == Constant(0) && ps[1] == end && ps[2] == Constant(1);
    forall i | 0 <= i < 3 ensures -(TWO32 / 2) <= Values(ps, stack)[i] < TWO32 / 2 {}
    ThreeSurvive(ps, stack, RandpermLayout(end), 0);
    ThreeSurvive(ps, stack, RandpermLayout(end), 1);
    ThreeSurvive(ps, stack, RandpermLayout(end), 2);
  }

  lemma CountsUpTo(v: seq<int>, end: int)
    requires |v| == 3 && v[0] == 0 && v[1] == end && v[2] == 1
    ensures forall x :: Reaches(v, x) <==> 0 <= x < end
  {
    forall x ensures Reaches(v, x) <==> 0 <= x < end {
      if 0 <= x < end { assert RangeElement(v, x) == x; }
    }
  }

  lemma RandpermSegment(plan: seq<OpSpec>, first: Stack, k: Kernels, stack: Stack, j: nat)
    requires first in Launchable(plan) && stack in Launchable(plan) && j < |plan| && plan[j].Randperm?
    ensures Resolves(plan[j].end, stack) && AllResolve(RandpermLayout(plan[j].end).operands, stack)
    ensures Segment(plan, first, k, stack, j) == [RecordedEntry(RecordOf(RandpermLayout(plan[j].end), stack).host)]
  {
    LaunchableAt(plan, first, j);
    LaunchableAt(plan, stack, j);
    RandpermResolves(plan[j].end, stack);
  }
}
