/**
 Host-to-device parameters of dynamic-shape ops: recorded once into a host payload with the
 stack index of every symbolic entry, and patched on later launches from the indices alone.
 */
module DynamicParams {
  datatype Option<T> = None | Some(value: T)

  /** The "no stack index" mark. */
  const LONG_MAX: int := 0x7fff_ffff_ffff_ffff

  /** A size, stride or offset of a node: a constant of the graph or a graph input. */
  datatype Operand = Constant(v: int) | Symbol(index: nat)

  /** An entry of the launch stack: a scalar, or a tensor. */
  datatype Entry = Number(v: int) | Object

  type Stack = seq<Entry>

  predicate Readable(stack: Stack, index: int) { 0 <= index < |stack| && stack[index].Number? }

  predicate Resolves(p: Operand, stack: Stack) { p.Symbol? ==> p.index < LONG_MAX && Readable(stack, p.index) }

  predicate AllResolve(ps: seq<Operand>, stack: Stack) { forall i :: 0 <= i < |ps| ==> Resolves(ps[i], stack) }

  function ValueOf(p: Operand, stack: Stack): int
    requires Resolves(p, stack)
  {
    match p
    case Constant(v) => v
    case Symbol(index) => stack[index].v
  }

  /** What the record step keeps to find an operand again; a negative constant marks itself. */
  function MarkOf(p: Operand, markNegative: bool): int {
    match p
    case Constant(v) => if v < 0 && markNegative then v else LONG_MAX
    case Symbol(index) => index
  }

  /** What a recorded value and index give at a later launch: the value where there is no index, else the
      stack entry, if that is a number. */
  function ReadBack(value: int, index: int, later: Stack): Option<int> {
    if index == LONG_MAX then Some(value) else if Readable(later, index) then Some(later[index].v) else Option.None
  }

  /** The value of an operand now, and what finds its value in every later stack; a negative constant that
      marks itself is found in none. */
  method GetValueAndScalarIndexFromInput(p: Operand, stack: Stack, markNegative: bool) returns (value: int, index: int)
    requires Resolves(p, stack)
    ensures value == ValueOf(p, stack) && index == MarkOf(p, markNegative)
    ensures forall later: Stack :: Resolves(p, later) ==>
              ReadBack(value, index, later) == if p.Constant? && p.v < 0 && markNegative then Option.None else Some(ValueOf(p, later))
  {
    index := LONG_MAX;
    match p {
      case Constant(v) =>
        value := v;
        if value < 0 && markNegative {
          index := value;
        }
      case Symbol(i) =>
        index := i;
        value := stack[i].v;
    }
  }

  method GetValuesAndScalarIndexes(ps: seq<Operand>, stack: Stack) returns (values: seq<int>, indices: seq<int>)
    requires AllResolve(ps, stack)
    ensures values == Values(ps, stack) && indices == Marks(ps, true)
  {
    values, indices := [], [];
    for i := 0 to |ps|
      invariant values == Values(ps[..i], stack) && indices == Marks(ps[..i], true)
    {
      var value, index := GetValueAndScalarIndexFromInput(ps[i], stack, true);
      indices := indices + [index];
      values := values + [value];
      assert ps[..i + 1] == ps[..i] + [ps[i]];
    }
    assert ps[..|ps|] == ps;
  }

  function Values(ps: seq<Operand>, stack: Stack): (r: seq<int>)
    requires AllResolve(ps, stack)
    ensures |r| == |ps| && forall i :: 0 <= i < |ps| ==> r[i] == ValueOf(ps[i], stack)
  {
    seq(|ps|, i requires 0 <= i < |ps| => ValueOf(ps[i], stack))
  }

  function Marks(ps: seq<Operand>, markNegative: bool): (r: seq<int>)
    ensures |r| == |ps| && forall i :: 0 <= i < |ps| ==> r[i] == MarkOf(ps[i], markNegative)
  {
    seq(|ps|, i requires 0 <= i < |ps| => MarkOf(ps[i], markNegative))
  }

  /** The stack entry as a number; an index outside the stack, or of a tensor, has none. */
  method GetSymintValue(stack: Stack, index: int) returns (r: Option<int>)
    ensures r == if Readable(stack, index) then Some(stack[index].v) else Option.None
  {
    if 0 <= index < |stack| && stack[index].Number? {
      r := Some(stack[index].v);
    } else {
      r := Option.None;
    }
  }

  // --- host element types ---

  datatype Width = I32 | U32 | U64

  const TWO32: int := 0x1_0000_0000
  const TWO64: int := 0x1_0000_0000_0000_0000

  function SizeOf(w: Width): nat { if w == U64 then 8 else 4 }

  /** The bytes of n elements. */
  function BytesOf(w: Width, n: nat): nat { if w == U64 then 8 * n else 4 * n }

  /** static_cast to the host element type. */
  function Cast(w: Width, x: int): int {
    match w
    case I32 => (x + TWO32 / 2) % TWO32 - TWO32 / 2
    case U32 => x % TWO32
    case U64 => x % TWO64
  }

  function ToInt64(x: int): int { (x + TWO64 / 2) % TWO64 - TWO64 / 2 }

  /** The recorded copy keeps every element as an unsigned 64-bit word. */
  function ToWord(x: int): (r: int)
    ensures 0 <= r < TWO64
  {
    x % TWO64
  }

  function Modulus(w: Width): int { if w == U64 then TWO64 else TWO32 }

  lemma ModShift32(x: int, q: int)
    ensures (x + q * TWO32) % TWO32 == x % TWO32
  {
  }

  lemma ModShift64(x: int, q: int)
    ensures (x + q * TWO64) % TWO64 == x % TWO64
  {
  }

  /** Casting looks at a number only up to multiples of the modulus. */
  lemma CastCongruent(w: Width, x: int, y: int, q: int)
    requires y == x + q * Modulus(w)
    ensures Cast(w, y) == Cast(w, x)
  {
    match w {
      case I32 => ModShift32(x + TWO32 / 2, q);
      case U32 => ModShift32(x, q);
      case U64 => ModShift64(x, q);
    }
  }

  lemma CastShifts(w: Width, x: int) returns (q: int)
    ensures Cast(w, x) == x + q * Modulus(w)
  {
    match w {
      case I32 => q := -((x + TWO32 / 2) / TWO32);
      case U32 => q := -(x / TWO32);
      case U64 => q := -(x / TWO64);
    }
  }

  /** Elements survive the trip through words and signed 64-bit patch values; a pad recorded
      as a signed element is read back as an unsigned one. */
  lemma CastThroughWord(w: Width, kept: Width, x: int)
    requires (w == U64) == (kept == U64)
    ensures Cast(w, ToWord(Cast(kept, x))) == Cast(w, x)
  {
    var q := CastShifts(kept, x);
    var word := Cast(kept, x) / TWO64;
    var turns := if w == U64 then q - word else q - word * TWO32;
    assert TWO64 == TWO32 * TWO32;
    assert ToWord(Cast(kept, x)) == Cast(kept, x) - word * TWO64;
    assert ToWord(Cast(kept, x)) == x + turns * Modulus(w);
    CastCongruent(w, x, ToWord(Cast(kept, x)), turns);
  }

  lemma CastThroughInt64(w: Width, x: int)
    ensures Cast(w, ToInt64(x)) == Cast(w, x)
  {
    var back := (x + TWO64 / 2) / TWO64;
    var turns := if w == U64 then -back else -back * TWO32;
    assert TWO64 == TWO32 * TWO32;
    assert ToInt64(x) == x - back * TWO64;
    CastCongruent(w, x, ToInt64(x), turns);
  }

  // --- recorded payloads ---

  /** A host-to-device tensor: the recorded words, the registered length, element size and type. */
  datatype HostTensor = HostTensor(words: seq<int>, size: nat, elSize: nat, width: Width, totalElem: nat)

  datatype Recorded = Recorded(host: HostTensor, marks: seq<int>)

  function Reversed<T>(s: seq<T>): (r: seq<T>)
    ensures |r| == |s| && forall i :: 0 <= i < |s| ==> r[i] == s[|s| - 1 - i]
  {
    seq(|s|, i requires 0 <= i < |s| => s[|s| - 1 - i])
  }

  function Words(values: seq<int>, kept: Width): (r: seq<int>)
    ensures |r| == |values| && forall i :: 0 <= i < |values| ==> r[i] == ToWord(Cast(kept, values[i]))
  {
    seq(|values|, i requires 0 <= i < |values| => ToWord(Cast(kept, values[i])))
  }

  function HostOf(values: seq<int>, kept: Width, w: Width): HostTensor {
    HostTensor(Words(values, kept), |values|, SizeOf(kept), w, 2 * BytesOf(kept, |values|))
  }

  /** std::reverse. */
  method Reverse<T>(s: seq<T>) returns (r: seq<T>)
    ensures r == Reversed(s)
  {
    r := s;
    for i := 0 to |s| / 2
      invariant |r| == |s|
      invariant forall k :: 0 <= k < i ==> r[k] == s[|s| - 1 - k] && r[|s| - 1 - k] == s[k]
      invariant forall k :: i <= k < |s| - i ==> r[k] == s[k]
    {
      r := r[i := r[|s| - 1 - i]][|s| - 1 - i := r[i]];
    }
  }

  /** SetH2DTensorHostData: elements of type `kept`, tagged with type w, optionally reversed first. */
  method SetH2DTensorHostData(values: seq<int>, kept: Width, w: Width, reverse: bool) returns (t: HostTensor)
    ensures t == HostOf(if reverse then Reversed(values) else values, kept, w)
  {
    var data := values;
    if reverse {
      data := Reverse(data);
    }
    var words: seq<int> := [];
    for i := 0 to |data|
      invariant words == Words(data[..i], kept)
    {
      words := words + [ToWord(Cast(kept, data[i]))];
      assert data[..i + 1] == data[..i] + [data[i]];
    }
    assert data[..|data|] == data;
    t := HostTensor(words, |data|, SizeOf(kept), w, 2 * BytesOf(kept, |data|));
  }

  // --- payload layouts, in host order ---

  /** How an op keeps its payload: the operands in host order, the recorded and the host element
      types, whether marks are kept in the opposite order, and whether negative constants mark themselves. */
  datatype Layout = Layout(operands: seq<Operand>, kept: Width, w: Width, reversed: bool, markNegative: bool, tolerant: bool)

  const MAX_DIMENSIONS_NUM: nat := 5
  const SYN_MAX_TENSOR_DIM: nat := 5

  function Zeros(n: nat): (r: seq<Operand>)
    ensures |r| == n && forall i :: 0 <= i < n ==> r[i] == Constant(0)
  {
    seq(n, _ => Constant(0))
  }

  function RepeatLayout(repeats: seq<Operand>): Layout {
    Layout(Reversed(repeats), I32, I32, true, true, false)
  }

  function RandpermLayout(end: Operand): Layout {
    Layout([Constant(0), end, Constant(1)], I32, I32, true, true, false)
  }

  /** Before-pads of the dimensions, padded to five, then after-pads likewise. */
  function PadOperands(pads: seq<Operand>): (r: seq<Operand>)
    requires |pads| / 2 <= MAX_DIMENSIONS_NUM
    ensures |r| == 2 * MAX_DIMENSIONS_NUM
  {
    seq(2 * MAX_DIMENSIONS_NUM, i requires 0 <= i < 2 * MAX_DIMENSIONS_NUM =>
      var d := i % MAX_DIMENSIONS_NUM;
      if d < |pads| / 2 then pads[2 * d + i / MAX_DIMENSIONS_NUM] else Constant(0))
  }

  function PadLayout(pads: seq<Operand>): Layout
    requires |pads| / 2 <= MAX_DIMENSIONS_NUM
  {
    Layout(PadOperands(pads), I32, U32, true, true, true)
  }

  /** [count, offset, strides from the last to the first, zeros]: eight entries for any rank up to six. */
  function StrideOperands(strides: seq<Operand>, offset: Operand, count: nat): (r: seq<Operand>)
    requires |strides| <= SYN_MAX_TENSOR_DIM + 1
    ensures |r| == SYN_MAX_TENSOR_DIM + 3
  {
    [Constant(count), offset] + Reversed(strides) + Zeros(SYN_MAX_TENSOR_DIM + 1 - |strides|)
  }

  /** as_strided counts a rank of zero as one stride; the two inserts do not. */
  function StrideCount(strides: seq<Operand>, isAsStrided: bool): nat {
    if isAsStrided && |strides| == 0 then 1 else |strides|
  }

  function StrideLayout(strides: seq<Operand>, offset: Operand, isAsStrided: bool): Layout
    requires |strides| <= SYN_MAX_TENSOR_DIM + 1
  {
    Layout(StrideOperands(strides, offset, StrideCount(strides, isAsStrided)), U64, U64, false, true, false)
  }

  function Ordered<T>(s: seq<T>, reversed: bool): seq<T> { if reversed then Reversed(s) else s }

  /** What the record step stores for a layout and a stack. */
  function RecordOf(l: Layout, stack: Stack): Recorded
    requires AllResolve(l.operands, stack)
  {
    Recorded(HostOf(Values(l.operands, stack), l.kept, l.w), Marks(Ordered(l.operands, l.reversed), l.markNegative))
  }

  // --- the record steps ---

  lemma ReverseTwice<T>(s: seq<T>)
    ensures Reversed(Reversed(s)) == s
  {
  }

  lemma ReversedValues(ps: seq<Operand>, stack: Stack)
    requires AllResolve(ps, stack)
    ensures AllResolve(Reversed(ps), stack) && Values(Reversed(ps), stack) == Reversed(Values(ps, stack))
  {
  }

  method RecordRepeat(repeats: seq<Operand>, stack: Stack) returns (r: Recorded)
    requires AllResolve(repeats, stack)
    ensures AllResolve(RepeatLayout(repeats).operands, stack) && r == RecordOf(RepeatLayout(repeats), stack)
  {
    var values, marks := GetValuesAndScalarIndexes(repeats, stack);
    ReversedValues(repeats, stack);
    ReverseTwice(repeats);
    var host := SetH2DTensorHostData(values, I32, I32, true);
    r := Recorded(host, marks);
  }

  method RecordRandperm(end: Operand, stack: Stack) returns (r: Recorded)
    requires Resolves(end, stack)
    ensures AllResolve(RandpermLayout(end).operands, stack) && r == RecordOf(RandpermLayout(end), stack)
  {
    var marks, values := [LONG_MAX], [1];
    var value, index := GetValueAndScalarIndexFromInput(end, stack, true);
    marks, values := marks + [index], values + [value];
    marks, values := marks + [LONG_MAX], values + [0];
    RandpermInOrder(end, stack, values, marks);
    var host := SetH2DTensorHostData(values, I32, I32, true);
    r := Recorded(host, marks);
  }

  lemma RandpermInOrder(end: Operand, stack: Stack, values: seq<int>, marks: seq<int>)
    requires Resolves(end, stack)
    requires values == [1, ValueOf(end, stack), 0] && marks == [LONG_MAX, MarkOf(end, true), LONG_MAX]
    ensures AllResolve(RandpermLayout(end).operands, stack)
    ensures Reversed(values) == Values(RandpermLayout(end).operands, stack)
    ensures marks == Marks(Reversed(RandpermLayout(end).operands), true)
  {
    assert Reversed(RandpermLayout(end).operands) == [Constant(1), end, Constant(0)];
    assert Reversed(values) == [0, ValueOf(end, stack), 1];
  }

  /** The constant_pad_nd record step, with both of its reversals. */
  method RecordPad(pads: seq<Operand>, stack: Stack) returns (r: Recorded)
    requires AllResolve(pads, stack) && |pads| / 2 <= MAX_DIMENSIONS_NUM
    ensures AllResolve(PadOperands(pads), stack) && r == RecordOf(PadLayout(pads), stack)
  {
    var values, indices := GetValuesAndScalarIndexes(pads, stack);
    var padHt, marksHt := FillPads(pads, values, indices);
    PadsInOrder(pads, stack, values, indices, padHt, marksHt);
    padHt := Reverse(padHt);
    marksHt := Reverse(marksHt);
    ReverseTwice(Values(PadOperands(pads), stack));
    ReversedMarks(PadOperands(pads));
    var host := SetH2DTensorHostData(padHt, I32, U32, true);
    r := Recorded(host, marksHt);
  }

  lemma ReversedMarks(ps: seq<Operand>)
    ensures Reversed(Marks(ps, true)) == Marks(Reversed(ps), true)
  {
  }

  /** The loop that lays the pads out, befores in the first half and afters in the second. */
  method FillPads(ghost pads: seq<Operand>, values: seq<int>, indices: seq<int>) returns (padHt: seq<int>, marksHt: seq<int>)
    requires |values| == |indices| == |pads| && |pads| / 2 <= MAX_DIMENSIONS_NUM
    ensures |padHt| == |marksHt| == 2 * MAX_DIMENSIONS_NUM
    ensures forall k :: 0 <= k < 2 * MAX_DIMENSIONS_NUM ==> PadEntry(pads, values, indices, |pads| / 2, k, padHt[k], marksHt[k])
  {
    padHt, marksHt := seq(2 * MAX_DIMENSIONS_NUM, _ => 0), seq(2 * MAX_DIMENSIONS_NUM, _ => LONG_MAX);
    for i := 0 to |values| / 2
      invariant |padHt| == |marksHt| == 2 * MAX_DIMENSIONS_NUM
      invariant forall k :: 0 <= k < 2 * MAX_DIMENSIONS_NUM ==> PadEntry(pads, values, indices, i, k, padHt[k], marksHt[k])
    {
      ghost var before, marksBefore := padHt, marksHt;
      padHt := padHt[i := values[2 * i]][MAX_DIMENSIONS_NUM + i := values[2 * i + 1]];
      marksHt := marksHt[i := indices[2 * i]][MAX_DIMENSIONS_NUM + i := indices[2 * i + 1]];
      forall k | 0 <= k < 2 * MAX_DIMENSIONS_NUM
        ensures PadEntry(pads, values, indices, i + 1, k, padHt[k], marksHt[k])
      {
        assert PadEntry(pads, values, indices, i, k, before[k], marksBefore[k]);
      }
    }
  }

  /** Entry k of the two pad vectors after n rounds. */
  ghost predicate PadEntry(pads: seq<Operand>, values: seq<int>, indices: seq<int>, n: nat, k: nat, value: int, mark: int)
    requires |values| == |indices| == |pads| && n <= |pads| / 2
  {
    var d := k % MAX_DIMENSIONS_NUM;
    if d < n && k < 2 * MAX_DIMENSIONS_NUM then
      value == values[2 * d + k / MAX_DIMENSIONS_NUM] && mark == indices[2 * d + k / MAX_DIMENSIONS_NUM]
    else value == 0 && mark == LONG_MAX
  }

  lemma PadsInOrder(pads: seq<Operand>, stack: Stack, values: seq<int>, indices: seq<int>, padHt: seq<int>, marksHt: seq<int>)
    requires AllResolve(pads, stack) && |pads| / 2 <= MAX_DIMENSIONS_NUM
    requires values == Values(pads, stack) && indices == Marks(pads, true)
    requires |padHt| == |marksHt| == 2 * MAX_DIMENSIONS_NUM
    requires forall k :: 0 <= k < 2 * MAX_DIMENSIONS_NUM ==> PadEntry(pads, values, indices, |pads| / 2, k, padHt[k], marksHt[k])
    ensures AllResolve(PadOperands(pads), stack)
    ensures padHt == Values(PadOperands(pads), stack) && marksHt == Marks(PadOperands(pads), true)
  {
    var ps := PadOperands(pads);
    forall k | 0 <= k < |ps| ensures Resolves(ps[k], stack) && padHt[k] == ValueOf(ps[k], stack) && marksHt[k] == MarkOf(ps[k], true) {
      assert PadEntry(pads, values, indices, |pads| / 2, k, padHt[k], marksHt[k]);
    }
  }

  /** The stride record step shared by as_strided, strided_insert and as_strided_scatter. */
  method RecordStrides(strides: seq<Operand>, offset: Operand, isAsStrided: bool, stack: Stack) returns (r: Recorded)
    requires AllResolve(strides, stack) && Resolves(offset, stack) && |strides| <= SYN_MAX_TENSOR_DIM + 1
    ensures AllResolve(StrideLayout(strides, offset, isAsStrided).operands, stack)
    ensures r == RecordOf(StrideLayout(strides, offset, isAsStrided), stack)
  {
    var offsetValue, offsetMark := GetValueAndScalarIndexFromInput(offset, stack, true);
    var values, marks := GetValuesAndScalarIndexes(strides, stack);
    var backValues := Reverse(values);
    var backMarks := Reverse(marks);
    var h2d, scalars := [offsetValue] + backValues, [offsetMark] + backMarks;
    var fill := SYN_MAX_TENSOR_DIM + 1 - |values|;
    for i := 0 to fill
      invariant h2d == [offsetValue] + backValues + seq(i, _ => 0)
      invariant scalars == [offsetMark] + backMarks + seq(i, _ => LONG_MAX)
    {
      h2d := h2d + [0];
      scalars := scalars + [LONG_MAX];
      assert seq(i + 1, _ => 0) == seq(i, _ => 0) + [0] && seq(i + 1, _ => LONG_MAX) == seq(i, _ => LONG_MAX) + [LONG_MAX];
    }
    scalars := [LONG_MAX] + scalars;
    var count := if isAsStrided && |values| == 0 then 1 else |values|;
    h2d := [count] + h2d;
    StridesInOrder(strides, offset, count, stack, h2d, scalars);
    var host := SetH2DTensorHostData(h2d, U64, U64, false);
    r := Recorded(host, scalars);
  }

  lemma StridesInOrder(strides: seq<Operand>, offset: Operand, count: nat, stack: Stack, h2d: seq<int>, scalars: seq<int>)
    requires AllResolve(strides, stack) && Resolves(offset, stack) && |strides| <= SYN_MAX_TENSOR_DIM + 1
    requires h2d == [count] + ([ValueOf(offset, stack)] + Reversed(Values(strides, stack)) + seq(SYN_MAX_TENSOR_DIM + 1 - |strides|, _ => 0))
    requires scalars == [LONG_MAX] + ([MarkOf(offset, true)] + Reversed(Marks(strides, true)) + seq(SYN_MAX_TENSOR_DIM + 1 - |strides|, _ => LONG_MAX))
    ensures var ps := StrideOperands(strides, offset, count);
            AllResolve(ps, stack) && h2d == Values(ps, stack) && scalars == Marks(ps, true)
  {
    var ps := StrideOperands(strides, offset, count);
    forall k | 0 <= k < |ps| ensures Resolves(ps[k], stack) && h2d[k] == ValueOf(ps[k], stack) && scalars[k] == MarkOf(ps[k], true) {
      if 2 <= k < 2 + |strides| {
        assert ps[k] == strides[|strides| - 1 - (k - 2)];
      }
    }
  }

  // --- the patch step ---

  predicate FromRecord(mark: int, tolerant: bool) { mark == LONG_MAX || (tolerant && mark < 0) }

  /** Where host entry h keeps its mark. */
  function MarkIndex(n: nat, h: nat, reversed: bool): nat
    requires h < n
  {
    if reversed then n - 1 - h else h
  }

  predicate CanPatch(rec: Recorded, tolerant: bool, stack: Stack) {
    forall k :: 0 <= k < |rec.marks| ==> FromRecord(rec.marks[k], tolerant) || Readable(stack, rec.marks[k])
  }

  /** The element at position k of the marks, before any reversal. */
  function PatchedElement(l: Layout, rec: Recorded, stack: Stack, k: nat): int
    requires |rec.marks| == |rec.host.words| && k < |rec.marks|
    requires FromRecord(rec.marks[k], l.tolerant) || Readable(stack, rec.marks[k])
  {
    Cast(l.w, if FromRecord(rec.marks[k], l.tolerant)
              then rec.host.words[MarkIndex(|rec.marks|, k, l.reversed)] else stack[rec.marks[k]].v)
  }

  function PatchEntry(l: Layout, rec: Recorded, stack: Stack, h: nat): int
    requires |rec.marks| == |rec.host.words| && h < |rec.marks| && CanPatch(rec, l.tolerant, stack)
  {
    ToInt64(PatchedElement(l, rec, stack, MarkIndex(|rec.marks|, h, l.reversed)))
  }

  /** The patch values of a launch: recorded words where there is no index, stack scalars elsewhere. */
  function PatchOf(l: Layout, rec: Recorded, stack: Stack): Option<seq<int>>
    requires |rec.marks| == |rec.host.words|
  {
    if CanPatch(rec, l.tolerant, stack) then
      Some(seq(|rec.marks|, h requires 0 <= h < |rec.marks| => PatchEntry(l, rec, stack, h)))
    else Option.None
  }

  /** GetH2DTensorHostData, over the recorded length. */
  method GetH2DTensorHostData(t: HostTensor, w: Width) returns (data: seq<int>)
    ensures |data| == |t.words| && forall i :: 0 <= i < |data| ==> data[i] == Cast(w, t.words[i])
  {
    data := [];
    for i := 0 to |t.words|
      invariant |data| == i && forall j :: 0 <= j < i ==> data[j] == Cast(w, t.words[j])
    {
      data := data + [Cast(w, t.words[i])];
    }
  }

  /** UpdateDynamicInputs of repeat, randperm, pad, as_strided (symbolic branch), strided_insert and
      as_strided_scatter: they differ in the element type, the order of the marks, and whether a
      negative mark is a constant. */
  method UpdateDynamicInputs(l: Layout, rec: Recorded, stack: Stack) returns (r: Option<seq<int>>)
    requires |rec.marks| == |rec.host.words|
    ensures r == PatchOf(l, rec, stack)
  {
    var updated: seq<int> := [];
    var n := |rec.marks|;
    for k := 0 to n
      invariant |updated| == k
      invariant forall j :: 0 <= j < k ==> FromRecord(rec.marks[j], l.tolerant) || Readable(stack, rec.marks[j])
      invariant forall j :: 0 <= j < k ==> updated[j] == PatchedElement(l, rec, stack, j)
    {
      var mark := rec.marks[k];
      if mark == LONG_MAX || (l.tolerant && mark < 0) {
        var data := GetH2DTensorHostData(rec.host, l.w);
        if l.reversed {
          data := Reverse(data);
        }
        updated := updated + [data[k]];
      } else {
        var value := GetSymintValue(stack, mark);
        if value.None? {
          assert !Readable(stack, rec.marks[k]);
          return Option.None;
        }
        updated := updated + [Cast(l.w, value.value)];
      }
    }
    if l.reversed {
      updated := Reverse(updated);
    }
    var cast := seq(n, h requires 0 <= h < n => ToInt64(updated[h]));
    assert CanPatch(rec, l.tolerant, stack);
    forall h | 0 <= h < n ensures cast[h] == PatchEntry(l, rec, stack, h) {
      assert updated[h] == PatchedElement(l, rec, stack, MarkIndex(n, h, l.reversed));
    }
    r := Some(cast);
    assert cast == PatchOf(l, rec, stack).value;
  }

  // --- patching is re-recording ---

  /** The layouts the ops use. */
  predicate ValidLayout(l: Layout) { (l.w == U64) == (l.kept == U64) }

  predicate HasNegativeConstant(ps: seq<Operand>) {
    exists i :: 0 <= i < |ps| && ps[i].Constant? && ps[i].v < 0
  }

  /** The payload a record step would have stored for this launch, as the patch step lists it. */
  function Payload(l: Layout, stack: Stack): (r: seq<int>)
    requires AllResolve(l.operands, stack)
    ensures |r| == |l.operands|
  {
    var words := RecordOf(l, stack).host.words;
    seq(|l.operands|, h requires 0 <= h < |l.operands| => ToInt64(Cast(l.w, words[h])))
  }

  lemma MarkPatches(l: Layout, first: Stack, stack: Stack, k: nat)
    requires AllResolve(l.operands, first) && AllResolve(l.operands, stack) && k < |l.operands|
    ensures var rec, p := RecordOf(l, first), l.operands[MarkIndex(|l.operands|, k, l.reversed)];
            && rec.marks[k] == MarkOf(p, l.markNegative)
            && (FromRecord(rec.marks[k], l.tolerant) || Readable(stack, rec.marks[k])
                <==> l.tolerant || !l.markNegative || p.Symbol? || p.v >= 0)
  {
    assert Ordered(l.operands, l.reversed)[k] == l.operands[MarkIndex(|l.operands|, k, l.reversed)];
  }

  lemma EntryIsRecorded(l: Layout, first: Stack, stack: Stack, h: nat)
    requires ValidLayout(l) && AllResolve(l.operands, first) && AllResolve(l.operands, stack) && h < |l.operands|
    requires CanPatch(RecordOf(l, first), l.tolerant, stack)
    ensures PatchEntry(l, RecordOf(l, first), stack, h) == Payload(l, stack)[h]
  {
    var k := MarkIndex(|l.operands|, h, l.reversed);
    MarkPatches(l, first, stack, k);
    assert MarkIndex(|l.operands|, k, l.reversed) == h;
    CastThroughWord(l.w, l.kept, ValueOf(l.operands[h], stack));
    CastThroughWord(l.w, l.kept, ValueOf(l.operands[h], first));
  }

  /** Whatever stack a payload was recorded with, patching it for another stack gives what recording
      with that stack would have stored: symbolic entries follow the stack, constants never drift.
      The patch succeeds exactly when no constant is negative, or negative constants are told from indices. */
  lemma PatchIsRecord(l: Layout, first: Stack, stack: Stack)
    requires ValidLayout(l) && AllResolve(l.operands, first) && AllResolve(l.operands, stack)
    ensures PatchOf(l, RecordOf(l, first), stack)
            == if l.tolerant || !l.markNegative || !HasNegativeConstant(l.operands) then Some(Payload(l, stack)) else Option.None
  {
    CanPatchIff(l, first, stack);
    if CanPatch(RecordOf(l, first), l.tolerant, stack) { PatchedIsPayload(l, first, stack); }
  }

  lemma CanPatchIff(l: Layout, first: Stack, stack: Stack)
    requires AllResolve(l.operands, first) && AllResolve(l.operands, stack)
    ensures CanPatch(RecordOf(l, first), l.tolerant, stack) <==> l.tolerant || !l.markNegative || !HasNegativeConstant(l.operands)
  {
    var rec, n := RecordOf(l, first), |l.operands|;
    if l.tolerant || !l.markNegative || !HasNegativeConstant(l.operands) {
      forall k | 0 <= k < n ensures FromRecord(rec.marks[k], l.tolerant) || Readable(stack, rec.marks[k]) {
        MarkPatches(l, first, stack, k);
      }
    } else {
      var h :| 0 <= h < n && l.operands[h].Constant? && l.operands[h].v < 0;
      var k := MarkIndex(n, h, l.reversed);
      assert MarkIndex(n, k, l.reversed) == h;
      MarkPatches(l, first, stack, k);
    }
  }

  lemma PatchedIsPayload(l: Layout, first: Stack, stack: Stack)
    requires ValidLayout(l) && AllResolve(l.operands, first) && AllResolve(l.operands, stack)
    requires CanPatch(RecordOf(l, first), l.tolerant, stack)
    ensures PatchOf(l, RecordOf(l, first), stack) == Some(Payload(l, stack))
  {
    var rec := RecordOf(l, first);
    forall h | 0 <= h < |l.operands| ensures PatchEntry(l, rec, stack, h) == Payload(l, stack)[h] {
      EntryIsRecorded(l, first, stack, h);
    }
    assert PatchOf(l, rec, stack).value == Payload(l, stack);
  }

  ghost predicate NoPatch(l: Layout, first: Stack, stack: Stack)
    requires ValidLayout(l) && AllResolve(l.operands, first) && AllResolve(l.operands, stack)
  {
    PatchOf(l, RecordOf(l, first), stack).None?
  }

  predicate NegativeConstant(p: Operand) { p.Constant? && p.v < 0 }

  /** Which launches of a repeat have no patch: those of an op with a negative constant among its counts. */
  lemma RepeatPatchFailsIff(repeats: seq<Operand>, first: Stack, stack: Stack)
    requires AllResolve(RepeatLayout(repeats).operands, first) && AllResolve(RepeatLayout(repeats).operands, stack)
    ensures NoPatch(RepeatLayout(repeats), first, stack) <==> exists d :: 0 <= d < |repeats| && NegativeConstant(repeats[d])
  {
    var l, n := RepeatLayout(repeats), |repeats|;
    PatchIsRecord(l, first, stack);
    if exists d :: 0 <= d < n && NegativeConstant(repeats[d]) {
      var d :| 0 <= d < n && NegativeConstant(repeats[d]);
      assert l.operands[n - 1 - d] == repeats[d];
    }
    if HasNegativeConstant(l.operands) {
      var i :| 0 <= i < n && l.operands[i].Constant? && l.operands[i].v < 0;
      assert NegativeConstant(repeats[n - 1 - i]);
    }
  }

  lemma RandpermPatchFailsIff(end: Operand, first: Stack, stack: Stack)
    requires AllResolve(RandpermLayout(end).operands, first) && AllResolve(RandpermLayout(end).operands, stack)
    ensures NoPatch(RandpermLayout(end), first, stack) <==> NegativeConstant(end)
  {
    var l := RandpermLayout(end);
    assert l.operands[0] == Constant(0) && l.operands[1] == end && l.operands[2] == Constant(1);
    PatchIsRecord(l, first, stack);
  }

  lemma StridesPatchFailsIff(strides: seq<Operand>, offset: Operand, isAsStrided: bool, first: Stack, stack: Stack)
    requires |strides| <= SYN_MAX_TENSOR_DIM + 1
    requires AllResolve(StrideLayout(strides, offset, isAsStrided).operands, first)
    requires AllResolve(StrideLayout(strides, offset, isAsStrided).operands, stack)
    ensures NoPatch(StrideLayout(strides, offset, isAsStrided), first, stack)
            <==> NegativeConstant(offset) || exists d :: 0 <= d < |strides| && NegativeConstant(strides[d])
  {
    var l, n := StrideLayout(strides, offset, isAsStrided), |strides|;
    PatchIsRecord(l, first, stack);
    assert l.operands[1] == offset;
    if exists d :: 0 <= d < n && NegativeConstant(strides[d]) {
      var d :| 0 <= d < n && NegativeConstant(strides[d]);
      assert l.operands[2 + (n - 1 - d)] == strides[d];
    }
    if HasNegativeConstant(l.operands) {
      var i :| 0 <= i < |l.operands| && l.operands[i].Constant? && l.operands[i].v < 0;
      StrideOperandAt(strides, offset, StrideCount(strides, isAsStrided), i);
    }
  }

  lemma StrideOperandAt(strides: seq<Operand>, offset: Operand, count: nat, i: nat)
    requires |strides| <= SYN_MAX_TENSOR_DIM + 1 && i < SYN_MAX_TENSOR_DIM + 3
    ensures var p := StrideOperands(strides, offset, count)[i];
            NegativeConstant(p) ==> p == offset || exists d :: 0 <= d < |strides| && strides[d] == p
  {
    var n := |strides|;
    if 2 <= i < 2 + n { assert StrideOperands(strides, offset, count)[i] == strides[n - 1 - (i - 2)]; }
  }

  /** A pad always has a patch: its negative constants are told from indices. */
  lemma PadAlwaysPatches(pads: seq<Operand>, first: Stack, stack: Stack)
    requires |pads| / 2 <= MAX_DIMENSIONS_NUM
    requires AllResolve(PadLayout(pads).operands, first) && AllResolve(PadLayout(pads).operands, stack)
    ensures !NoPatch(PadLayout(pads), first, stack)
  {
    PatchIsRecord(PadLayout(pads), first, stack);
  }

  /** A repeat of -1, as a constant, is recorded with the index -1 and has no patch. */
  lemma NegativeConstantHasNoPatch(first: Stack, stack: Stack)
    ensures var l := RepeatLayout([Constant(-1)]);
            && AllResolve(l.operands, first) && AllResolve(l.operands, stack)
            && PatchOf(l, RecordOf(l, first), stack) == Option.None
  {
    var l := RepeatLayout([Constant(-1)]);
    assert l.operands == [Constant(-1)];
    assert l.operands[0].v < 0;
    PatchIsRecord(l, first, stack);
  }
}
