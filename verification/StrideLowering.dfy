/**
 How the strided kernels read a stride payload back: directly, or through the strides the offset
 tensor carries. Outside the minimum and maximum passes both give the same kernel parameters.
 */
module StrideLowering {
  import opened IndexSpace
  import opened StridedViews
  import opened DynamicParams
  import opened DynamicLaunch
  import opened DynamicGraph
  import opened HostMemory

  const HABANA_DIM_MAX: nat := 25

  /** The parameters a strided kernel gets. */
  datatype StridedParams = StridedParams(baseOffset: int, strides: seq<int>)

  /** Strides from the last dimension to the first, the rest zero. */
  function ParamsFor(strides: seq<int>, offset: int): StridedParams
    requires |strides| <= HABANA_DIM_MAX
  {
    StridedParams(offset, Reversed(strides) + seq(HABANA_DIM_MAX - |strides|, _ => 0))
  }

  // --- what the parameters mean to the device ---

  /** The device counts dimensions from the innermost: stride 0 belongs to the last dimension of the tensor. */
  function BackDot(idx: seq<nat>, strides: seq<int>): int
    requires |idx| <= |strides|
  {
    if idx == [] then 0 else idx[0] * strides[|idx| - 1] + BackDot(idx[1..], strides)
  }

  function Address(p: StridedParams, idx: seq<nat>): int
    requires |idx| <= |p.strides|
  {
    p.baseOffset + BackDot(idx, p.strides)
  }

  function IntDot(idx: seq<nat>, strides: seq<int>): int
    requires |idx| == |strides|
  {
    if idx == [] then 0 else idx[0] * strides[0] + IntDot(idx[1..], strides[1..])
  }

  /** The device finds every element of the tensor at its offset plus the strides of its index. */
  ghost predicate Denotes(p: StridedParams, strides: seq<int>, offset: int) {
    && |p.strides| == HABANA_DIM_MAX && |strides| <= HABANA_DIM_MAX
    && (forall idx: seq<nat> :: |idx| == |strides| ==> Address(p, idx) == offset + IntDot(idx, strides))
    && (forall k :: |strides| <= k < HABANA_DIM_MAX ==> p.strides[k] == 0)
  }

  /** The device finds element e of a view where the view has it. */
  ghost predicate DenotesView(p: StridedParams, v: View) {
    && |v.sizes| == |v.strides| <= |p.strides|
    && forall e: nat :: e < Numel(v.sizes) ==> Address(p, Unrank(e, v.sizes)) == Pos(v, e)
  }

  lemma {:induction false} BackDotIsDot(idx: seq<nat>, strides: seq<int>, back: seq<int>)
    requires |idx| == |strides| <= |back| && forall d :: 0 <= d < |strides| ==> back[|strides| - 1 - d] == strides[d]
    ensures BackDot(idx, back) == IntDot(idx, strides)
    decreases |idx|
  {
    if idx != [] {
      var rest := strides[1..];
      forall d | 0 <= d < |rest| ensures back[|rest| - 1 - d] == rest[d] { assert rest[d] == strides[d + 1]; }
      BackDotIsDot(idx[1..], rest, back);
    }
  }

  lemma ParamsDenote(strides: seq<int>, offset: int)
    requires |strides| <= HABANA_DIM_MAX
    ensures Denotes(ParamsFor(strides, offset), strides, offset)
  {
    var p := ParamsFor(strides, offset);
    forall d | 0 <= d < |strides| ensures p.strides[|strides| - 1 - d] == strides[d] {}
    forall idx: seq<nat> | |idx| == |strides| ensures Address(p, idx) == offset + IntDot(idx, strides) {
      BackDotIsDot(idx, strides, p.strides);
    }
  }

  function Nats(s: seq<int>): (r: seq<nat>)
    requires forall i :: 0 <= i < |s| ==> s[i] >= 0
    ensures |r| == |s|
  {
    seq(|s|, i requires 0 <= i < |s| => s[i])
  }

  lemma {:induction false} DotOfNats(idx: seq<nat>, strides: seq<int>)
    requires |idx| == |strides| && forall i :: 0 <= i < |strides| ==> strides[i] >= 0
    ensures IntDot(idx, strides) == Dot(idx, Nats(strides))
    decreases |idx|
  {
    if idx != [] {
      assert Nats(strides)[1..] == Nats(strides[1..]);
      DotOfNats(idx[1..], strides[1..]);
    }
  }

  lemma DenotesEveryView(p: StridedParams, strides: seq<int>, offset: nat)
    requires Denotes(p, strides, offset) && forall i :: 0 <= i < |strides| ==> strides[i] >= 0
    ensures forall sizes: seq<nat> :: |sizes| == |strides| ==> DenotesView(p, View(sizes, Nats(strides), offset))
  {
    forall sizes: seq<nat> | |sizes| == |strides| ensures DenotesView(p, View(sizes, Nats(strides), offset)) {
      forall e: nat | e < Numel(sizes) ensures Address(p, Unrank(e, sizes)) == Pos(View(sizes, Nats(strides), offset), e) {
        DotOfNats(Unrank(e, sizes), strides);
      }
    }
  }

  // --- the two paths ---

  /** Every word must be below the signed limit, or the kernel refuses. */
  method CheckWords(data: seq<int>) returns (ok: bool)
    ensures ok <==> forall i :: 0 <= i < |data| ==> data[i] < LONG_MAX
  {
    for i := 0 to |data|
      invariant forall j :: 0 <= j < i ==> data[j] < LONG_MAX
    {
      if data[i] >= LONG_MAX {
        return false;
      }
    }
    ok := true;
  }

  /** Fill the fixed parameter array with values from the front, zeros behind. */
  method FillStrides(params: array<int>, values: seq<int>)
    requires params.Length == HABANA_DIM_MAX && |values| <= HABANA_DIM_MAX
    modifies params
    ensures params[..] == values + seq(HABANA_DIM_MAX - |values|, _ => 0)
  {
    for i := 0 to HABANA_DIM_MAX
      invariant forall j :: 0 <= j < i ==> params[j] == 0
    {
      params[i] := 0;
    }
    for i := 0 to |values|
      invariant forall j :: 0 <= j < i ==> params[j] == values[j]
      invariant forall j :: i <= j < HABANA_DIM_MAX ==> params[j] == 0
    {
      params[i] := values[i];
    }
  }

  /** compute_params_h2d without ratios: count, offset and reversed strides straight from the payload words. */
  method LowerFromPayload(data: seq<int>) returns (r: Option<StridedParams>)
    requires HasStrides(data) && data[0] <= HABANA_DIM_MAX
    ensures r == if forall i :: 0 <= i < |data| ==> data[i] < LONG_MAX
                 then Some(ParamsFor(DecodeStrides(data), data[1])) else Option.None
    ensures r.Some? ==> Denotes(r.value, DecodeStrides(data), data[1])
  {
    var ok := CheckWords(data);
    if !ok {
      return Option.None;
    }
    var values := data[2..2 + data[0]];
    var params := new int[HABANA_DIM_MAX];
    FillStrides(params, values);
    r := Some(StridedParams(data[1], params[..]));
    ReverseTwice(values);
    ParamsDenote(DecodeStrides(data), data[1]);
  }

  /** compute_params_h2d with ratios, outside the minimum and maximum passes: the carried strides and the
      size of the offset tensor. */
  method LowerFromCarried(strides: seq<int>, offsetSizes: seq<int>) returns (r: StridedParams)
    requires |strides| <= HABANA_DIM_MAX && |offsetSizes| > 0
    ensures r == ParamsFor(strides, offsetSizes[0]) && Denotes(r, strides, offsetSizes[0])
  {
    var back := Reverse(strides);
    var params := new int[HABANA_DIM_MAX];
    FillStrides(params, back);
    r := StridedParams(offsetSizes[0], params[..]);
    ParamsDenote(strides, offsetSizes[0]);
  }

  /** The words the ratio path stores for the minimum and maximum passes. */
  method StrideDataVector(strides: seq<int>, offset: int) returns (data: seq<int>)
    requires |strides| <= SYN_MAX_TENSOR_DIM + 1
    ensures data == PlainPayload(strides, offset)
  {
    data := [|strides|, offset];
    var back := Reverse(strides);
    data := data + back;
    var fill := SYN_MAX_TENSOR_DIM + 1 - |strides|;
    for i := 0 to fill
      invariant data == [|strides|, offset] + back + seq(i, _ => 0)
    {
      data := data + [0];
      assert seq(i + 1, _ => 0) == seq(i, _ => 0) + [0];
    }
  }

  function PlainPayload(strides: seq<int>, offset: int): (r: seq<int>)
    requires |strides| <= SYN_MAX_TENSOR_DIM + 1
    ensures |r| == SYN_MAX_TENSOR_DIM + 3
  {
    [|strides|, offset] + Reversed(strides) + seq(SYN_MAX_TENSOR_DIM + 1 - |strides|, _ => 0)
  }

  /** What set_min and set_max are given has the registered length of every stride payload, and decodes to
      the strides of the pass. */
  lemma PassPayloadDecodes(strides: seq<int>, offset: int)
    requires |strides| <= SYN_MAX_TENSOR_DIM + 1
    ensures HasStrides(PlainPayload(strides, offset)) && DecodeStrides(PlainPayload(strides, offset)) == strides
  {
    StridesDecode(PlainPayload(strides, offset), strides, |strides|, offset, seq(SYN_MAX_TENSOR_DIM + 1 - |strides|, _ => 0));
  }

  // --- end to end ---

  predicate InRange(s: seq<int>) { forall i :: 0 <= i < |s| ==> 0 <= s[i] < LONG_MAX }

  lemma StrideEntryRegistered(strides: seq<Operand>, offset: Operand, isAsStrided: bool, stack: Stack)
    requires |strides| <= SYN_MAX_TENSOR_DIM + 1 && Resolves(offset, stack)
    requires AllResolve(StrideLayout(strides, offset, isAsStrided).operands, stack)
    ensures var e := StrideEntries(strides, offset, isAsStrided, true, stack)[0];
            Registered(e) && e.width == U64 && e.size == SYN_MAX_TENSOR_DIM + 3
  {
  }

  /** The words a kernel reads from the chunk for a stride payload: those of the launch's operands. */
  lemma WordsRead(strides: seq<Operand>, offset: Operand, isAsStrided: bool, stack: Stack, values: seq<int>, words: seq<int>)
    requires |strides| <= SYN_MAX_TENSOR_DIM + 1 && AllResolve(strides, stack) && Resolves(offset, stack)
    requires AllResolve(StrideLayout(strides, offset, isAsStrided).operands, stack)
    requires InRange(Values(strides, stack)) && 0 <= ValueOf(offset, stack) < LONG_MAX
    requires values == StrideValues(strides, offset, isAsStrided, stack)
    requires |words| == |values| && forall i :: 0 <= i < |words| ==> words[i] == Cast(U64, values[i])
    ensures words == values
  {
    WordsBelowLimit(strides, offset, isAsStrided, stack);
    forall i | 0 <= i < |words| ensures words[i] == values[i] {
      assert 0 <= values[i] < LONG_MAX;
    }
  }

  /** The parameters both paths arrive at: the launch's own strides and offset. For a rank of zero the
      single zero stride of as_strided is the zero the parameters hold anyway. */
  lemma DecodedParams(strides: seq<Operand>, offset: Operand, isAsStrided: bool, stack: Stack)
    requires |strides| <= SYN_MAX_TENSOR_DIM + 1 && AllResolve(strides, stack) && Resolves(offset, stack)
    requires AllResolve(StrideLayout(strides, offset, isAsStrided).operands, stack)
    requires InRange(Values(strides, stack)) && 0 <= ValueOf(offset, stack) < LONG_MAX
    ensures var v := StrideValues(strides, offset, isAsStrided, stack);
            && HasStrides(v) && |DecodeStrides(v)| <= HABANA_DIM_MAX
            && ParamsFor(DecodeStrides(v), v[1]) == ParamsFor(Values(strides, stack), ValueOf(offset, stack))
            && Denotes(ParamsFor(DecodeStrides(v), v[1]), Values(strides, stack), ValueOf(offset, stack))
  {
    var v := StrideValues(strides, offset, isAsStrided, stack);
    var zeros := seq(SYN_MAX_TENSOR_DIM + 1 - |strides|, _ => 0);
    StridePayload(strides, offset, isAsStrided, stack);
    StridesDecode(v, Values(strides, stack), StrideCount(strides, isAsStrided), ValueOf(offset, stack), zeros);
    if StrideCount(strides, isAsStrided) != |strides| {
      assert Reversed([0]) + seq(HABANA_DIM_MAX - 1, _ => 0) == Reversed(Values(strides, stack)) + seq(HABANA_DIM_MAX, _ => 0);
    }
    ParamsDenote(Values(strides, stack), ValueOf(offset, stack));
  }

  /** A stride payload anywhere in a list: every pass reads its words back. */
  lemma PayloadInChunk(strides: seq<Operand>, offset: Operand, isAsStrided: bool, stack: Stack,
                       es: seq<LaunchEntry>, p: nat, image: seq<Byte>, dryRun: bool, pass: Pass)
    requires |strides| <= SYN_MAX_TENSOR_DIM + 1 && AllResolve(strides, stack) && Resolves(offset, stack)
    requires AllResolve(StrideLayout(strides, offset, isAsStrided).operands, stack)
    requires InRange(Values(strides, stack)) && 0 <= ValueOf(offset, stack) < LONG_MAX
    requires p < |es| && es[p] == StrideEntries(strides, offset, isAsStrided, true, stack)[0]
    requires AllRegistered(es) && image == Image(es, |es|)
    ensures es[p].HostEntry? && es[p].width == U64 && es[p].size == SYN_MAX_TENSOR_DIM + 3 && FollowsHost(es, p)
    ensures ReadStart(PlacedAt(es, p).host, PlacedAt(es, p).compile, U64, SYN_MAX_TENSOR_DIM + 3, dryRun, pass)
            in PlacesReading(image, U64, StrideValues(strides, offset, isAsStrided, stack))
  {
    StrideEntryRegistered(strides, offset, isAsStrided, stack);
    EntryWords(strides, offset, isAsStrided, stack, es[p]);
    PatchedReads(es, p, image, dryRun, pass,
                 ReadStart(PlacedAt(es, p).host, PlacedAt(es, p).compile, U64, SYN_MAX_TENSOR_DIM + 3, dryRun, pass));
  }

  lemma EntryWords(strides: seq<Operand>, offset: Operand, isAsStrided: bool, stack: Stack, e: LaunchEntry)
    requires |strides| <= SYN_MAX_TENSOR_DIM + 1 && AllResolve(strides, stack) && Resolves(offset, stack)
    requires AllResolve(StrideLayout(strides, offset, isAsStrided).operands, stack)
    requires InRange(Values(strides, stack)) && 0 <= ValueOf(offset, stack) < LONG_MAX
    requires e == StrideEntries(strides, offset, isAsStrided, true, stack)[0]
    ensures e.HostEntry? && CastAll(U64, e.values) == StrideValues(strides, offset, isAsStrided, stack)
  {
    WordsRead(strides, offset, isAsStrided, stack, e.values, CastAll(U64, e.values));
  }

  /** An offset right behind its stride payload, anywhere in a list: it carries the payload's strides. */
  lemma OffsetInChunk(strides: seq<Operand>, offset: Operand, isAsStrided: bool, stack: Stack, es: seq<LaunchEntry>, p: nat)
    requires 0 < |strides| <= SYN_MAX_TENSOR_DIM + 1 && AllResolve(strides, stack) && Resolves(offset, stack)
    requires AllResolve(StrideLayout(strides, offset, isAsStrided).operands, stack)
    requires InRange(Values(strides, stack)) && 0 <= ValueOf(offset, stack) < LONG_MAX
    requires var own := StrideEntries(strides, offset, isAsStrided, true, stack);
             |own| == 2 && p + 1 < |es| && es[p] == own[0] && es[p + 1] == own[1]
    ensures FollowsHost(es, p + 1)
    ensures PlacedAt(es, p + 1) == Sized([ValueOf(offset, stack)], Some(Values(strides, stack)))
  {
    CarriedStridesAreOwn(strides, offset, isAsStrided, stack);
  }

  /** What a launch leaves for stride op j, wherever the op is in the list: every pass reads its own payload
      back from the chunk, and the offset tensor of the ratio path carries its own strides. */
  lemma StridesInChunk(plan: seq<OpSpec>, first: Stack, k: Kernels, stack: Stack, j: nat,
                       es: seq<LaunchEntry>, p: nat, image: seq<Byte>, dryRun: bool, pass: Pass)
    requires first in Launchable(plan) && stack in Launchable(plan) && j < |plan| && HoldsStrides(plan[j])
    requires StrideOpReady(plan[j], stack) && StridesInRange(plan[j], stack) && plan[j].strides != []
    requires es == ExpectedList(plan, first, k, stack) && p == OpStart(plan, first, k, stack, j)
    requires image == Image(es, |es|)
    ensures p < |es| && es[p].HostEntry? && es[p].width == U64 && es[p].size == SYN_MAX_TENSOR_DIM + 3 && FollowsHost(es, p)
    ensures ReadStart(PlacedAt(es, p).host, PlacedAt(es, p).compile, U64, es[p].size, dryRun, pass)
            in PlacesReading(image, U64, StrideValues(plan[j].strides, plan[j].offset, plan[j].AsStrided?, stack))
    ensures ReadyAt(plan, first, j) && (UsesRatio(plan[j], first) ==>
              && p + 1 < |es| && FollowsHost(es, p + 1)
              && PlacedAt(es, p + 1) == Sized([ValueOf(plan[j].offset, stack)], Some(Values(plan[j].strides, stack))))
  {
    var s := plan[j];
    StrideOpInList(plan, first, k, stack, j, es, p);
    LaunchListPlaceable(plan, first, k, stack);
    PlaceableMeans(es);
    PayloadInChunk(s.strides, s.offset, s.AsStrided?, stack, es, p, image, dryRun, pass);
    if UsesRatio(s, first) { OffsetInChunk(s.strides, s.offset, s.AsStrided?, stack, es, p); }
  }

  /** Strides and offset are representable and not negative. */
  predicate StridesInRange(s: OpSpec, stack: Stack)
    requires HoldsStrides(s) && StrideOpReady(s, stack)
  {
    InRange(Values(s.strides, stack)) && 0 <= ValueOf(s.offset, stack) < LONG_MAX
  }

  /** The device addresses every element of every view with the op's strides and offset under this stack. */
  ghost predicate OwnAddresses(p: StridedParams, s: OpSpec, stack: Stack)
    requires HoldsStrides(s) && StrideOpReady(s, stack) && StridesInRange(s, stack)
  {
    && Denotes(p, Values(s.strides, stack), ValueOf(s.offset, stack))
    && forall sizes: seq<nat> :: |sizes| == |s.strides| ==>
         DenotesView(p, View(sizes, Nats(Values(s.strides, stack)), ValueOf(s.offset, stack)))
  }

  /** From a launch list to the kernel of any of its stride ops: place the whole list in the chunk, then
      lower from the words read back in some pass and, on the ratio path, from the carried strides. Both
      give the op's own strides and offset under this launch's stack. */
  method LowerBothWays(ghost plan: seq<OpSpec>, ghost first: Stack, ghost k: Kernels, ghost stack: Stack, ghost j: nat,
                       list: seq<LaunchEntry>, p: nat, ratio: bool, dryRun: bool, pass: Pass)
    returns (plain: Option<StridedParams>, carried: Option<StridedParams>)
    requires first in Launchable(plan) && stack in Launchable(plan) && j < |plan| && HoldsStrides(plan[j])
    requires StrideOpReady(plan[j], stack) && StridesInRange(plan[j], stack) && plan[j].strides != []
    requires list == ExpectedList(plan, first, k, stack) && p == OpStart(plan, first, k, stack, j)
    requires ReadyAt(plan, first, j) && ratio == UsesRatio(plan[j], first)
    ensures plain.Some? && carried == if ratio then plain else Option.None
    ensures OwnAddresses(plain.value, plan[j], stack)
  {
    ghost var s := plan[j];
    LaunchListPlaceable(plan, first, k, stack);
    PlaceableMeans(list);
    var chunk, placed := PatchDynamicTensors(list);
    StridesInChunk(plan, first, k, stack, j, list, p, chunk[..], dryRun, pass);
    assert PlacedRight(list, placed, p);
    var at := ReadStart(placed[p].host, placed[p].compile, U64, list[p].size, dryRun, pass);
    var words := ReadBytes(chunk[..], at, U64, list[p].size);
    DecodedParams(s.strides, s.offset, s.AsStrided?, stack);
    WordsBelowLimit(s.strides, s.offset, s.AsStrided?, stack);
    plain := LowerFromPayload(words);
    carried := Option.None;
    if ratio {
      assert PlacedRight(list, placed, p + 1);
      var c := LowerFromCarried(placed[p + 1].strides.value, placed[p + 1].sizes);
      carried := Some(c);
    }
    DenotesEveryView(plain.value, Values(s.strides, stack), ValueOf(s.offset, stack));
  }

  lemma WordsBelowLimit(strides: seq<Operand>, offset: Operand, isAsStrided: bool, stack: Stack)
    requires |strides| <= SYN_MAX_TENSOR_DIM + 1 && AllResolve(strides, stack) && Resolves(offset, stack)
    requires AllResolve(StrideLayout(strides, offset, isAsStrided).operands, stack)
    requires InRange(Values(strides, stack)) && 0 <= ValueOf(offset, stack) < LONG_MAX
    ensures forall i :: 0 <= i < |StrideValues(strides, offset, isAsStrided, stack)| ==>
              0 <= StrideValues(strides, offset, isAsStrided, stack)[i] < LONG_MAX
  {
    var values := StrideValues(strides, offset, isAsStrided, stack);
    StridePayload(strides, offset, isAsStrided, stack);
    var back := Reversed(Values(strides, stack));
    forall i | 0 <= i < |values| ensures 0 <= values[i] < LONG_MAX {
      if 2 <= i < 2 + |strides| {
        assert values[i] == back[i - 2] == Values(strides, stack)[|strides| - 1 - (i - 2)];
      }
    }
  }

  /** The same from the launcher: whatever launches came before, the kernel of stride op j gets this launch's
      strides and offset. */
  method LaunchAndLower(l: DynamicLauncher, k: Kernels, stack: Stack, ghost j: nat, p: nat, ratio: bool, dryRun: bool, pass: Pass)
    returns (plain: Option<StridedParams>, carried: Option<StridedParams>)
    requires l.Valid() && stack in Launchable(l.plan) && j < |l.plan| && HoldsStrides(l.plan[j])
    requires StrideOpReady(l.plan[j], stack) && StridesInRange(l.plan[j], stack) && l.plan[j].strides != []
    requires p == OpStart(l.plan, l.first, k, stack, j)
    requires ReadyAt(l.plan, l.first, j) && ratio == UsesRatio(l.plan[j], l.first)
    modifies l
    ensures l.Valid() && l.last == stack
    ensures plain.Some? && carried == if ratio then plain else Option.None
    ensures OwnAddresses(plain.value, l.plan[j], stack)
  {
    var list := l.Launch(k, stack);
    plain, carried := LowerBothWays(l.plan, l.first, k, stack, j, list, p, ratio, dryRun, pass);
  }
}
