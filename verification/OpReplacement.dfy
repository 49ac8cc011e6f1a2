/**
 What the view pass decides about a call, in terms of its arguments alone: which tensors the call
 writes, and whether the op node ends as the in-place op or as its out-of-place twin, and which views are read.
 */
module OpReplacement {
  import opened StridedViews
  import opened JitGraph
  import opened ViewLowering
  import opened EagerGraph
  import opened LoweringMeaning

  function TensorsOf(a: Arg): seq<TensorArg> {
    match a
    case One(t) => [t]
    case Many(ts) => ts
    case _ => []
  }

  /** The trailing arguments of an out variant. */
  predicate OutPosition(op: OpInfo, n: nat, i: nat) { n <= i + op.numOut }

  /** An argument an in-place op updates. */
  predicate InplacePosition(op: OpInfo, n: nat, i: nat) { i + op.numOut < n && op.kind == Inplace && i in op.outIndices }

  predicate DeviceTensorAt(args: seq<Arg>, i: nat, j: nat) {
    i < |args| && j < |TensorsOf(args[i])| && TensorsOf(args[i])[j].hpu
  }

  predicate Lowered(t: TensorArg) { t.viewLowering || !t.contiguous }

  /** Tensor j of argument i is written and is lowered as a view. */
  predicate ViewWrittenAt(op: OpInfo, args: seq<Arg>, i: nat, j: nat) {
    DeviceTensorAt(args, i, j) && Lowered(TensorsOf(args[i])[j]) && (OutPosition(op, |args|, i) || InplacePosition(op, |args|, i))
  }

  /** Tensor j of argument i is updated in place and is no view: only the in-place op itself updates it. */
  predicate PlainInplaceAt(op: OpInfo, args: seq<Arg>, i: nat, j: nat) {
    DeviceTensorAt(args, i, j) && !Lowered(TensorsOf(args[i])[j]) && InplacePosition(op, |args|, i)
  }

  ghost predicate SomeViewWritten(op: OpInfo, args: seq<Arg>) { exists i, j :: ViewWrittenAt(op, args, i, j) }

  ghost predicate SomePlainInplace(op: OpInfo, args: seq<Arg>) { exists i, j :: PlainInplaceAt(op, args, i, j) }

  /** The out-of-place twin takes over exactly when a view is written, no plain tensor is updated in place, the
      op reads its first argument and has at most one out argument. */
  ghost predicate TwinTakesOver(op: OpInfo, args: seq<Arg>) {
    SomeViewWritten(op, args) && !SomePlainInplace(op, args) && !op.ignoresInput && op.numOut <= 1
  }

  // --- tensors and slots ---

  lemma {:induction false} SlotIsTensor(args: seq<Arg>, idx: nat, n: Id, opId: Id, q: nat) returns (i: nat, j: nat)
    requires q < |Slots(args, idx, n, opId)|
    ensures i < |args| && j < |TensorsOf(args[i])| && Slots(args, idx, n, opId)[q].t == TensorsOf(args[i])[j]
    ensures Slots(args, idx, n, opId)[q].argIdx == idx + i
    decreases |args|
  {
    var rest, m, first := args[1..], n + Width(args[0]), ArgSlots(args[0], idx, n, opId);
    SlotsOfCons(args, rest, idx, n, m, opId);
    if q < |first| {
      i, j := 0, q;
    } else {
      var r := q - |first|;
      SlotLater(Slots(args, idx, n, opId), first, Slots(rest, idx + 1, m, opId), q, r);
      i, j := SlotIsTensor(rest, idx + 1, m, opId, r);
      i := i + 1;
    }
  }

  lemma {:induction false} TensorIsSlot(args: seq<Arg>, idx: nat, n: Id, opId: Id, i: nat, j: nat) returns (q: nat)
    requires i < |args| && j < |TensorsOf(args[i])|
    ensures q < |Slots(args, idx, n, opId)| && Slots(args, idx, n, opId)[q].t == TensorsOf(args[i])[j]
    ensures Slots(args, idx, n, opId)[q].argIdx == idx + i
    decreases |args|
  {
    var rest, m, first := args[1..], n + Width(args[0]), ArgSlots(args[0], idx, n, opId);
    SlotsOfCons(args, rest, idx, n, m, opId);
    if i == 0 {
      q := j;
    } else {
      var r := TensorIsSlot(rest, idx + 1, m, opId, i - 1, j);
      q := |first| + r;
      SlotLater(Slots(args, idx, n, opId), first, Slots(rest, idx + 1, m, opId), q, r);
    }
  }

  // --- the counters, as what they decide ---

  lemma {:induction false} CountedInsert(ctx: Ctx, slots: seq<Slot>) returns (q: nat)
    requires CountInserts(ctx, slots) > 0
    ensures q < |slots| && ctx.Inserts(slots[q])
    decreases |slots|
  {
    if ctx.Inserts(slots[0]) { return 0; }
    q := CountedInsert(ctx, slots[1..]);
    q := q + 1;
  }

  predicate Ordinary(ctx: Ctx, s: Slot) { s.t.hpu && !s.t.IsView() && ctx.InplaceInput(s) }

  lemma {:induction false} CountedOrdinary(ctx: Ctx, slots: seq<Slot>) returns (q: nat)
    requires CountOrdinary(ctx, slots) > 0
    ensures q < |slots| && Ordinary(ctx, slots[q])
    decreases |slots|
  {
    if Ordinary(ctx, slots[0]) { return 0; }
    q := CountedOrdinary(ctx, slots[1..]);
    q := q + 1;
  }

  lemma {:induction false} OrdinaryCounted(ctx: Ctx, slots: seq<Slot>, q: nat)
    requires q < |slots| && Ordinary(ctx, slots[q])
    ensures CountOrdinary(ctx, slots) > 0
    decreases |slots|
  {
    if q > 0 { OrdinaryCounted(ctx, slots[1..], q - 1); }
  }

  lemma InsertsIff(op: OpInfo, args: seq<Arg>)
    ensures CountInserts(Context(op, args), AllSlots(args)) > 0 <==> SomeViewWritten(op, args)
  {
    var ctx, slots := Context(op, args), AllSlots(args);
    if CountInserts(ctx, slots) > 0 {
      var q := CountedInsert(ctx, slots);
      var i, j := SlotIsTensor(args, 0, 0, TotalWidth(args), q);
      assert ViewWrittenAt(op, args, i, j);
    }
    if SomeViewWritten(op, args) {
      var i, j :| ViewWrittenAt(op, args, i, j);
      var q := TensorIsSlot(args, 0, 0, TotalWidth(args), i, j);
      CountPositive(ctx, slots, q);
    }
  }

  lemma OrdinaryIff(op: OpInfo, args: seq<Arg>)
    ensures CountOrdinary(Context(op, args), AllSlots(args)) > 0 <==> SomePlainInplace(op, args)
  {
    var ctx, slots := Context(op, args), AllSlots(args);
    if CountOrdinary(ctx, slots) > 0 {
      var q := CountedOrdinary(ctx, slots);
      var i, j := SlotIsTensor(args, 0, 0, TotalWidth(args), q);
      assert PlainInplaceAt(op, args, i, j);
    }
    if SomePlainInplace(op, args) {
      var i, j :| PlainInplaceAt(op, args, i, j);
      var q := TensorIsSlot(args, 0, 0, TotalWidth(args), i, j);
      OrdinaryCounted(ctx, slots, q);
    }
  }

  lemma ReplacedIff(op: OpInfo, args: seq<Arg>)
    ensures IsReplaced(op, args) <==> TwinTakesOver(op, args)
  {
    InsertsIff(op, args);
    OrdinaryIff(op, args);
  }

  // --- the operator of the lowered graph ---

  /** Some node of the graph runs the op. */
  ghost predicate Runs(g: Graph, symbol: string) { exists i :: 0 <= i < |g.nodes| && g.nodes[i].kind == Aten(symbol) }

  /** The graph has operator nodes, and all of them run this op. */
  ghost predicate RunsOnly(g: Graph, symbol: string) {
    Runs(g, symbol) && forall i :: 0 <= i < |g.nodes| && g.nodes[i].kind.Aten? ==> g.nodes[i].kind == Aten(symbol)
  }

  lemma {:induction false} LowerHasOp(ctx: Ctx, st: State, outs: seq<Id>, slots: seq<Slot>)
    requires Ready(ctx, st, outs, slots)
    ensures HasNode(Lower(ctx, st, outs, slots).g.nodes, ctx.opId)
    decreases |slots|
  {
    if slots != [] {
      ReadyStep(ctx, st, outs, slots);
      LowerHasOp(ctx, HandleSlot(ctx, st, slots[0]), outs, slots[1..]);
    }
  }

  lemma LoweredHasOp(op: OpInfo, args: seq<Arg>, m: nat, params: ParamMap)
    requires Accepted(op, args, m)
    ensures HasNode(LoweredState(op, args, m, params).g.nodes, TotalWidth(args))
  {
    CreatedReady(op, args, m, params);
    LowerHasOp(Context(op, args), InitialState(Created(op.symbol, args, m), params), Range(TotalWidth(args) + 1, m), AllSlots(args));
  }

  lemma OwnOperator(ctx: Ctx, g: Graph)
    requires OpIntact(ctx, g) && HasNode(g.nodes, ctx.opId)
    ensures RunsOnly(g, ctx.op.symbol)
  {
    var i := NodeIndex(g.nodes, ctx.opId);
    assert NodeIntact(ctx, g.nodes[i]);
    forall k | 0 <= k < |g.nodes| && g.nodes[k].kind.Aten? ensures g.nodes[k].kind == Aten(ctx.op.symbol) {
      assert NodeIntact(ctx, g.nodes[k]);
    }
  }

  lemma TwinOperator(ctx: Ctx, g: Graph)
    requires OpIntact(ctx, g) && HasNode(g.nodes, ctx.opId)
    ensures RunsOnly(Replaced(ctx, g), ctx.op.twin)
  {
    var r := Replaced(ctx, g);
    var i := NodeIndex(g.nodes, ctx.opId);
    assert r.nodes[i].kind == Aten(ctx.op.twin);
    forall k | 0 <= k < |r.nodes| && r.nodes[k].kind.Aten? ensures r.nodes[k].kind == Aten(ctx.op.twin) {
      assert NodeIntact(ctx, g.nodes[k]);
    }
  }

  /** The decision of the pass: which op the lowered graph runs. */
  lemma OperatorDecided(op: OpInfo, args: seq<Arg>, m: nat, params: ParamMap)
    requires Accepted(op, args, m)
    ensures RunsOnly(LoweredGraph(op, args, m, params), if TwinTakesOver(op, args) then op.twin else op.symbol)
  {
    ReplacedIff(op, args);
    LoweredCounts(op, args, m, params);
    LoweredIntact(op, args, m, params);
    LoweredHasOp(op, args, m, params);
    var g := LoweredState(op, args, m, params).g;
    OwnOperator(Context(op, args), g);
    TwinOperator(Context(op, args), g);
  }

  // --- the written tensors ---

  /** Out arguments are tensors, not lists of tensors. */
  predicate OutsAreTensors(op: OpInfo, args: seq<Arg>) {
    forall i :: 0 <= i < |args| && OutPosition(op, |args|, i) ==> args[i].One?
  }

  /** A plain tensor is written only where the op itself runs. */
  lemma PlainWrittenByOp(op: OpInfo, args: seq<Arg>, m: nat, params: ParamMap, k: nat)
    requires Accepted(op, args, m) && Consistent(op) && OutsAreTensors(op, args)
    requires k < |WrittenSlots(Context(op, args), AllSlots(args))|
    requires !WrittenSlots(Context(op, args), AllSlots(args))[k].t.IsView()
    ensures Runs(LoweredGraph(op, args, m, params), op.symbol)
  {
    var ctx := Context(op, args);
    var q := WrittenIsSlot(ctx, AllSlots(args), k);
    var i, j := SlotIsTensor(args, 0, 0, TotalWidth(args), q);
    OperatorDecided(op, args, m, params);
    PlainKeepsOp(op, args, i, j);
  }

  /** Where a plain tensor is written, in place or as an out, the twin does not take over. */
  lemma PlainKeepsOp(op: OpInfo, args: seq<Arg>, i: nat, j: nat)
    requires Consistent(op) && OutsAreTensors(op, args)
    requires DeviceTensorAt(args, i, j) && !Lowered(TensorsOf(args[i])[j]) && (OutPosition(op, |args|, i) || InplacePosition(op, |args|, i))
    ensures !TwinTakesOver(op, args)
  {
    if InplacePosition(op, |args|, i) {
      assert PlainInplaceAt(op, args, i, j);
    } else if op.numOut == 1 {
      PlainLoneOut(op, args, i);
    }
  }

  /** With one out, which is plain, no view is written. */
  lemma PlainLoneOut(op: OpInfo, args: seq<Arg>, i: nat)
    requires Consistent(op) && op.numOut == 1 && i + 1 == |args| && args[i].One? && !Lowered(args[i].t)
    ensures !SomeViewWritten(op, args)
  {
    forall i', j' ensures !ViewWrittenAt(op, args, i', j') {}
  }

  function DeviceTensors(ts: seq<TensorArg>): seq<TensorArg> {
    if ts == [] then [] else (if ts[0].hpu then [ts[0]] else []) + DeviceTensors(ts[1..])
  }

  /** The tensors an eager call writes, in order: those of its in-place arguments and its outs. */
  function EagerWrites(op: OpInfo, n: nat, args: seq<Arg>, i: nat): seq<TensorArg>
    decreases |args|
  {
    if args == [] then []
    else (if OutPosition(op, n, i) || InplacePosition(op, n, i) then DeviceTensors(TensorsOf(args[0])) else [])
         + EagerWrites(op, n, args[1..], i + 1)
  }

  function SlotTensors(slots: seq<Slot>): (r: seq<TensorArg>)
    ensures |r| == |slots|
  {
    seq(|slots|, k requires 0 <= k < |slots| => slots[k].t)
  }

  lemma {:induction false} WrittenConcat(ctx: Ctx, a: seq<Slot>, b: seq<Slot>)
    ensures WrittenSlots(ctx, a + b) == WrittenSlots(ctx, a) + WrittenSlots(ctx, b)
    decreases |a|
  {
    if a == [] {
      assert a + b == b;
    } else {
      var rest := a[1..];
      assert (a + b)[1..] == rest + b;
      WrittenConcat(ctx, rest, b);
    }
  }

  /** Of the tensors of one argument all or none are written, but for those off the device. */
  lemma WrittenOfArgument(op: OpInfo, ctx: Ctx, n: nat, slots: seq<Slot>, ts: seq<TensorArg>, i: nat)
    requires ctx.op == op && ctx.numInputs == n && |slots| == |ts|
    requires forall k :: 0 <= k < |slots| ==> slots[k].t == ts[k] && slots[k].argIdx == i
    ensures SlotTensors(WrittenSlots(ctx, slots))
            == if OutPosition(op, n, i) || InplacePosition(op, n, i) then DeviceTensors(ts) else []
  {
    WrittenAlike(ctx, slots, ts, OutPosition(op, n, i) || InplacePosition(op, n, i));
  }

  lemma {:induction false} WrittenAlike(ctx: Ctx, slots: seq<Slot>, ts: seq<TensorArg>, written: bool)
    requires |slots| == |ts|
    requires forall k :: 0 <= k < |slots| ==> slots[k].t == ts[k] && (ctx.Writes(slots[k]) <==> written && ts[k].hpu)
    ensures SlotTensors(WrittenSlots(ctx, slots)) == if written then DeviceTensors(ts) else []
    decreases |slots|
  {
    if slots != [] {
      var rest, more := slots[1..], ts[1..];
      var first := if ctx.Writes(slots[0]) then [slots[0]] else [];
      WrittenAlike(ctx, rest, more, written);
      TensorsConcat(first, WrittenSlots(ctx, rest));
      FirstWritten(ctx, slots, rest, first);
      FirstDevice(ts, more, if ts[0].hpu then [ts[0]] else []);
      assert SlotTensors(first) == if written && ts[0].hpu then [ts[0]] else [];
    }
  }

  lemma FirstWritten(ctx: Ctx, slots: seq<Slot>, rest: seq<Slot>, first: seq<Slot>)
    requires slots != [] && rest == slots[1..] && first == if ctx.Writes(slots[0]) then [slots[0]] else []
    ensures WrittenSlots(ctx, slots) == first + WrittenSlots(ctx, rest)
  {
  }

  lemma FirstDevice(ts: seq<TensorArg>, more: seq<TensorArg>, first: seq<TensorArg>)
    requires ts != [] && more == ts[1..] && first == if ts[0].hpu then [ts[0]] else []
    ensures DeviceTensors(ts) == first + DeviceTensors(more)
  {
  }

  lemma TensorsConcat(a: seq<Slot>, b: seq<Slot>)
    ensures SlotTensors(a + b) == SlotTensors(a) + SlotTensors(b)
  {
  }

  lemma {:induction false} WrittenFrom(op: OpInfo, ctx: Ctx, total: nat, args: seq<Arg>, i: nat, n: Id)
    requires ctx.op == op && ctx.numInputs == total
    ensures SlotTensors(WrittenSlots(ctx, Slots(args, i, n, ctx.opId))) == EagerWrites(op, total, args, i)
    decreases |args|
  {
    if args != [] {
      var rest, m := args[1..], n + Width(args[0]);
      var first, later := ArgSlots(args[0], i, n, ctx.opId), Slots(rest, i + 1, m, ctx.opId);
      SlotsOfCons(args, rest, i, n, m, ctx.opId);
      WrittenConcat(ctx, first, later);
      TensorsConcat(WrittenSlots(ctx, first), WrittenSlots(ctx, later));
      WrittenOfArgument(op, ctx, total, first, TensorsOf(args[0]), i);
      WrittenFrom(op, ctx, total, rest, i + 1, m);
    }
  }

  /** The tensors the pass takes outputs for are those the eager call writes, in its order. */
  lemma WrittenAsEager(op: OpInfo, args: seq<Arg>)
    ensures SlotTensors(WrittenSlots(Context(op, args), AllSlots(args))) == EagerWrites(op, |args|, args, 0)
  {
    WrittenFrom(op, Context(op, args), |args|, args, 0, 0);
  }

  // --- the views that are read ---

  function CountViews(nodes: seq<Node>, meta: bool): nat {
    if nodes == [] then 0 else (if nodes[0].kind == AsStrided(meta) then 1 else 0) + CountViews(nodes[1..], meta)
  }

  lemma {:induction false} ViewsConcat(a: seq<Node>, b: seq<Node>, meta: bool)
    ensures CountViews(a + b, meta) == CountViews(a, meta) + CountViews(b, meta)
    decreases |a|
  {
    if a == [] {
      assert a + b == b;
    } else {
      var rest := a[1..];
      assert (a + b)[1..] == rest + b;
      ViewsConcat(rest, b, meta);
    }
  }

  predicate SameViewKind(a: Kind, b: Kind) { a == b || (!a.AsStrided? && !b.AsStrided?) }

  lemma {:induction false} ViewsAlike(a: seq<Node>, b: seq<Node>, meta: bool)
    requires |a| == |b| && forall i :: 0 <= i < |a| ==> SameViewKind(a[i].kind, b[i].kind)
    ensures CountViews(a, meta) == CountViews(b, meta)
    decreases |a|
  {
    if a != [] { ViewsAlike(a[1..], b[1..], meta); }
  }

  lemma {:induction false} NoViews(nodes: seq<Node>, meta: bool)
    requires forall i :: 0 <= i < |nodes| ==> !nodes[i].kind.AsStrided?
    ensures CountViews(nodes, meta) == 0
    decreases |nodes|
  {
    if nodes != [] { NoViews(nodes[1..], meta); }
  }

  /** An edit adds the views of its block. */
  lemma EditViews(g: Graph, e: Edit, meta: bool)
    requires e.p <= |g.nodes|
    ensures CountViews(e.Apply(g).nodes, meta) == CountViews(g.nodes, meta) + CountViews(e.block, meta)
  {
    var before, after := g.nodes[..e.p], g.nodes[e.p..];
    assert g.nodes == before + after;
    ViewsConcat(before, after, meta);
    ViewsConcat(before + e.block, RenameNodes(after, e.v, e.w), meta);
    ViewsConcat(before, e.block, meta);
    ViewsAlike(RenameNodes(after, e.v, e.w), after, meta);
  }

  lemma BlockViews(n: Id, v: Id, out: Id, view: View, isMeta: bool, dtype: nat, meta: bool)
    ensures CountViews(ViewBlock(n, v, view, isMeta), meta) == if isMeta == meta then 1 else 0
    ensures CountViews(InsertBlock(n, v, out, view), meta) == 0
    ensures CountViews(CastBlock(n, out, dtype), meta) == 0
  {
    var b := ViewBlock(n, v, view, isMeta);
    assert b == b[..3] + [b[3]];
    NoViews(b[..3], meta);
    ViewsConcat(b[..3], [b[3]], meta);
    assert [b[3]][1..] == [];
    NoViews(InsertBlock(n, v, out, view), meta);
    NoViews(CastBlock(n, out, dtype), meta);
  }

  predicate ReadHere(ctx: Ctx, s: Slot, meta: bool) { ctx.Reads(s) && ctx.MetaOnly(s) == meta }

  lemma SlotViews(ctx: Ctx, st: State, s: Slot, meta: bool)
    requires HasNode(st.g.nodes, s.reader) && HasNode(st.g.nodes, ctx.opId)
    requires ctx.Writes(s) ==> st.outIdx < |NodeAt(st.g, ctx.opId).outputs|
    ensures CountViews(HandleSlot(ctx, st, s).g.nodes, meta) == CountViews(st.g.nodes, meta) + if ReadHere(ctx, s, meta) then 1 else 0
  {
    if s.t.hpu && s.t.IsView() {
      var outs := NodeAt(st.g, ctx.opId).outputs;
      var st1 := if ctx.Reads(s) then LowerRead(ctx, st, s) else st;
      BlockViews(st.g.next, s.v, 0, s.t.view, ctx.MetaOnly(s), 0, meta);
      if ctx.Reads(s) {
        EditViews(st.g, ViewEdit(st.g, NodeIndex(st.g.nodes, s.reader), s.v, s.t.view, ctx.MetaOnly(s)), meta);
      }
      if ctx.Writes(s) {
        WriteViews(ctx, st1, s, outs[st.outIdx], outs[0], meta);
      }
    }
  }

  lemma WriteViews(ctx: Ctx, st: State, s: Slot, out: Id, out0: Id, meta: bool)
    ensures CountViews(LowerWrite(ctx, st, s, out, out0).g.nodes, meta) == CountViews(st.g.nodes, meta)
  {
    var g := AddInsert(st.g, s.v, out, s.t.view);
    BlockViews(st.g.next, s.v, out, s.t.view, false, s.t.dtype, meta);
    EditViews(st.g, InsertEdit(st.g, s.v, out, s.t.view), meta);
    if ctx.op.needsCast {
      BlockViews(g.next, 0, out0, s.t.view, false, s.t.dtype, meta);
      EditViews(g, CastEdit(g, out0, s.t.dtype), meta);
    }
  }

  function CountReads(ctx: Ctx, slots: seq<Slot>, meta: bool): nat {
    if slots == [] then 0 else (if ReadHere(ctx, slots[0], meta) then 1 else 0) + CountReads(ctx, slots[1..], meta)
  }

  lemma {:induction false} LowerViews(ctx: Ctx, st: State, outs: seq<Id>, slots: seq<Slot>, meta: bool)
    requires Ready(ctx, st, outs, slots)
    ensures CountViews(Lower(ctx, st, outs, slots).g.nodes, meta) == CountViews(st.g.nodes, meta) + CountReads(ctx, slots, meta)
    decreases |slots|
  {
    if slots != [] {
      var s, rest := slots[0], slots[1..];
      ReadyStep(ctx, st, outs, slots);
      OthersDiffer(ctx, st, outs, slots);
      var next := HandleSlot(ctx, st, s);
      SlotViews(ctx, st, s, meta);
      LowerViews(ctx, next, outs, rest, meta);
    }
  }

  lemma {:induction false} ReadsConcat(ctx: Ctx, a: seq<Slot>, b: seq<Slot>, meta: bool)
    ensures CountReads(ctx, a + b, meta) == CountReads(ctx, a, meta) + CountReads(ctx, b, meta)
    decreases |a|
  {
    if a == [] {
      assert a + b == b;
    } else {
      var rest := a[1..];
      assert (a + b)[1..] == rest + b;
      ReadsConcat(ctx, rest, b, meta);
    }
  }

  function CountLowered(ts: seq<TensorArg>): nat {
    if ts == [] then 0 else (if ts[0].hpu && Lowered(ts[0]) then 1 else 0) + CountLowered(ts[1..])
  }

  /** The lowered tensors a call reads: all but a lone out. Of an op that ignores its first argument those are
      read for their metadata only, all the others for their elements. */
  function ViewReads(op: OpInfo, n: nat, args: seq<Arg>, i: nat, meta: bool): nat
    decreases |args|
  {
    if args == [] then 0
    else (if (!OutPosition(op, n, i) || op.numOut > 1) && meta == (op.ignoresInput && i == 0) then CountLowered(TensorsOf(args[0])) else 0)
         + ViewReads(op, n, args[1..], i + 1, meta)
  }

  lemma {:induction false} ReadsOfArgument(op: OpInfo, ctx: Ctx, n: nat, slots: seq<Slot>, ts: seq<TensorArg>, i: nat, meta: bool)
    requires ctx.op == op && ctx.numInputs == n && |slots| == |ts|
    requires forall k :: 0 <= k < |slots| ==> slots[k].t == ts[k] && slots[k].argIdx == i
    ensures CountReads(ctx, slots, meta)
            == if (!OutPosition(op, n, i) || op.numOut > 1) && meta == (op.ignoresInput && i == 0) then CountLowered(ts) else 0
    decreases |slots|
  {
    if slots != [] { ReadsOfArgument(op, ctx, n, slots[1..], ts[1..], i, meta); }
  }

  lemma {:induction false} ReadsFrom(op: OpInfo, ctx: Ctx, total: nat, args: seq<Arg>, i: nat, n: Id, meta: bool)
    requires ctx.op == op && ctx.numInputs == total
    ensures CountReads(ctx, Slots(args, i, n, ctx.opId), meta) == ViewReads(op, total, args, i, meta)
    decreases |args|
  {
    if args != [] {
      var rest, m := args[1..], n + Width(args[0]);
      var first, later := ArgSlots(args[0], i, n, ctx.opId), Slots(rest, i + 1, m, ctx.opId);
      SlotsOfCons(args, rest, i, n, m, ctx.opId);
      ReadsConcat(ctx, first, later, meta);
      ReadsOfArgument(op, ctx, total, first, TensorsOf(args[0]), i, meta);
      ReadsFrom(op, ctx, total, rest, i + 1, m, meta);
    }
  }

  /** The lowered graph has one as_strided for every lowered tensor the call reads, and it is for metadata only
      exactly where the op ignores the elements. */
  lemma ViewsDecided(op: OpInfo, args: seq<Arg>, m: nat, params: ParamMap, meta: bool)
    requires Accepted(op, args, m)
    ensures CountViews(LoweredGraph(op, args, m, params).nodes, meta) == ViewReads(op, |args|, args, 0, meta)
  {
    var ctx, built := Context(op, args), Created(op.symbol, args, m);
    CreatedReady(op, args, m, params);
    LowerViews(ctx, InitialState(built, params), Range(TotalWidth(args) + 1, m), AllSlots(args), meta);
    CreatedViews(op.symbol, args, m, meta);
    ReadsFrom(op, ctx, |args|, args, 0, 0, meta);
    var g := LoweredState(op, args, m, params).g;
    LoweredIntact(op, args, m, params);
    forall i | 0 <= i < |g.nodes| ensures SameViewKind(Replaced(ctx, g).nodes[i].kind, g.nodes[i].kind) {
      assert NodeIntact(ctx, g.nodes[i]);
    }
    ViewsAlike(Replaced(ctx, g).nodes, g.nodes, meta);
  }

  lemma CreatedViews(symbol: string, args: seq<Arg>, m: nat, meta: bool)
    ensures CountViews(Created(symbol, args, m).nodes, meta) == 0
  {
    PrologueViews(args, 0, meta);
    ViewsConcat(Nodes(args, 0), [OpNode(symbol, args, m)], meta);
    NoViews([OpNode(symbol, args, m)], meta);
  }

  lemma {:induction false} PrologueViews(args: seq<Arg>, n: Id, meta: bool)
    ensures CountViews(Nodes(args, n), meta) == 0
    decreases |args|
  {
    if args != [] {
      var m := n + Width(args[0]);
      PrologueViews(args[1..], m, meta);
      NoViews(ArgNodes(args[0], n), meta);
      ViewsConcat(ArgNodes(args[0], n), Nodes(args[1..], m), meta);
    }
  }
}
