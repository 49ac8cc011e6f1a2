/**
 The view-lowering pass of eager_view.cpp: a one-op graph over views becomes a graph
 over base buffers, with as_strided on the reads, strided_insert on the writes, and
 the in-place op replaced by its out-of-place twin.
 */
module ViewLowering {
  import opened IndexSpace
  import opened StridedViews
  import opened JitGraph

  /** The parts of a tensor the eager passes look at. */
  datatype TensorArg = TensorArg(storage: nat, view: View, dtype: nat, viewLowering: bool, contiguous: bool, hpu: bool) {
    /** The decision "lower this tensor as a view of its base". */
    predicate IsView() { viewLowering || !contiguous }
  }

  datatype OpKind = OutOfPlace | InplaceOut | Inplace | UnknownType

  /** An op as the view pass uses it (see DescribeOp). */
  datatype OpInfo = OpInfo(
    symbol: string, kind: OpKind, outIndices: set<nat>, numOut: nat,
    ignoresInput: bool, needsCast: bool, twin: string)

  const IGNORE_INPUT_OPS: set<string> := {
    "aten::zero_", "aten::_foreach_zero_", "aten::fill_", "hpu::bernoulli_", "hpu::uniform_",
    "hpu::random_", "hpu::normal_", "hpu::geometric_", "hpu::log_normal_", "hpu::exponential_" }

  const CAST_OPS: set<string> := {
    "aten::eq", "aten::ne", "aten::ge", "aten::le", "aten::gt", "aten::lt",
    "aten::logical_and", "aten::logical_or", "aten::logical_xor", "aten::logical_not",
    "aten::add", "aten::sub", "aten::mul", "aten::div", "aten::remainder", "aten::floor_divide_",
    "aten::clamp", "aten::clamp_max", "aten::clamp_min", "aten::xlogy", "aten::cumprod", "aten::cumsum" }

  const HPU_SCHEMA_OPS: set<string> := { "hpu::index", "hpu::rrelu_with_noise", "hpu::rrelu_with_noise_" }

  /** What an op's constructor passes along (EagerOpMetaData). */
  datatype OpMeta = OpMeta(kind: OpKind, opName: string, unqualifiedName: string, outIndices: set<nat>, numOut: nat)

  /** The op as the pass sees it: its metadata, what the tables say about its symbol, and the
      out-of-place name, moved to the hpu namespace where the schemas differ. */
  function DescribeOp(symbol: string, meta: OpMeta): OpInfo {
    OpInfo(symbol, meta.kind, meta.outIndices, meta.numOut, symbol in IGNORE_INPUT_OPS, symbol in CAST_OPS,
           if symbol in HPU_SCHEMA_OPS then "hpu::" + meta.unqualifiedName else meta.opName)
  }

  /** One tensor of the argument list: which node reads it, at which input, and under which value. */
  datatype Slot = Slot(t: TensorArg, reader: Id, readerIdx: nat, argIdx: nat, v: Id)

  datatype ParamType = METADATA | VIEW_SIZES | VIEW_STRIDES | VIEW_OFFSET
  datatype Param = Param(kind: ParamType, argIdx: nat, subIdx: nat)
  type ParamMap = map<Id, Param>

  datatype State = State(g: Graph, views: nat, inserts: nat, ordinary: nat, outIdx: nat, params: ParamMap)

  datatype Ctx = Ctx(op: OpInfo, opId: Id, numInputs: nat) {
    predicate IsOut(s: Slot) { s.argIdx + op.numOut >= numInputs }
    predicate InplaceInput(s: Slot) { !IsOut(s) && op.kind == Inplace && s.argIdx in op.outIndices }
    predicate Writes(s: Slot) { s.t.hpu && (IsOut(s) || InplaceInput(s)) }
    /** The op reads a lowered view, not the base: a lone out argument is skipped. */
    predicate Reads(s: Slot) { s.t.hpu && s.t.IsView() && (!IsOut(s) || op.numOut > 1) }
    predicate Inserts(s: Slot) { Writes(s) && s.t.IsView() }
    predicate MetaOnly(s: Slot) { op.ignoresInput && s.argIdx == 0 }
  }

  function ViewBlock(n: Id, v: Id, view: View, meta: bool): seq<Node> {
    [Node(n, Constant(IntList(view.sizes)), [], [n]),
     Node(n + 1, Constant(IntList(view.strides)), [], [n + 1]),
     Node(n + 2, Constant(Int(view.offset)), [], [n + 2]),
     Node(n + 3, AsStrided(meta), [v, n, n + 1, n + 2], [n + 3])]
  }

  function InsertBlock(n: Id, v: Id, out: Id, view: View): seq<Node> {
    [Node(n, Constant(IntList(view.strides)), [], [n]),
     Node(n + 1, Constant(Int(view.offset)), [], [n + 1]),
     Node(n + 2, StridedInsert, [v, out, n, n + 1], [n + 2])]
  }

  function CastBlock(n: Id, out: Id, dtype: nat): seq<Node> {
    [Node(n, Constant(Int(dtype)), [], [n]),
     Node(n + 1, Constant(IValue.None), [], [n + 1]),
     Node(n + 2, Constant(Bool(false)), [], [n + 2]),
     Node(n + 3, ToCopy, [out, n, n + 1, n + 1, n + 1, n + 2, n + 1], [n + 3])]
  }

  /** Node i of a block defines exactly the i-th new name and reads new names and the given old ones. */
  ghost predicate NumberedBlock(block: seq<Node>, n: Id, olds: set<Id>) {
    forall i :: 0 <= i < |block| ==>
      block[i].id == n + i && block[i].outputs == [n + i]
      && forall k :: 0 <= k < |block[i].inputs| ==>
           block[i].inputs[k] in olds || n <= block[i].inputs[k] < n + |block|
  }

  /** An edit of the graph: a numbered block before position p, and v's later uses moved to w. */
  datatype Edit = Edit(p: nat, block: seq<Node>, v: Id, w: Id) {
    function Apply(g: Graph): Graph
      requires p <= |g.nodes|
    {
      Redirect(g, p, block, v, w, g.next + |block|)
    }

    /** The edit reads no value but those in olds, and names only new ones. */
    ghost predicate Fits(g: Graph, olds: set<Id>) {
      && p <= |g.nodes| && NumberedBlock(block, g.next, olds)
      && (forall u :: u in olds ==> u < g.next) && g.next <= w < g.next + |block|
    }
  }

  function ViewEdit(g: Graph, p: nat, v: Id, view: View, meta: bool): Edit {
    Edit(p, ViewBlock(g.next, v, view, meta), v, g.next + 3)
  }

  function InsertEdit(g: Graph, v: Id, out: Id, view: View): Edit {
    Edit(|g.nodes|, InsertBlock(g.next, v, out, view), out, g.next + 2)
  }

  function CastEdit(g: Graph, out0: Id, dtype: nat): Edit
    requires g.nodes != []
  {
    Edit(|g.nodes| - 1, CastBlock(g.next, out0, dtype), out0, g.next + 3)
  }

  /** insert_strided_view_node: before the reader of v, and every later use of v reads the view. */
  ghost function AddView(g: Graph, reader: Id, v: Id, view: View, meta: bool): Graph
    requires HasNode(g.nodes, reader)
  {
    ViewEdit(g, NodeIndex(g.nodes, reader), v, view, meta).Apply(g)
  }

  /** insert_strided_insert_node: at the end of the graph, where only the graph outputs follow. */
  ghost function AddInsert(g: Graph, v: Id, out: Id, view: View): Graph {
    InsertEdit(g, v, out, view).Apply(g)
  }

  /** insert_cast_node: before the strided_insert just appended, on the op's output 0. */
  ghost function AddCast(g: Graph, out0: Id, dtype: nat): Graph
    requires g.nodes != []
  {
    CastEdit(g, out0, dtype).Apply(g)
  }

  function ViewParams(m: ParamMap, n: Id, s: Slot): ParamMap {
    m[n := Param(VIEW_SIZES, s.argIdx, s.readerIdx)]
     [n + 1 := Param(VIEW_STRIDES, s.argIdx, s.readerIdx)]
     [n + 2 := Param(VIEW_OFFSET, s.argIdx, s.readerIdx)]
  }

  function InsertParams(m: ParamMap, n: Id, s: Slot): ParamMap {
    m[n := Param(VIEW_STRIDES, s.argIdx, s.readerIdx)][n + 1 := Param(VIEW_OFFSET, s.argIdx, s.readerIdx)]
  }

  // --- what holds between two steps of the pass ---

  function CountWrites(ctx: Ctx, slots: seq<Slot>): nat {
    if slots == [] then 0 else (if ctx.Writes(slots[0]) then 1 else 0) + CountWrites(ctx, slots[1..])
  }

  ghost predicate SlotReady(g: Graph, s: Slot) {
    && HasNode(g.nodes, s.reader)
    && s.readerIdx < |NodeAt(g, s.reader).inputs|
    && NodeAt(g, s.reader).inputs[s.readerIdx] == s.v
    && s.v in g.inputs && s.v !in g.outputs
    && OnlyUsedBy(g.nodes, s.v, s.reader)
  }

  /** The op node is intact and the graph outputs from number `from` on are still its own. */
  ghost predicate GraphReady(ctx: Ctx, g: Graph, outs: seq<Id>, from: nat) {
    && WellFormed(g)
    && HasNode(g.nodes, ctx.opId) && NodeAt(g, ctx.opId).outputs == outs
    && Distinct(outs) && Distinct(g.outputs) && |g.outputs| == |outs|
    && (forall k :: from <= k < |outs| ==> g.outputs[k] == outs[k])
  }

  ghost predicate Ready(ctx: Ctx, st: State, outs: seq<Id>, slots: seq<Slot>) {
    && GraphReady(ctx, st.g, outs, st.outIdx)
    && st.outIdx + CountWrites(ctx, slots) <= |outs|
    && (ctx.op.needsCast ==> |outs| == 1)
    && (forall i :: 0 <= i < |slots| ==> SlotReady(st.g, slots[i]))
    && (forall i, j :: 0 <= i < j < |slots| ==> slots[i].v != slots[j].v)
  }

  /** HandleInputOutputView for one tensor. */
  ghost function HandleSlot(ctx: Ctx, st: State, s: Slot): State
    requires HasNode(st.g.nodes, s.reader) && HasNode(st.g.nodes, ctx.opId)
    requires ctx.Writes(s) ==> st.outIdx < |NodeAt(st.g, ctx.opId).outputs|
  {
    var counted := st.outIdx + if ctx.Writes(s) then 1 else 0;
    if !s.t.hpu then st
    else if !s.t.IsView() then
      st.(ordinary := st.ordinary + if ctx.InplaceInput(s) then 1 else 0, outIdx := counted)
    else
      var outs := NodeAt(st.g, ctx.opId).outputs;
      var st1 := if ctx.Reads(s) then LowerRead(ctx, st, s) else st;
      var st2 := if ctx.Writes(s) then LowerWrite(ctx, st1, s, outs[st.outIdx], outs[0]) else st1;
      st2.(outIdx := counted)
  }

  ghost function LowerRead(ctx: Ctx, st: State, s: Slot): State
    requires HasNode(st.g.nodes, s.reader)
  {
    st.(g := AddView(st.g, s.reader, s.v, s.t.view, ctx.MetaOnly(s)),
        views := st.views + 1,
        params := ViewParams(st.params, st.g.next, s))
  }

  ghost function LowerWrite(ctx: Ctx, st: State, s: Slot, out: Id, out0: Id): State {
    var inserted := AddInsert(st.g, s.v, out, s.t.view);
    assert inserted.nodes[|inserted.nodes| - 1] == InsertBlock(st.g.next, s.v, out, s.t.view)[2];
    st.(g := if ctx.op.needsCast then AddCast(inserted, out0, s.t.dtype) else inserted,
        inserts := st.inserts + 1,
        params := InsertParams(st.params, st.g.next, s))
  }

  // --- each edit keeps the pass ready for the remaining tensors ---

  lemma NumberedIsFresh(block: seq<Node>, n: Id, olds: set<Id>)
    requires NumberedBlock(block, n, olds) && forall u :: u in olds ==> u < n
    ensures FreshBlock(block, n, n + |block|)
    ensures forall u: Id :: u < n && u !in olds ==> NeverUses(block, u)
    ensures forall u: Id :: u < n ==> NeverDefines(block, u)
  {
    forall i | 0 <= i < |block| ensures NodeBelow(block[i], n + |block|) {
      forall k | 0 <= k < |block[i].inputs| ensures block[i].inputs[k] < n + |block| {}
    }
    forall u: Id, i | u < n && u !in olds && 0 <= i < |block| ensures u !in block[i].inputs {
      forall k | 0 <= k < |block[i].inputs| ensures block[i].inputs[k] != u {}
    }
  }

  lemma ViewBlockNumbered(n: Id, v: Id, view: View, meta: bool)
    ensures NumberedBlock(ViewBlock(n, v, view, meta), n, {v})
  {
  }

  lemma InsertBlockNumbered(n: Id, v: Id, out: Id, view: View)
    ensures NumberedBlock(InsertBlock(n, v, out, view), n, {v, out})
  {
  }

  lemma CastBlockNumbered(n: Id, out: Id, dtype: nat)
    ensures NumberedBlock(CastBlock(n, out, dtype), n, {out})
  {
  }

  /** What one edit keeps: well-formedness, and the op node. */
  ghost predicate SameNode(g: Graph, r: Graph, id: Id) {
    HasNode(g.nodes, id) ==>
      && HasNode(r.nodes, id) && NodeAt(r, id).kind == NodeAt(g, id).kind
      && NodeAt(r, id).outputs == NodeAt(g, id).outputs
      && |NodeAt(r, id).inputs| == |NodeAt(g, id).inputs|
  }

  /** A block numbered from the counter, inserted anywhere, keeps the graph well-formed and
      every node and tensor slot that it does not itself read. */
  lemma NumberedRedirect(g: Graph, p: nat, block: seq<Node>, olds: set<Id>, v: Id, w: Id)
    requires WellFormed(g) && p <= |g.nodes| && NumberedBlock(block, g.next, olds)
    requires (forall u :: u in olds ==> u < g.next) && g.next <= w < g.next + |block|
    ensures WellFormed(Redirect(g, p, block, v, w, g.next + |block|))
  {
    NumberedIsFresh(block, g.next, olds);
    RedirectWellFormed(g, p, block, v, w, g.next + |block|);
  }

  lemma NumberedRedirectNode(g: Graph, p: nat, block: seq<Node>, olds: set<Id>, v: Id, w: Id, id: Id)
    requires WellFormed(g) && p <= |g.nodes| && NumberedBlock(block, g.next, olds)
    requires (forall u :: u in olds ==> u < g.next) && g.next <= w < g.next + |block|
    ensures SameNode(g, Redirect(g, p, block, v, w, g.next + |block|), id)
  {
    NumberedIsFresh(block, g.next, olds);
    if HasNode(g.nodes, id) {
      RedirectKeepsNode(g, p, block, v, w, g.next + |block|, id);
    }
  }

  lemma NumberedRedirectSlot(g: Graph, p: nat, block: seq<Node>, olds: set<Id>, v: Id, w: Id, s: Slot)
    requires WellFormed(g) && p <= |g.nodes| && NumberedBlock(block, g.next, olds)
    requires (forall u :: u in olds ==> u < g.next) && g.next <= w < g.next + |block|
    requires SlotReady(g, s) && s.v !in olds && s.v != v
    ensures SlotReady(Redirect(g, p, block, v, w, g.next + |block|), s)
  {
    NumberedIsFresh(block, g.next, olds);
    RedirectKeepsNode(g, p, block, v, w, g.next + |block|, s.reader);
    RedirectKeepsReader(g, p, block, v, w, g.next + |block|, s.v, s.reader);
  }

  // --- what the inserted blocks compute ---

  function SizesOf(view: View): Value { Const(IntList(view.sizes)) }
  function StridesOf(view: View): Value { Const(IntList(view.strides)) }
  function OffsetOf(view: View): Value { Const(Int(view.offset)) }

  lemma StepOne(sem: Sem, n: Node, env: Env)
    requires |n.outputs| == 1
    ensures var vals := EvalNode(sem, n.kind, Args(env, n.inputs));
            forall x: Id :: Lookup(Step(sem, n, env), x) ==
              if x != n.outputs[0] then Lookup(env, x) else if |vals| > 0 then vals[0] else Absent
  {
    assert n.outputs == [n.outputs[0]];
  }

  lemma EvalCons(sem: Sem, n: Node, rest: seq<Node>, env: Env)
    ensures Eval(sem, [n] + rest, env) == Eval(sem, rest, Step(sem, n, env))
  {
    assert ([n] + rest)[1..] == rest;
  }

  function ConstantNodes(n: Id, cs: seq<IValue>): (r: seq<Node>)
    ensures |r| == |cs|
  {
    seq(|cs|, i requires 0 <= i < |cs| => Node(n + i, Constant(cs[i]), [], [n + i]))
  }

  lemma {:induction false} ConstantAt(sem: Sem, n: Id, cs: seq<IValue>, env: Env, x: Id)
    ensures Lookup(Eval(sem, ConstantNodes(n, cs), env), x) == if n <= x < n + |cs| then Const(cs[x - n]) else Lookup(env, x)
    decreases |cs|
  {
    if cs != [] {
      var b := ConstantNodes(n, cs);
      StepOne(sem, b[0], env);
      assert b[1..] == ConstantNodes(n + 1, cs[1..]);
      ConstantAt(sem, n + 1, cs[1..], Step(sem, b[0], env), x);
    }
  }

  lemma EvalConstants(sem: Sem, n: Id, cs: seq<IValue>, env: Env)
    ensures var e := Eval(sem, ConstantNodes(n, cs), env);
            forall x: Id :: Lookup(e, x) == if n <= x < n + |cs| then Const(cs[x - n]) else Lookup(env, x)
  {
    var e := Eval(sem, ConstantNodes(n, cs), env);
    forall x: Id ensures Lookup(e, x) == if n <= x < n + |cs| then Const(cs[x - n]) else Lookup(env, x) {
      ConstantAt(sem, n, cs, env, x);
    }
  }

  /** A block of constants and a node behind them: what the node finds, and what it leaves. */
  lemma BlockValue(sem: Sem, n: Id, cs: seq<IValue>, last: Node, env: Env) returns (e: Env, vals: seq<Value>)
    requires |last.outputs| == 1
    ensures forall x: Id :: Lookup(e, x) == if n <= x < n + |cs| then Const(cs[x - n]) else Lookup(env, x)
    ensures vals == EvalNode(sem, last.kind, Args(e, last.inputs))
    ensures Lookup(Eval(sem, ConstantNodes(n, cs) + [last], env), last.outputs[0]) == if |vals| > 0 then vals[0] else Absent
  {
    e := Eval(sem, ConstantNodes(n, cs), env);
    vals := EvalNode(sem, last.kind, Args(e, last.inputs));
    EvalConstants(sem, n, cs, env);
    EvalConcat(sem, ConstantNodes(n, cs), [last], env);
    StepOne(sem, last, e);
    EvalCons(sem, last, [], e);
    assert [last] + [] == [last];
  }

  lemma ViewBlockValue(sem: Sem, n: Id, v: Id, view: View, meta: bool, env: Env)
    requires v < n
    ensures Lookup(Eval(sem, ViewBlock(n, v, view, meta), env), n + 3)
            == sem.view(meta, Lookup(env, v), SizesOf(view), StridesOf(view), OffsetOf(view))
  {
    var b := ViewBlock(n, v, view, meta);
    var cs := [IntList(view.sizes), IntList(view.strides), Int(view.offset)];
    assert b == ConstantNodes(n, cs) + [b[3]];
    var e, vals := BlockValue(sem, n, cs, b[3], env);
    assert Args(e, b[3].inputs) == [Lookup(env, v), SizesOf(view), StridesOf(view), OffsetOf(view)];
  }

  lemma InsertBlockValue(sem: Sem, n: Id, v: Id, out: Id, view: View, env: Env)
    requires v < n && out < n
    ensures Lookup(Eval(sem, InsertBlock(n, v, out, view), env), n + 2)
            == sem.insert(Lookup(env, v), Lookup(env, out), StridesOf(view), OffsetOf(view))
  {
    var b := InsertBlock(n, v, out, view);
    var cs := [IntList(view.strides), Int(view.offset)];
    assert b == ConstantNodes(n, cs) + [b[2]];
    var e, vals := BlockValue(sem, n, cs, b[2], env);
    assert Args(e, b[2].inputs) == [Lookup(env, v), Lookup(env, out), StridesOf(view), OffsetOf(view)];
  }

  lemma CastBlockValue(sem: Sem, n: Id, out: Id, dtype: nat, env: Env)
    requires out < n
    ensures Lookup(Eval(sem, CastBlock(n, out, dtype), env), n + 3) == sem.cast(dtype, Lookup(env, out))
  {
    var b := CastBlock(n, out, dtype);
    var cs := [Int(dtype), IValue.None, Bool(false)];
    assert b == ConstantNodes(n, cs) + [b[3]];
    var e, vals := BlockValue(sem, n, cs, b[3], env);
    var a := Args(e, b[3].inputs);
    assert a[0] == Lookup(env, out) && a[1] == Const(Int(dtype));
  }

  // --- what one edit does to the graph's meaning ---

  /** Lowering a read: the graph now sees the view where it saw the base. */
  lemma AddViewMeaning(sem: Sem, g: Graph, s: Slot, meta: bool, env: Env)
    requires WellFormed(g) && SlotReady(g, s)
    ensures Run(sem, AddView(g, s.reader, s.v, s.t.view, meta), env)
            == Run(sem, g, env[s.v := sem.view(meta, Lookup(env, s.v),
                                             SizesOf(s.t.view), StridesOf(s.t.view), OffsetOf(s.t.view))])
  {
    var p, v := NodeIndex(g.nodes, s.reader), s.v;
    var e1 := Eval(sem, g.nodes[..p], env);
    UnreadBefore(g, p, v);
    EvalKeeps(sem, g.nodes[..p], env, v);
    ViewBlockValue(sem, g.next, v, s.t.view, meta, e1);
    ViewEditFits(g, p, v, s.t.view, meta);
    EditInputMeaning(sem, g, ViewEdit(g, p, v, s.t.view, meta), {v}, env,
                     sem.view(meta, Lookup(env, v), SizesOf(s.t.view), StridesOf(s.t.view), OffsetOf(s.t.view)));
  }

  /** An input with one reader is neither read nor defined before it. */
  lemma UnreadBefore(g: Graph, p: nat, v: Id)
    requires WellFormed(g) && p < |g.nodes| && v in g.inputs && OnlyUsedBy(g.nodes, v, g.nodes[p].id)
    ensures NeverUses(g.nodes[..p], v) && NeverDefines(g.nodes[..p], v) && v < g.next
  {
    InputNeverDefined(g, p, v);
    forall i | 0 <= i < p ensures v !in g.nodes[..p][i].inputs {
      assert g.nodes[i].id != g.nodes[p].id;
    }
  }

  /** Appending an insert: output k becomes the base with the view's positions replaced. */
  lemma AddInsertMeaning(sem: Sem, g: Graph, v: Id, k: nat, view: View, env: Env)
    requires WellFormed(g) && v in g.inputs && k < |g.outputs| && Distinct(g.outputs)
    ensures var outs := Run(sem, g, env);
            Run(sem, AddInsert(g, v, g.outputs[k], view), env)
            == outs[k := sem.insert(Lookup(env, v), outs[k], StridesOf(view), OffsetOf(view))]
  {
    var n, out := g.next, g.outputs[k];
    var e1 := Eval(sem, g.nodes, env);
    assert v < n && out < n;
    EvalKeeps(sem, g.nodes, env, v);
    assert g.nodes[..|g.nodes|] == g.nodes && g.nodes[|g.nodes|..] == [];
    InsertBlockValue(sem, n, v, out, view, e1);
    InsertEditFits(g, v, out, view);
    var x := sem.insert(Lookup(env, v), Lookup(e1, out), StridesOf(view), OffsetOf(view));
    EditMeaning(sem, g, InsertEdit(g, v, out, view), {v, out}, env, x);
    ArgsOverride(e1, g.outputs, k, x);
  }

  lemma ArgsOverride(env: Env, ids: seq<Id>, k: nat, x: Value)
    requires k < |ids| && Distinct(ids)
    ensures Args(env[ids[k] := x], ids) == Args(env, ids)[k := x]
  {
  }

  /** Appending an insert of the cast of output 0. */
  lemma AddCastedInsertMeaning(sem: Sem, g: Graph, v: Id, out: Id, view: View, dtype: nat, env: Env)
    requires WellFormed(g) && v in g.inputs && g.outputs == [out] && out !in g.inputs
    ensures var r := AddInsert(g, v, out, view);
            r.nodes != []
            && Run(sem, AddCast(r, out, dtype), env)
               == [sem.insert(Lookup(env, v), sem.cast(dtype, Run(sem, g, env)[0]), StridesOf(view), OffsetOf(view))]
  {
    var r := AddInsert(g, v, out, view);
    var si := InsertShape(g, r, v, out, view);
    var e := Eval(sem, r.nodes[..|r.nodes| - 1], env);
    BeforeInsert(sem, g, r, v, out, view, env, e);
    CastRedirect(sem, r, si, out, dtype, e, env);
    InsertsCast(sem, si, e, out, sem.cast(dtype, Lookup(e, out)));
  }

  /** An insert whose second input has been replaced. */
  lemma InsertsCast(sem: Sem, si: Node, e: Env, out: Id, x: Value)
    requires si.kind.StridedInsert? && |si.inputs| == 4 && |si.outputs| == 1 && si.inputs[1] == out
    requires si.inputs[0] != out && si.inputs[2] != out && si.inputs[3] != out
    ensures Args(Eval(sem, [si], e[out := x]), si.outputs)
            == [sem.insert(Lookup(e, si.inputs[0]), x, Lookup(e, si.inputs[2]), Lookup(e, si.inputs[3]))]
  {
    LastInsertValue(sem, si, e[out := x]);
  }

  lemma InsertShape(g: Graph, r: Graph, v: Id, out: Id, view: View) returns (si: Node)
    requires WellFormed(g) && v in g.inputs && g.outputs == [out] && out !in g.inputs
    requires r == AddInsert(g, v, out, view)
    ensures WellFormed(r) && r.outputs == [g.next + 2] && r.next == g.next + 3 && |r.nodes| > 0
    ensures r.nodes[..|r.nodes| - 1] == g.nodes + ConstantPair(g.next, view) && r.nodes[|r.nodes| - 1..] == [si]
    ensures si == Node(g.next + 2, StridedInsert, [v, out, g.next, g.next + 1], [g.next + 2])
  {
    var n := g.next;
    var b := InsertBlock(n, v, out, view);
    assert v < n && out < n by { assert g.outputs[0] == out; }
    InsertBlockNumbered(n, v, out, view);
    NumberedRedirect(g, |g.nodes|, b, {v, out}, out, n + 2);
    assert r.nodes == g.nodes + b;
    si := b[2];
    assert b == ConstantPair(n, view) + [si];
  }

  function ConstantPair(n: Id, view: View): seq<Node> { ConstantNodes(n, [IntList(view.strides), Int(view.offset)]) }

  /** What the appended insert and its cast find in the environment. */
  lemma BeforeInsert(sem: Sem, g: Graph, r: Graph, v: Id, out: Id, view: View, env: Env, e: Env)
    requires WellFormed(g) && v in g.inputs && g.outputs == [out]
    requires r.nodes != [] && r.nodes[..|r.nodes| - 1] == g.nodes + ConstantPair(g.next, view)
    requires e == Eval(sem, r.nodes[..|r.nodes| - 1], env)
    ensures Lookup(e, v) == Lookup(env, v) && Lookup(e, out) == Lookup(Eval(sem, g.nodes, env), out)
    ensures Lookup(e, g.next) == StridesOf(view) && Lookup(e, g.next + 1) == OffsetOf(view)
    ensures v < g.next && out < g.next
  {
    var e0 := Eval(sem, g.nodes, env);
    assert v < g.next && out < g.next by { assert g.outputs[0] == out; }
    EvalKeeps(sem, g.nodes, env, v);
    EvalConcat(sem, g.nodes, ConstantPair(g.next, view), env);
    EvalConstants(sem, g.next, [IntList(view.strides), Int(view.offset)], e0);
  }

  lemma CastRedirect(sem: Sem, r: Graph, si: Node, out: Id, dtype: nat, e: Env, env: Env)
    requires WellFormed(r) && r.nodes != [] && out < r.next
    requires r.nodes[|r.nodes| - 1..] == [si] && out !in si.outputs
    requires e == Eval(sem, r.nodes[..|r.nodes| - 1], env)
    ensures Run(sem, AddCast(r, out, dtype), env)
            == Args(Eval(sem, [si], e[out := sem.cast(dtype, Lookup(e, out))]), r.outputs)
  {
    CastBlockValue(sem, r.next, out, dtype, e);
    CastEditFits(r, out, dtype);
    EditMeaning(sem, r, CastEdit(r, out, dtype), {out}, env, sem.cast(dtype, Lookup(e, out)));
  }

  lemma EditMeaning(sem: Sem, g: Graph, e: Edit, olds: set<Id>, env: Env, x: Value)
    requires WellFormed(g) && e.Fits(g, olds) && e.v < g.next && NeverDefines(g.nodes[e.p..], e.v)
    requires Lookup(Eval(sem, e.block, Eval(sem, g.nodes[..e.p], env)), e.w) == x
    ensures Run(sem, e.Apply(g), env)
            == Args(Eval(sem, g.nodes[e.p..], Eval(sem, g.nodes[..e.p], env)[e.v := x]), g.outputs)
  {
    NumberedIsFresh(e.block, g.next, olds);
    RedirectMeaning(sem, g, e.p, e.block, e.v, e.w, g.next + |e.block|, env, x);
  }

  /** The same on a graph input that nothing before the edit reads. */
  lemma EditInputMeaning(sem: Sem, g: Graph, e: Edit, olds: set<Id>, env: Env, x: Value)
    requires WellFormed(g) && e.Fits(g, olds) && e.v in g.inputs && NeverUses(g.nodes[..e.p], e.v)
    requires Lookup(Eval(sem, e.block, Eval(sem, g.nodes[..e.p], env)), e.w) == x
    ensures Run(sem, e.Apply(g), env) == Run(sem, g, env[e.v := x])
  {
    NumberedIsFresh(e.block, g.next, olds);
    RedirectInputMeaning(sem, g, e.p, e.block, e.v, e.w, g.next + |e.block|, env, x);
  }

  lemma LastInsertValue(sem: Sem, si: Node, e: Env)
    requires si.kind.StridedInsert? && |si.inputs| == 4 && |si.outputs| == 1
    ensures Args(Eval(sem, [si], e), si.outputs)
            == [sem.insert(Lookup(e, si.inputs[0]), Lookup(e, si.inputs[1]), Lookup(e, si.inputs[2]), Lookup(e, si.inputs[3]))]
  {
    StepOne(sem, si, e);
    EvalCons(sem, si, [], e);
    assert [si] + [] == [si];
  }

  // --- every edit leaves the graph ready for the remaining tensors ---

  lemma ViewEditFits(g: Graph, p: nat, v: Id, view: View, meta: bool)
    requires p <= |g.nodes| && v < g.next
    ensures ViewEdit(g, p, v, view, meta).Fits(g, {v})
  {
    ViewBlockNumbered(g.next, v, view, meta);
  }

  lemma InsertEditFits(g: Graph, v: Id, out: Id, view: View)
    requires v < g.next && out < g.next
    ensures InsertEdit(g, v, out, view).Fits(g, {v, out})
  {
    InsertBlockNumbered(g.next, v, out, view);
  }

  lemma CastEditFits(g: Graph, out0: Id, dtype: nat)
    requires g.nodes != [] && out0 < g.next
    ensures CastEdit(g, out0, dtype).Fits(g, {out0})
  {
    CastBlockNumbered(g.next, out0, dtype);
  }

  lemma SlotAfterEdit(g: Graph, e: Edit, olds: set<Id>, s: Slot)
    requires WellFormed(g) && e.Fits(g, olds)
    requires SlotReady(g, s) && s.v !in olds && s.v != e.v
    ensures SlotReady(e.Apply(g), s)
  {
    NumberedRedirectSlot(g, e.p, e.block, olds, e.v, e.w, s);
  }

  /** An edit that redirects no graph output. */
  lemma ReadyAfterInnerEdit(ctx: Ctx, g: Graph, outs: seq<Id>, from: nat, e: Edit, olds: set<Id>)
    requires GraphReady(ctx, g, outs, from) && e.Fits(g, olds) && e.v !in g.outputs
    ensures GraphReady(ctx, e.Apply(g), outs, from) && e.Apply(g).outputs == g.outputs
  {
    NumberedRedirect(g, e.p, e.block, olds, e.v, e.w);
    NumberedRedirectNode(g, e.p, e.block, olds, e.v, e.w, ctx.opId);
    assert RenameIds(g.outputs, e.v, e.w) == g.outputs;
  }

  /** An edit that takes over the op's output k. */
  lemma ReadyAfterOutputEdit(ctx: Ctx, g: Graph, outs: seq<Id>, k: nat, e: Edit, olds: set<Id>)
    requires GraphReady(ctx, g, outs, k) && e.Fits(g, olds) && k < |outs| && e.v == outs[k]
    ensures GraphReady(ctx, e.Apply(g), outs, k + 1) && e.Apply(g).outputs == g.outputs[k := e.w]
  {
    EditKeepsNode(g, e, olds, ctx.opId);
    OutputsAfterEdit(g, outs, k, e);
  }

  lemma EditKeepsNode(g: Graph, e: Edit, olds: set<Id>, id: Id)
    requires WellFormed(g) && e.Fits(g, olds)
    ensures WellFormed(e.Apply(g)) && SameNode(g, e.Apply(g), id)
  {
    NumberedRedirect(g, e.p, e.block, olds, e.v, e.w);
    NumberedRedirectNode(g, e.p, e.block, olds, e.v, e.w, id);
  }

  /** The outputs after output k was renamed to a new value. */
  lemma OutputsAfterEdit(g: Graph, outs: seq<Id>, k: nat, e: Edit)
    requires e.p <= |g.nodes| && k < |outs| == |g.outputs| && e.v == g.outputs[k] && e.w !in g.outputs
    requires Distinct(g.outputs) && forall j :: k <= j < |outs| ==> g.outputs[j] == outs[j]
    ensures var r := e.Apply(g);
            && r.outputs == g.outputs[k := e.w] && Distinct(r.outputs) && |r.outputs| == |outs|
            && forall j :: k + 1 <= j < |outs| ==> r.outputs[j] == outs[j]
  {
    RenamedOutput(g.outputs, k, e.v, e.w);
  }

  lemma RenamedOutput(outputs: seq<Id>, k: nat, v: Id, w: Id)
    requires Distinct(outputs) && k < |outputs| && outputs[k] == v
    ensures RenameIds(outputs, v, w) == outputs[k := w]
  {
  }

  ghost predicate AllReady(g: Graph, slots: seq<Slot>) {
    forall i :: 0 <= i < |slots| ==> SlotReady(g, slots[i])
  }

  lemma AllReadyAfterEdit(g: Graph, e: Edit, olds: set<Id>, slots: seq<Slot>)
    requires WellFormed(g) && e.Fits(g, olds) && AllReady(g, slots)
    requires forall i :: 0 <= i < |slots| ==> slots[i].v !in olds && slots[i].v != e.v
    ensures AllReady(e.Apply(g), slots)
  {
    forall i | 0 <= i < |slots| ensures SlotReady(e.Apply(g), slots[i]) {
      SlotAfterEdit(g, e, olds, slots[i]);
    }
  }

  lemma AfterLowerRead(ctx: Ctx, st: State, outs: seq<Id>, s: Slot, rest: seq<Slot>)
    requires GraphReady(ctx, st.g, outs, st.outIdx) && SlotReady(st.g, s) && AllReady(st.g, rest)
    requires forall i :: 0 <= i < |rest| ==> rest[i].v != s.v
    ensures var r := LowerRead(ctx, st, s);
            && GraphReady(ctx, r.g, outs, r.outIdx) && AllReady(r.g, rest)
            && r.g.outputs == st.g.outputs && r.g.inputs == st.g.inputs
  {
    var e := ViewEdit(st.g, NodeIndex(st.g.nodes, s.reader), s.v, s.t.view, ctx.MetaOnly(s));
    ViewEditFits(st.g, e.p, s.v, s.t.view, ctx.MetaOnly(s));
    ReadyAfterInnerEdit(ctx, st.g, outs, st.outIdx, e, {s.v});
    AllReadyAfterEdit(st.g, e, {s.v}, rest);
  }

  lemma AfterAddInsert(ctx: Ctx, g: Graph, outs: seq<Id>, k: nat, s: Slot, rest: seq<Slot>)
    requires GraphReady(ctx, g, outs, k) && k < |outs| && AllReady(g, rest)
    requires s.v in g.inputs && forall i :: 0 <= i < |rest| ==> rest[i].v != s.v
    ensures var r := AddInsert(g, s.v, outs[k], s.t.view);
            && GraphReady(ctx, r, outs, k + 1) && AllReady(r, rest) && r.nodes != []
            && r.outputs == g.outputs[k := g.next + 2] && outs[k] < g.next
  {
    var e := InsertEdit(g, s.v, outs[k], s.t.view);
    assert g.outputs[k] == outs[k];
    assert s.v < g.next && outs[k] < g.next;
    InsertEditFits(g, s.v, outs[k], s.t.view);
    ReadyAfterOutputEdit(ctx, g, outs, k, e, {s.v, outs[k]});
    AllReadyAfterEdit(g, e, {s.v, outs[k]}, rest);
  }

  lemma AfterLowerWrite(ctx: Ctx, st: State, outs: seq<Id>, s: Slot, rest: seq<Slot>)
    requires GraphReady(ctx, st.g, outs, st.outIdx) && st.outIdx < |outs| && AllReady(st.g, rest)
    requires s.v in st.g.inputs && forall i :: 0 <= i < |rest| ==> rest[i].v != s.v
    requires ctx.op.needsCast ==> |outs| == 1
    ensures var r := LowerWrite(ctx, st, s, outs[st.outIdx], outs[0]);
            GraphReady(ctx, r.g, outs, st.outIdx + 1) && AllReady(r.g, rest)
  {
    AfterAddInsert(ctx, st.g, outs, st.outIdx, s, rest);
    if ctx.op.needsCast {
      var g := AddInsert(st.g, s.v, outs[0], s.t.view);
      var e := CastEdit(g, outs[0], s.t.dtype);
      CastEditFits(g, outs[0], s.t.dtype);
      ReadyAfterInnerEdit(ctx, g, outs, st.outIdx + 1, e, {outs[0]});
      forall i | 0 <= i < |rest| ensures rest[i].v != outs[0] {
        assert SlotReady(st.g, rest[i]) && st.g.outputs[0] == outs[0];
      }
      AllReadyAfterEdit(g, e, {outs[0]}, rest);
    }
  }

  lemma ReadyStep(ctx: Ctx, st: State, outs: seq<Id>, slots: seq<Slot>)
    requires Ready(ctx, st, outs, slots) && slots != []
    ensures Ready(ctx, HandleSlot(ctx, st, slots[0]), outs, slots[1..])
  {
    var s, rest := slots[0], slots[1..];
    assert SlotReady(st.g, s);
    assert AllReady(st.g, rest) by {
      forall i | 0 <= i < |rest| ensures SlotReady(st.g, rest[i]) { assert rest[i] == slots[i + 1]; }
    }
    forall i | 0 <= i < |rest| ensures rest[i].v != s.v { assert rest[i] == slots[i + 1]; }
    if s.t.hpu && s.t.IsView() {
      var st1 := if ctx.Reads(s) then LowerRead(ctx, st, s) else st;
      if ctx.Reads(s) { AfterLowerRead(ctx, st, outs, s, rest); }
      if ctx.Writes(s) { AfterLowerWrite(ctx, st1, outs, s, rest); }
    }
  }

  // --- the pass over all tensors, and what it means ---

  ghost function Lower(ctx: Ctx, st: State, outs: seq<Id>, slots: seq<Slot>): State
    requires Ready(ctx, st, outs, slots)
    decreases |slots|
  {
    if slots == [] then st
    else
      ReadyStep(ctx, st, outs, slots);
      Lower(ctx, HandleSlot(ctx, st, slots[0]), outs, slots[1..])
  }

  ghost function ViewValue(ctx: Ctx, sem: Sem, s: Slot, base: Value): Value {
    sem.view(ctx.MetaOnly(s), base, SizesOf(s.t.view), StridesOf(s.t.view), OffsetOf(s.t.view))
  }

  /** The inputs as the op sees them: each read view in place of its base. */
  ghost function Seen(ctx: Ctx, sem: Sem, slots: seq<Slot>, env: Env): Env
    decreases |slots|
  {
    if slots == [] then env
    else
      var rest := Seen(ctx, sem, slots[1..], env);
      if ctx.Reads(slots[0]) then rest[slots[0].v := ViewValue(ctx, sem, slots[0], Lookup(env, slots[0].v))] else rest
  }

  ghost function Stored(ctx: Ctx, sem: Sem, s: Slot, base: Value, result: Value): Value {
    sem.insert(base, if ctx.op.needsCast then sem.cast(s.t.dtype, result) else result,
               StridesOf(s.t.view), OffsetOf(s.t.view))
  }

  /** The op's results with each written view's result stored into its base. */
  ghost function Written(ctx: Ctx, sem: Sem, slots: seq<Slot>, env: Env, vals: seq<Value>, k: nat): (r: seq<Value>)
    ensures |r| == |vals|
    decreases |slots|
  {
    if slots == [] then vals
    else
      var s := slots[0];
      Written(ctx, sem, slots[1..], env,
              if ctx.Inserts(s) && k < |vals| then vals[k := Stored(ctx, sem, s, Lookup(env, s.v), vals[k])] else vals,
              k + if ctx.Writes(s) then 1 else 0)
  }

  lemma {:induction false} SeenElsewhere(ctx: Ctx, sem: Sem, slots: seq<Slot>, env: Env, v: Id)
    requires forall i :: 0 <= i < |slots| ==> slots[i].v != v
    ensures Lookup(Seen(ctx, sem, slots, env), v) == Lookup(env, v)
    decreases |slots|
  {
    if slots != [] {
      assert slots[0].v != v;
      SeenElsewhere(ctx, sem, slots[1..], env, v);
    }
  }

  lemma LowerReadMeaning(ctx: Ctx, sem: Sem, st: State, s: Slot, env: Env)
    requires WellFormed(st.g) && SlotReady(st.g, s)
    ensures Run(sem, LowerRead(ctx, st, s).g, env)
            == Run(sem, st.g, env[s.v := ViewValue(ctx, sem, s, Lookup(env, s.v))])
  {
    AddViewMeaning(sem, st.g, s, ctx.MetaOnly(s), env);
  }

  lemma LowerWriteMeaning(ctx: Ctx, sem: Sem, st: State, outs: seq<Id>, s: Slot, env: Env)
    requires GraphReady(ctx, st.g, outs, st.outIdx) && st.outIdx < |outs|
    requires s.v in st.g.inputs && (ctx.op.needsCast ==> |outs| == 1)
    ensures var k := st.outIdx;
            var vals := Run(sem, st.g, env);
            Run(sem, LowerWrite(ctx, st, s, outs[k], outs[0]).g, env)
            == vals[k := Stored(ctx, sem, s, Lookup(env, s.v), vals[k])]
  {
    var k := st.outIdx;
    assert st.g.outputs[k] == outs[k];
    if ctx.op.needsCast {
      assert st.g.outputs == [outs[0]];
      assert outs[0] in NodeAt(st.g, ctx.opId).outputs;
      AddCastedInsertMeaning(sem, st.g, s.v, outs[0], s.t.view, s.t.dtype, env);
    } else {
      AddInsertMeaning(sem, st.g, s.v, k, s.t.view, env);
    }
  }

  /** The lowered graph on base buffers computes what the original graph computes on the
      views, with every written view's result stored into its own base. */
  lemma {:induction false} LowerMeaning(ctx: Ctx, sem: Sem, st: State, outs: seq<Id>, slots: seq<Slot>, env: Env)
    requires Ready(ctx, st, outs, slots)
    ensures Run(sem, Lower(ctx, st, outs, slots).g, env)
            == Written(ctx, sem, slots, env, Run(sem, st.g, Seen(ctx, sem, slots, env)), st.outIdx)
    decreases |slots|
  {
    if slots != [] {
      var s, rest := slots[0], slots[1..];
      ReadyStep(ctx, st, outs, slots);
      LowerMeaning(ctx, sem, HandleSlot(ctx, st, s), outs, rest, env);
      FirstSlotMeaning(ctx, sem, st, outs, slots, env);
    }
  }

  lemma FirstSlotMeaning(ctx: Ctx, sem: Sem, st: State, outs: seq<Id>, slots: seq<Slot>, env: Env)
    requires Ready(ctx, st, outs, slots) && slots != []
    ensures var next := HandleSlot(ctx, st, slots[0]);
            Written(ctx, sem, slots, env, Run(sem, st.g, Seen(ctx, sem, slots, env)), st.outIdx)
            == Written(ctx, sem, slots[1..], env, Run(sem, next.g, Seen(ctx, sem, slots[1..], env)), next.outIdx)
  {
    var next := HandleSlot(ctx, st, slots[0]);
    SlotInPlace(ctx, sem, st, outs, slots, env);
    WrittenUnfold(ctx, sem, slots, env, Run(sem, st.g, Seen(ctx, sem, slots, env)), st.outIdx,
                  Run(sem, next.g, Seen(ctx, sem, slots[1..], env)), next.outIdx);
  }

  /** One tensor's step, with the other tensors seen as they will be. */
  lemma SlotInPlace(ctx: Ctx, sem: Sem, st: State, outs: seq<Id>, slots: seq<Slot>, env: Env)
    requires Ready(ctx, st, outs, slots) && slots != []
    ensures var s, next := slots[0], HandleSlot(ctx, st, slots[0]);
            var vals := Run(sem, st.g, Seen(ctx, sem, slots, env));
            var k := st.outIdx;
            && Run(sem, next.g, Seen(ctx, sem, slots[1..], env))
               == (if ctx.Inserts(s) && k < |vals| then vals[k := Stored(ctx, sem, s, Lookup(env, s.v), vals[k])] else vals)
            && next.outIdx == k + if ctx.Writes(s) then 1 else 0
  {
    var s, rest := slots[0], slots[1..];
    OthersDiffer(ctx, st, outs, slots);
    SeenElsewhere(ctx, sem, rest, env, s.v);
    SlotMeaning(ctx, sem, st, outs, slots, Seen(ctx, sem, rest, env));
    OutputCount(ctx, st, s);
    SeenUnfold(ctx, sem, slots, env);
  }

  lemma SeenUnfold(ctx: Ctx, sem: Sem, slots: seq<Slot>, env: Env)
    requires slots != []
    ensures var s, rest := slots[0], Seen(ctx, sem, slots[1..], env);
            Seen(ctx, sem, slots, env) == if ctx.Reads(s) then rest[s.v := ViewValue(ctx, sem, s, Lookup(env, s.v))] else rest
  {
  }

  lemma OthersDiffer(ctx: Ctx, st: State, outs: seq<Id>, slots: seq<Slot>)
    requires Ready(ctx, st, outs, slots) && slots != []
    ensures forall i :: 0 <= i < |slots[1..]| ==> slots[1..][i].v != slots[0].v
    ensures HasNode(st.g.nodes, slots[0].reader) && HasNode(st.g.nodes, ctx.opId)
    ensures ctx.Writes(slots[0]) ==> st.outIdx < |NodeAt(st.g, ctx.opId).outputs|
  {
    assert SlotReady(st.g, slots[0]);
  }

  lemma OutputCount(ctx: Ctx, st: State, s: Slot)
    requires HasNode(st.g.nodes, s.reader) && HasNode(st.g.nodes, ctx.opId)
    requires ctx.Writes(s) ==> st.outIdx < |NodeAt(st.g, ctx.opId).outputs|
    ensures HandleSlot(ctx, st, s).outIdx == st.outIdx + if ctx.Writes(s) then 1 else 0
  {
  }

  lemma WrittenUnfold(ctx: Ctx, sem: Sem, slots: seq<Slot>, env: Env, vals: seq<Value>, k: nat, later: seq<Value>, next: nat)
    requires slots != [] && next == k + if ctx.Writes(slots[0]) then 1 else 0
    requires later == if ctx.Inserts(slots[0]) && k < |vals|
                      then vals[k := Stored(ctx, sem, slots[0], Lookup(env, slots[0].v), vals[k])] else vals
    ensures Written(ctx, sem, slots, env, vals, k) == Written(ctx, sem, slots[1..], env, later, next)
  {
  }

  /** One tensor's step, in any environment. */
  lemma SlotMeaning(ctx: Ctx, sem: Sem, st: State, outs: seq<Id>, slots: seq<Slot>, env: Env)
    requires Ready(ctx, st, outs, slots) && slots != []
    ensures var s := slots[0];
            var seen := if ctx.Reads(s) then env[s.v := ViewValue(ctx, sem, s, Lookup(env, s.v))] else env;
            var vals := Run(sem, st.g, seen);
            var k := st.outIdx;
            Run(sem, HandleSlot(ctx, st, s).g, env)
            == if ctx.Inserts(s) && k < |vals| then vals[k := Stored(ctx, sem, s, Lookup(env, s.v), vals[k])] else vals
  {
    var s, rest := slots[0], slots[1..];
    assert SlotReady(st.g, s);
    if s.t.hpu && s.t.IsView() {
      var st1 := if ctx.Reads(s) then LowerRead(ctx, st, s) else st;
      if ctx.Reads(s) {
        AfterLowerRead(ctx, st, outs, s, []);
        LowerReadMeaning(ctx, sem, st, s, env);
      }
      if ctx.Writes(s) {
        LowerWriteMeaning(ctx, sem, st1, outs, s, env);
      }
    }
  }
}
