/**
 Patching a cached graph: process_node_params recomputes, from a new stack, the constants
 the parameter map names, and a graph built from one stack and patched for another is the
 graph built from the other.
 */
module CachePatch {
  import opened StridedViews
  import opened JitGraph
  import opened ViewLowering
  import opened EagerGraph
  import opened LoweringMeaning
  import opened EagerPass
  import opened DuplicateInputs

  // --- recomputing constants ---

  /** The parameter names an argument of the right kind. */
  predicate ParamFits(p: Param, args: seq<Arg>) {
    p.argIdx < |args| && match args[p.argIdx]
                         case Meta(_) => p.kind == METADATA
                         case Scalar(_) => false
                         case One(_) => p.kind != METADATA
                         case Many(ts) => p.kind != METADATA && p.subIdx < |ts|
  }

  /** The tensor a view parameter describes. */
  function ParamTensor(p: Param, args: seq<Arg>): TensorArg
    requires ParamFits(p, args) && p.kind != METADATA
  {
    if args[p.argIdx].Many? then args[p.argIdx].ts[p.subIdx] else args[p.argIdx].t
  }

  function ViewConstant(kind: ParamType, view: View): IValue {
    match kind
    case VIEW_STRIDES => IntList(view.strides)
    case VIEW_OFFSET => Int(view.offset)
    case _ => IntList(view.sizes)
  }

  /** The constant a parameter stands for, read off a stack; None where the stack has no such argument. */
  function NewValue(p: Param, args: seq<Arg>): IValue {
    if !ParamFits(p, args) then IValue.None
    else if p.kind == METADATA then args[p.argIdx].c
    else ViewConstant(p.kind, ParamTensor(p, args).view)
  }

  ghost predicate ParamsFit(params: ParamMap, args: seq<Arg>) {
    forall id :: id in params ==> ParamFits(params[id], args)
  }

  function NewValues(params: ParamMap, args: seq<Arg>): map<Id, IValue> {
    map id | id in params :: NewValue(params[id], args)
  }

  /** process_node_params; it fails where the stack has no argument of the recorded kind. */
  method ProcessNodeParams(params: ParamMap, args: seq<Arg>) returns (ok: bool, fix: map<Id, IValue>)
    ensures ok <==> ParamsFit(params, args)
    ensures ok ==> fix == NewValues(params, args)
  {
    ok, fix := true, map[];
    var todo := params.Keys;
    while todo != {}
      invariant todo <= params.Keys
      invariant fix == map id | id in params && id !in todo :: NewValue(params[id], args)
      invariant forall id :: id in params && id !in todo ==> ParamFits(params[id], args)
      decreases |todo|
    {
      var id :| id in todo;
      if !ParamFits(params[id], args) {
        return false, map[];
      }
      fix := fix[id := NewValue(params[id], args)];
      todo := todo - {id};
    }
  }

  // --- patching ---

  function PatchNode(d: Node, fix: map<Id, IValue>): Node {
    if d.kind.Constant? && d.id in fix then d.(kind := Constant(fix[d.id])) else d
  }

  function PatchNodes(nodes: seq<Node>, fix: map<Id, IValue>): (r: seq<Node>)
    ensures |r| == |nodes| && forall i :: 0 <= i < |nodes| ==> r[i] == PatchNode(nodes[i], fix)
  {
    seq(|nodes|, i requires 0 <= i < |nodes| => PatchNode(nodes[i], fix))
  }

  function Patch(g: Graph, fix: map<Id, IValue>): Graph {
    g.(nodes := PatchNodes(g.nodes, fix))
  }

  function PatchEdit(e: Edit, fix: map<Id, IValue>): Edit { e.(block := PatchNodes(e.block, fix)) }

  /** Patching commutes with every edit. */
  lemma PatchApply(g: Graph, e: Edit, fix: map<Id, IValue>)
    requires e.p <= |g.nodes|
    ensures Patch(e.Apply(g), fix) == PatchEdit(e, fix).Apply(Patch(g, fix))
  {
    var a, b := g.nodes[..e.p], g.nodes[e.p..];
    PatchConcat(a + e.block, RenameNodes(b, e.v, e.w), fix);
    PatchConcat(a, e.block, fix);
    PatchRenamed(b, e.v, e.w, fix);
    assert PatchNodes(g.nodes, fix)[..e.p] == PatchNodes(a, fix) && PatchNodes(g.nodes, fix)[e.p..] == PatchNodes(b, fix);
  }

  lemma PatchConcat(a: seq<Node>, b: seq<Node>, fix: map<Id, IValue>)
    ensures PatchNodes(a + b, fix) == PatchNodes(a, fix) + PatchNodes(b, fix)
  {
  }

  lemma PatchRenamed(nodes: seq<Node>, v: Id, w: Id, fix: map<Id, IValue>)
    ensures PatchNodes(RenameNodes(nodes, v, w), fix) == RenameNodes(PatchNodes(nodes, fix), v, w)
  {
  }

  lemma PatchNodeFacts(g: Graph, fix: map<Id, IValue>, id: Id)
    requires WellFormed(g) && HasNode(g.nodes, id)
    ensures HasNode(Patch(g, fix).nodes, id) && NodeIndex(Patch(g, fix).nodes, id) == NodeIndex(g.nodes, id)
    ensures NodeAt(Patch(g, fix), id) == PatchNode(NodeAt(g, id), fix)
  {
    var i := NodeIndex(g.nodes, id);
    assert Patch(g, fix).nodes[i].id == id;
  }

  lemma PatchTwin(ctx: Ctx, g: Graph, fix: map<Id, IValue>)
    requires OpIntact(ctx, g)
    ensures Patch(Replaced(ctx, g), fix) == Replaced(ctx, Patch(g, fix))
  {
    forall i | 0 <= i < |g.nodes|
      ensures PatchNode(TwinNode(ctx, g.nodes[i]), fix) == TwinNode(ctx, PatchNode(g.nodes[i], fix))
    {
      assert NodeIntact(ctx, g.nodes[i]);
    }
  }

  lemma {:induction false} PatchMerge(g: Graph, parent: seq<nat>, fix: map<Id, IValue>, n: nat)
    requires n <= |parent| == |g.inputs| && ParentsValid(parent)
    ensures Patch(MergeUpTo(g, parent, n), fix) == MergeUpTo(Patch(g, fix), parent, n)
  {
    if n > 0 { PatchMerge(g, parent, fix, n - 1); }
  }

  // --- two stacks of one shape ---

  /** What the operator key fixes about a tensor. */
  predicate SameTensorShape(t: TensorArg, u: TensorArg) {
    t.viewLowering == u.viewLowering && t.contiguous == u.contiguous && t.dtype == u.dtype && t.hpu == u.hpu
  }

  /** Arguments a cached graph cannot tell apart: only patched constants may differ. */
  predicate SameShape(a: Arg, b: Arg, agnostic: bool) {
    match (a, b)
    case (Meta(c), Meta(d)) => agnostic || c == d
    case (Scalar(_), Scalar(_)) => true
    case (One(t), One(u)) => SameTensorShape(t, u)
    case (Many(ts), Many(us)) => |ts| == |us| && forall j :: 0 <= j < |ts| ==> SameTensorShape(ts[j], us[j])
    case _ => false
  }

  predicate AllSameShape(args: seq<Arg>, more: seq<Arg>, agnostic: bool) {
    |args| == |more| && forall i :: 0 <= i < |args| ==> SameShape(args[i], more[i], agnostic)
  }

  /** The tensor of a slot, found in the stack by the slot's coordinates. */
  predicate InStack(s: Slot, args: seq<Arg>) {
    s.argIdx < |args| && match args[s.argIdx]
                         case One(t) => t == s.t
                         case Many(ts) => s.readerIdx < |ts| && ts[s.readerIdx] == s.t
                         case _ => false
  }

  predicate SlotsAlike(a: Slot, b: Slot, more: seq<Arg>) {
    && a.reader == b.reader && a.readerIdx == b.readerIdx && a.argIdx == b.argIdx && a.v == b.v
    && SameTensorShape(a.t, b.t) && InStack(b, more)
  }

  lemma FirstSlotsAlike(a: Arg, b: Arg, whole: seq<Arg>, idx: nat, n: Id, opId: Id, agnostic: bool, i: nat)
    requires SameShape(a, b, agnostic) && idx < |whole| && whole[idx] == b && i < |ArgSlots(a, idx, n, opId)|
    ensures |ArgSlots(a, idx, n, opId)| == |ArgSlots(b, idx, n, opId)|
    ensures SlotsAlike(ArgSlots(a, idx, n, opId)[i], ArgSlots(b, idx, n, opId)[i], whole)
  {
  }

  lemma {:induction false} SlotsOfSameShape(args: seq<Arg>, more: seq<Arg>, whole: seq<Arg>, idx: nat, n: Id, opId: Id,
                                            agnostic: bool, i: nat)
    requires AllSameShape(args, more, agnostic) && idx + |more| == |whole| && more == whole[idx..]
    requires i < |Slots(args, idx, n, opId)| == |Slots(more, idx, n, opId)|
    ensures SlotsAlike(Slots(args, idx, n, opId)[i], Slots(more, idx, n, opId)[i], whole)
    decreases |args|
  {
    var rest, rest', m := args[1..], more[1..], n + Width(args[0]);
    FirstSameShape(args, more, whole, idx, agnostic);
    SlotsOfCons(args, rest, idx, n, m, opId);
    SlotsOfCons(more, rest', idx, n, m, opId);
    var first, first' := ArgSlots(args[0], idx, n, opId), ArgSlots(more[0], idx, n, opId);
    FirstSlotCount(args[0], more[0], idx, n, opId, agnostic);
    if i < |first| {
      FirstSlotsAlike(args[0], more[0], whole, idx, n, opId, agnostic, i);
    } else {
      var j := i - |first|;
      SlotLater(Slots(args, idx, n, opId), first, Slots(rest, idx + 1, m, opId), i, j);
      SlotLater(Slots(more, idx, n, opId), first', Slots(rest', idx + 1, m, opId), i, j);
      SlotsOfSameShape(rest, rest', whole, idx + 1, m, opId, agnostic, j);
    }
  }

  lemma FirstSameShape(args: seq<Arg>, more: seq<Arg>, whole: seq<Arg>, idx: nat, agnostic: bool)
    requires AllSameShape(args, more, agnostic) && idx + |more| == |whole| && more == whole[idx..] && args != []
    ensures SameShape(args[0], more[0], agnostic) && Width(args[0]) == Width(more[0]) && whole[idx] == more[0]
    ensures AllSameShape(args[1..], more[1..], agnostic) && more[1..] == whole[idx + 1..]
  {
    assert SameShape(args[0], more[0], agnostic);
  }

  lemma FirstSlotCount(a: Arg, b: Arg, idx: nat, n: Id, opId: Id, agnostic: bool)
    requires SameShape(a, b, agnostic)
    ensures |ArgSlots(a, idx, n, opId)| == |ArgSlots(b, idx, n, opId)|
  {
  }

  lemma {:induction false} SlotCount(args: seq<Arg>, more: seq<Arg>, idx: nat, n: Id, opId: Id, agnostic: bool)
    requires AllSameShape(args, more, agnostic)
    ensures |Slots(args, idx, n, opId)| == |Slots(more, idx, n, opId)|
    decreases |args|
  {
    if args != [] {
      assert SameShape(args[0], more[0], agnostic);
      SlotCount(args[1..], more[1..], idx + 1, n + Width(args[0]), opId, agnostic);
    }
  }

  // --- building the graphs of two stacks in lockstep ---

  ghost predicate ParamsBelow(params: ParamMap, next: Id) { forall id :: id in params ==> id < next }

  /** The state with its graph patched for another stack. */
  function Repointed(st: State, args: seq<Arg>): State {
    st.(g := Patch(st.g, NewValues(st.params, args)))
  }

  /** Parameters recorded later do not touch older nodes. */
  lemma LaterParams(g: Graph, params: ParamMap, more: ParamMap, args: seq<Arg>)
    requires WellFormed(g) && params.Keys <= more.Keys
    requires forall id :: id in more && id < g.next ==> id in params && more[id] == params[id]
    ensures Patch(g, NewValues(more, args)) == Patch(g, NewValues(params, args))
  {
    forall i | 0 <= i < |g.nodes|
      ensures PatchNode(g.nodes[i], NewValues(more, args)) == PatchNode(g.nodes[i], NewValues(params, args))
    {
      assert NodeBelow(g.nodes[i], g.next);
    }
  }

  lemma EditPatched(g: Graph, e: Edit, f: Edit, params: ParamMap, more: ParamMap, args: seq<Arg>)
    requires WellFormed(g) && e.p <= |g.nodes| && params.Keys <= more.Keys
    requires forall id :: id in more && id < g.next ==> id in params && more[id] == params[id]
    requires f == PatchEdit(e, NewValues(more, args))
    ensures Patch(e.Apply(g), NewValues(more, args)) == f.Apply(Patch(g, NewValues(params, args)))
  {
    PatchApply(g, e, NewValues(more, args));
    LaterParams(g, params, more, args);
  }

  lemma ViewBlockPatched(n: Id, s: Slot, u: Slot, meta: bool, params: ParamMap, args: seq<Arg>)
    requires SlotsAlike(s, u, args)
    ensures PatchNodes(ViewBlock(n, s.v, s.t.view, meta), NewValues(ViewParams(params, n, s), args))
            == ViewBlock(n, u.v, u.t.view, meta)
  {
    var fix := NewValues(ViewParams(params, n, s), args);
    assert fix[n] == IntList(u.t.view.sizes) && fix[n + 1] == IntList(u.t.view.strides) && fix[n + 2] == Int(u.t.view.offset);
  }

  lemma InsertBlockPatched(n: Id, s: Slot, u: Slot, out: Id, params: ParamMap, args: seq<Arg>)
    requires SlotsAlike(s, u, args)
    ensures PatchNodes(InsertBlock(n, s.v, out, s.t.view), NewValues(InsertParams(params, n, s), args))
            == InsertBlock(n, u.v, out, u.t.view)
  {
    var fix := NewValues(InsertParams(params, n, s), args);
    assert fix[n] == IntList(u.t.view.strides) && fix[n + 1] == Int(u.t.view.offset);
  }

  lemma CastBlockPatched(n: Id, out: Id, dtype: nat, params: ParamMap, args: seq<Arg>)
    requires ParamsBelow(params, n)
    ensures PatchNodes(CastBlock(n, out, dtype), NewValues(params, args)) == CastBlock(n, out, dtype)
  {
  }

  lemma ReadGraphPatched(g: Graph, params: ParamMap, s: Slot, u: Slot, meta: bool, args: seq<Arg>)
    requires WellFormed(g) && ParamsBelow(params, g.next) && SlotsAlike(s, u, args) && HasNode(g.nodes, s.reader)
    ensures var older, h := NewValues(params, args), Patch(g, NewValues(params, args));
            && HasNode(h.nodes, u.reader)
            && Patch(AddView(g, s.reader, s.v, s.t.view, meta), NewValues(ViewParams(params, g.next, s), args))
               == AddView(h, u.reader, u.v, u.t.view, meta)
  {
    var p, h := NodeIndex(g.nodes, s.reader), Patch(g, NewValues(params, args));
    PatchNodeFacts(g, NewValues(params, args), s.reader);
    ViewBlockPatched(g.next, s, u, meta, params, args);
    EditPatched(g, ViewEdit(g, p, s.v, s.t.view, meta), ViewEdit(h, p, u.v, u.t.view, meta), params, ViewParams(params, g.next, s), args);
  }

  lemma SameViewParams(params: ParamMap, n: Id, s: Slot, u: Slot, args: seq<Arg>)
    requires SlotsAlike(s, u, args)
    ensures ViewParams(params, n, s) == ViewParams(params, n, u)
    ensures ParamsBelow(params, n) ==> ParamsBelow(ViewParams(params, n, s), n + 4)
  {
  }

  lemma ReadPatched(ctx: Ctx, st: State, s: Slot, u: Slot, args: seq<Arg>)
    requires WellFormed(st.g) && ParamsBelow(st.params, st.g.next) && SlotsAlike(s, u, args)
    requires HasNode(st.g.nodes, s.reader)
    ensures HasNode(Repointed(st, args).g.nodes, u.reader)
    ensures Repointed(LowerRead(ctx, st, s), args) == LowerRead(ctx, Repointed(st, args), u)
    ensures ParamsBelow(LowerRead(ctx, st, s).params, LowerRead(ctx, st, s).g.next)
  {
    ReadGraphPatched(st.g, st.params, s, u, ctx.MetaOnly(s), args);
    SameViewParams(st.params, st.g.next, s, u, args);
  }

  lemma InsertPatched(st: State, s: Slot, u: Slot, out: Id, args: seq<Arg>)
    requires WellFormed(st.g) && ParamsBelow(st.params, st.g.next) && SlotsAlike(s, u, args)
    ensures var more := InsertParams(st.params, st.g.next, s);
            && Patch(AddInsert(st.g, s.v, out, s.t.view), NewValues(more, args))
               == AddInsert(Repointed(st, args).g, u.v, out, u.t.view)
            && ParamsBelow(more, AddInsert(st.g, s.v, out, s.t.view).next)
  {
    InsertBlockPatched(st.g.next, s, u, out, st.params, args);
    EditPatched(st.g, InsertEdit(st.g, s.v, out, s.t.view), InsertEdit(Repointed(st, args).g, u.v, out, u.t.view),
                st.params, InsertParams(st.params, st.g.next, s), args);
  }

  lemma CastPatched(g: Graph, out: Id, dtype: nat, params: ParamMap, args: seq<Arg>)
    requires WellFormed(g) && g.nodes != [] && ParamsBelow(params, g.next)
    ensures Patch(AddCast(g, out, dtype), NewValues(params, args)) == AddCast(Patch(g, NewValues(params, args)), out, dtype)
  {
    CastBlockPatched(g.next, out, dtype, params, args);
    EditPatched(g, CastEdit(g, out, dtype), CastEdit(Patch(g, NewValues(params, args)), out, dtype), params, params, args);
  }

  lemma WritePatched(ctx: Ctx, st: State, s: Slot, u: Slot, out: Id, out0: Id, args: seq<Arg>)
    requires WellFormed(st.g) && ParamsBelow(st.params, st.g.next) && SlotsAlike(s, u, args)
    requires WellFormed(AddInsert(st.g, s.v, out, s.t.view))
    ensures Repointed(LowerWrite(ctx, st, s, out, out0), args) == LowerWrite(ctx, Repointed(st, args), u, out, out0)
    ensures ParamsBelow(LowerWrite(ctx, st, s, out, out0).params, LowerWrite(ctx, st, s, out, out0).g.next)
  {
    var g := AddInsert(st.g, s.v, out, s.t.view);
    InsertPatched(st, s, u, out, args);
    if ctx.op.needsCast {
      assert g.nodes[|g.nodes| - 1] == InsertBlock(st.g.next, s.v, out, s.t.view)[2];
      CastPatched(g, out0, s.t.dtype, InsertParams(st.params, st.g.next, s), args);
    }
  }

  ghost predicate Handleable(ctx: Ctx, g: Graph, reader: Id, k: nat, writes: bool) {
    HasNode(g.nodes, reader) && HasNode(g.nodes, ctx.opId) && (writes ==> k < |NodeAt(g, ctx.opId).outputs|)
  }

  lemma StillHandleable(ctx: Ctx, st: State, outs: seq<Id>, slots: seq<Slot>, args: seq<Arg>)
    requires Ready(ctx, st, outs, slots) && slots != []
    ensures Handleable(ctx, st.g, slots[0].reader, st.outIdx, ctx.Writes(slots[0]))
    ensures Handleable(ctx, Repointed(st, args).g, slots[0].reader, st.outIdx, ctx.Writes(slots[0]))
    ensures NodeAt(Repointed(st, args).g, ctx.opId).outputs == outs == NodeAt(st.g, ctx.opId).outputs
  {
    OthersDiffer(ctx, st, outs, slots);
    PatchNodeFacts(st.g, NewValues(st.params, args), slots[0].reader);
    PatchNodeFacts(st.g, NewValues(st.params, args), ctx.opId);
  }

  lemma AfterRead(ctx: Ctx, st: State, outs: seq<Id>, slots: seq<Slot>, u: Slot, args: seq<Arg>)
    requires Ready(ctx, st, outs, slots) && slots != [] && ParamsBelow(st.params, st.g.next) && SlotsAlike(slots[0], u, args)
    requires Handleable(ctx, st.g, slots[0].reader, st.outIdx, ctx.Writes(slots[0]))
    requires HasNode(Repointed(st, args).g.nodes, u.reader)
    ensures var s := slots[0];
            var st1 := if ctx.Reads(s) then LowerRead(ctx, st, s) else st;
            && GraphReady(ctx, st1.g, outs, st.outIdx) && s.v in st1.g.inputs && ParamsBelow(st1.params, st1.g.next)
            && Repointed(st1, args) == if ctx.Reads(s) then LowerRead(ctx, Repointed(st, args), u) else Repointed(st, args)
  {
    var s := slots[0];
    assert SlotReady(st.g, s);
    if ctx.Reads(s) {
      AfterLowerRead(ctx, st, outs, s, []);
      ReadPatched(ctx, st, s, u, args);
    }
  }

  lemma AfterWrite(ctx: Ctx, st: State, outs: seq<Id>, s: Slot, u: Slot, args: seq<Arg>)
    requires GraphReady(ctx, st.g, outs, st.outIdx) && st.outIdx < |outs| && s.v in st.g.inputs
    requires ParamsBelow(st.params, st.g.next) && SlotsAlike(s, u, args)
    ensures var out, out0 := outs[st.outIdx], outs[0];
            && Repointed(LowerWrite(ctx, st, s, out, out0), args) == LowerWrite(ctx, Repointed(st, args), u, out, out0)
            && ParamsBelow(LowerWrite(ctx, st, s, out, out0).params, LowerWrite(ctx, st, s, out, out0).g.next)
  {
    AfterAddInsert(ctx, st.g, outs, st.outIdx, s, []);
    WritePatched(ctx, st, s, u, outs[st.outIdx], outs[0], args);
  }

  lemma SameDecisions(ctx: Ctx, s: Slot, u: Slot, args: seq<Arg>)
    requires SlotsAlike(s, u, args)
    ensures ctx.Writes(s) == ctx.Writes(u) && ctx.Reads(s) == ctx.Reads(u) && ctx.InplaceInput(s) == ctx.InplaceInput(u)
    ensures s.t.IsView() == u.t.IsView() && s.t.hpu == u.t.hpu
  {
  }

  /** A step on a view: the read, then the write, then the count. */
  lemma ViewStep(ctx: Ctx, st: State, s: Slot, outs: seq<Id>) returns (read: State)
    requires Handleable(ctx, st.g, s.reader, st.outIdx, ctx.Writes(s)) && outs == NodeAt(st.g, ctx.opId).outputs
    requires s.t.hpu && s.t.IsView()
    ensures read == if ctx.Reads(s) then LowerRead(ctx, st, s) else st
    ensures !ctx.Writes(s) ==> HandleSlot(ctx, st, s) == read
    ensures ctx.Writes(s) ==> HandleSlot(ctx, st, s) == LowerWrite(ctx, read, s, outs[st.outIdx], outs[0]).(outIdx := st.outIdx + 1)
  {
    read := if ctx.Reads(s) then LowerRead(ctx, st, s) else st;
  }

  lemma ViewSlotPatched(ctx: Ctx, st: State, read: State, outs: seq<Id>, s: Slot, u: Slot, args: seq<Arg>)
    requires SlotsAlike(s, u, args) && s.t.hpu && s.t.IsView()
    requires Handleable(ctx, st.g, s.reader, st.outIdx, ctx.Writes(s)) && NodeAt(st.g, ctx.opId).outputs == outs
    requires Handleable(ctx, Repointed(st, args).g, u.reader, st.outIdx, ctx.Writes(u)) && NodeAt(Repointed(st, args).g, ctx.opId).outputs == outs
    requires read == if ctx.Reads(s) then LowerRead(ctx, st, s) else st
    requires Repointed(read, args) == if ctx.Reads(u) then LowerRead(ctx, Repointed(st, args), u) else Repointed(st, args)
    requires GraphReady(ctx, read.g, outs, read.outIdx) && s.v in read.g.inputs && ParamsBelow(read.params, read.g.next)
    ensures Repointed(HandleSlot(ctx, st, s), args) == HandleSlot(ctx, Repointed(st, args), u)
    ensures ParamsBelow(HandleSlot(ctx, st, s).params, HandleSlot(ctx, st, s).g.next)
  {
    SameDecisions(ctx, s, u, args);
    var mine := ViewStep(ctx, st, s, outs);
    var other := ViewStep(ctx, Repointed(st, args), u, outs);
    if ctx.Writes(s) { AfterWrite(ctx, read, outs, s, u, args); }
  }

  /** One step of the pass commutes with patching. */
  lemma SlotPatched(ctx: Ctx, st: State, outs: seq<Id>, slots: seq<Slot>, u: Slot, args: seq<Arg>)
    requires Ready(ctx, st, outs, slots) && slots != [] && ParamsBelow(st.params, st.g.next) && SlotsAlike(slots[0], u, args)
    requires Handleable(ctx, st.g, slots[0].reader, st.outIdx, ctx.Writes(slots[0]))
    requires Handleable(ctx, Repointed(st, args).g, u.reader, st.outIdx, ctx.Writes(u))
    ensures Repointed(HandleSlot(ctx, st, slots[0]), args) == HandleSlot(ctx, Repointed(st, args), u)
    ensures ParamsBelow(HandleSlot(ctx, st, slots[0]).params, HandleSlot(ctx, st, slots[0]).g.next)
  {
    var s := slots[0];
    SameDecisions(ctx, s, u, args);
    if s.t.hpu && s.t.IsView() {
      StillHandleable(ctx, st, outs, slots, args);
      AfterRead(ctx, st, outs, slots, u, args);
      ViewSlotPatched(ctx, st, if ctx.Reads(s) then LowerRead(ctx, st, s) else st, outs, s, u, args);
    }
  }

  ghost predicate AllAlike(xs: seq<Slot>, ys: seq<Slot>, args: seq<Arg>) {
    |xs| == |ys| && forall i :: 0 <= i < |xs| ==> SlotsAlike(xs[i], ys[i], args)
  }

  lemma AlikeTails(xs: seq<Slot>, ys: seq<Slot>, args: seq<Arg>)
    requires AllAlike(xs, ys, args) && xs != []
    ensures SlotsAlike(xs[0], ys[0], args) && AllAlike(xs[1..], ys[1..], args)
  {
  }

  /** The pass over a stack, patched for another stack of its shape, is the pass over the other. */
  lemma {:induction false} LowerPatched(ctx: Ctx, st: State, outs: seq<Id>, xs: seq<Slot>, ys: seq<Slot>, args: seq<Arg>)
    requires Ready(ctx, st, outs, xs) && Ready(ctx, Repointed(st, args), outs, ys)
    requires ParamsBelow(st.params, st.g.next) && AllAlike(xs, ys, args)
    ensures Repointed(Lower(ctx, st, outs, xs), args) == Lower(ctx, Repointed(st, args), outs, ys)
    decreases |xs|
  {
    if xs != [] {
      AlikeTails(xs, ys, args);
      OthersDiffer(ctx, st, outs, xs);
      OthersDiffer(ctx, Repointed(st, args), outs, ys);
      SlotPatched(ctx, st, outs, xs, ys[0], args);
      ReadyStep(ctx, st, outs, xs);
      ReadyStep(ctx, Repointed(st, args), outs, ys);
      LowerPatched(ctx, HandleSlot(ctx, st, xs[0]), outs, xs[1..], ys[1..], args);
    }
  }

  lemma ParamsOfSlot(ctx: Ctx, st: State, s: Slot, u: Slot, args: seq<Arg>)
    requires HasNode(st.g.nodes, s.reader) && HasNode(st.g.nodes, ctx.opId)
    requires ctx.Writes(s) ==> st.outIdx < |NodeAt(st.g, ctx.opId).outputs|
    requires ParamsFit(st.params, args) && SlotsAlike(s, u, args)
    ensures ParamsFit(HandleSlot(ctx, st, s).params, args)
  {
    ParamsGrow(st.params, st.g.next, s, u, args);
    if ctx.Reads(s) {
      var read := LowerRead(ctx, st, s);
      ParamsGrow(read.params, read.g.next, s, u, args);
    }
  }

  lemma ParamsGrow(params: ParamMap, n: Id, s: Slot, u: Slot, args: seq<Arg>)
    requires ParamsFit(params, args) && SlotsAlike(s, u, args)
    ensures ParamsFit(ViewParams(params, n, s), args) && ParamsFit(InsertParams(params, n, s), args)
  {
    assert forall k: ParamType :: k != METADATA ==> ParamFits(Param(k, s.argIdx, s.readerIdx), args);
  }

  /** Every recorded parameter still names a tensor or constant of the other stack: process_node_params never asserts. */
  lemma {:induction false} LowerParamsFit(ctx: Ctx, st: State, outs: seq<Id>, xs: seq<Slot>, ys: seq<Slot>, args: seq<Arg>)
    requires Ready(ctx, st, outs, xs) && ParamsFit(st.params, args) && AllAlike(xs, ys, args)
    ensures ParamsFit(Lower(ctx, st, outs, xs).params, args)
    decreases |xs|
  {
    if xs != [] {
      AlikeTails(xs, ys, args);
      OthersDiffer(ctx, st, outs, xs);
      ParamsOfSlot(ctx, st, xs[0], ys[0], args);
      ReadyStep(ctx, st, outs, xs);
      LowerParamsFit(ctx, HandleSlot(ctx, st, xs[0]), outs, xs[1..], ys[1..], args);
    }
  }

  // --- the graph before the pass ---

  lemma {:induction false} SkeletonOfSameShape(args: seq<Arg>, more: seq<Arg>, n: Id, agnostic: bool)
    requires AllSameShape(args, more, agnostic)
    ensures TotalWidth(args) == TotalWidth(more)
    ensures Inputs(args, n) == Inputs(more, n) && NodeInputs(args, n) == NodeInputs(more, n)
    decreases |args|
  {
    if args != [] {
      FirstSkeleton(args, more, n, agnostic);
      SkeletonOfSameShape(args[1..], more[1..], n + Width(args[0]), agnostic);
    }
  }

  lemma FirstSkeleton(args: seq<Arg>, more: seq<Arg>, n: Id, agnostic: bool)
    requires args != [] && AllSameShape(args, more, agnostic)
    ensures more != [] && AllSameShape(args[1..], more[1..], agnostic)
    ensures Width(args[0]) == Width(more[0]) && ArgInputs(args[0], n) == ArgInputs(more[0], n) && ArgId(args[0], n) == ArgId(more[0], n)
  {
    assert SameShape(args[0], more[0], agnostic);
    forall i | 0 <= i < |args[1..]| ensures SameShape(args[1..][i], more[1..][i], agnostic) {
      assert SameShape(args[i + 1], more[i + 1], agnostic);
    }
  }

  lemma {:induction false} SameMetaParams(args: seq<Arg>, more: seq<Arg>, whole: seq<Arg>, idx: nat, n: Id, agnostic: bool)
    requires AllSameShape(args, more, agnostic) && idx + |more| == |whole| && more == whole[idx..]
    ensures MetaParams(args, idx, n, agnostic) == MetaParams(more, idx, n, agnostic)
    ensures ParamsFit(MetaParams(args, idx, n, agnostic), whole)
    ensures forall id :: id in MetaParams(args, idx, n, agnostic) ==> Between(id, n, n + TotalWidth(args))
    decreases |args|
  {
    if args != [] {
      assert SameShape(args[0], more[0], agnostic) && whole[idx] == more[0];
      assert more[1..] == whole[idx + 1..];
      SameMetaParams(args[1..], more[1..], whole, idx + 1, n + Width(args[0]), agnostic);
    }
  }

  /** The fixes restricted to the names of the arguments from idx on. */
  ghost predicate FixesFrom(fix: map<Id, IValue>, params: ParamMap, whole: seq<Arg>, n: Id) {
    && (forall id :: id in params && id >= n ==> id in fix && fix[id] == NewValue(params[id], whole))
    && (forall id :: id in fix && id >= n ==> id in params)
  }

  lemma FirstPatched(args: seq<Arg>, more: seq<Arg>, whole: seq<Arg>, idx: nat, n: Id, agnostic: bool, fix: map<Id, IValue>)
    requires args != [] && AllSameShape(args, more, agnostic) && idx + |more| == |whole| && more == whole[idx..]
    requires FixesFrom(fix, MetaParams(args, idx, n, agnostic), whole, n)
    ensures PatchNodes(ArgNodes(args[0], n), fix) == ArgNodes(more[0], n)
    ensures FixesFrom(fix, MetaParams(args[1..], idx + 1, n + Width(args[0]), agnostic), whole, n + Width(args[0]))
  {
    assert SameShape(args[0], more[0], agnostic) && whole[idx] == more[0];
    assert more[1..] == whole[idx + 1..];
    SameMetaParams(args[1..], more[1..], whole, idx + 1, n + Width(args[0]), agnostic);
    if args[0].Meta? {
      assert ParamFits(Param(METADATA, idx, idx), whole);
      if agnostic {
        assert n in MetaParams(args, idx, n, agnostic);
      } else {
        assert n !in MetaParams(args, idx, n, agnostic);
        assert n !in fix;
      }
    }
  }

  lemma {:induction false} NodesPatched(args: seq<Arg>, more: seq<Arg>, whole: seq<Arg>, idx: nat, n: Id, agnostic: bool,
                                        fix: map<Id, IValue>)
    requires AllSameShape(args, more, agnostic) && idx + |more| == |whole| && more == whole[idx..]
    requires FixesFrom(fix, MetaParams(args, idx, n, agnostic), whole, n)
    ensures PatchNodes(Nodes(args, n), fix) == Nodes(more, n)
    decreases |args|
  {
    if args != [] {
      var m := n + Width(args[0]);
      FirstPatched(args, more, whole, idx, n, agnostic, fix);
      assert more[1..] == whole[idx + 1..];
      NodesPatched(args[1..], more[1..], whole, idx + 1, m, agnostic, fix);
      assert SameShape(args[0], more[0], agnostic);
      PatchConcat(ArgNodes(args[0], n), Nodes(args[1..], m), fix);
    }
  }

  /** The fresh graph of a stack, patched for another stack of its shape. */
  lemma CreatedPatched(symbol: string, args: seq<Arg>, more: seq<Arg>, m: nat, agnostic: bool)
    requires AllSameShape(args, more, agnostic)
    ensures var st := InitialState(Created(symbol, args, m), MetaParams(args, 0, 0, agnostic));
            && Repointed(st, more) == InitialState(Created(symbol, more, m), MetaParams(more, 0, 0, agnostic))
            && ParamsBelow(st.params, st.g.next) && ParamsFit(st.params, more)
  {
    assert more[0..] == more;
    SkeletonOfSameShape(args, more, 0, agnostic);
    SameMetaParams(args, more, more, 0, 0, agnostic);
    CreatedNodesPatched(symbol, args, more, m, agnostic);
  }

  lemma CreatedNodesPatched(symbol: string, args: seq<Arg>, more: seq<Arg>, m: nat, agnostic: bool)
    requires AllSameShape(args, more, agnostic) && OpNode(symbol, args, m) == OpNode(symbol, more, m)
    ensures PatchNodes(Nodes(args, 0) + [OpNode(symbol, args, m)], NewValues(MetaParams(args, 0, 0, agnostic), more))
            == Nodes(more, 0) + [OpNode(symbol, more, m)]
  {
    var fix := NewValues(MetaParams(args, 0, 0, agnostic), more);
    assert more[0..] == more;
    NodesPatched(args, more, more, 0, 0, agnostic, fix);
    OpNodePatched(symbol, args, more, m, fix);
  }

  lemma OpNodePatched(symbol: string, args: seq<Arg>, more: seq<Arg>, m: nat, fix: map<Id, IValue>)
    requires PatchNodes(Nodes(args, 0), fix) == Nodes(more, 0) && OpNode(symbol, args, m) == OpNode(symbol, more, m)
    ensures PatchNodes(Nodes(args, 0) + [OpNode(symbol, args, m)], fix) == Nodes(more, 0) + [OpNode(symbol, more, m)]
  {
    PatchConcat(Nodes(args, 0), [OpNode(symbol, args, m)], fix);
    assert PatchNodes([OpNode(symbol, args, m)], fix) == [OpNode(symbol, more, m)];
  }

  // --- the cached graph ---

  lemma {:induction false} SameWrites(ctx: Ctx, xs: seq<Slot>, ys: seq<Slot>, args: seq<Arg>)
    requires AllAlike(xs, ys, args)
    ensures CountWrites(ctx, xs) == CountWrites(ctx, ys)
    decreases |xs|
  {
    if xs != [] {
      AlikeTails(xs, ys, args);
      SameDecisions(ctx, xs[0], ys[0], args);
      SameWrites(ctx, xs[1..], ys[1..], args);
    }
  }

  lemma AllSlotsAlike(op: OpInfo, args: seq<Arg>, more: seq<Arg>, m: nat, agnostic: bool)
    requires AllSameShape(args, more, agnostic)
    ensures AllAlike(AllSlots(args), AllSlots(more), more) && Context(op, args) == Context(op, more)
    ensures Accepted(op, args, m) <==> Accepted(op, more, m)
  {
    assert more[0..] == more;
    SkeletonOfSameShape(args, more, 0, agnostic);
    SlotCount(args, more, 0, 0, TotalWidth(args), agnostic);
    forall i | 0 <= i < |AllSlots(args)| ensures SlotsAlike(AllSlots(args)[i], AllSlots(more)[i], more) {
      SlotsOfSameShape(args, more, more, 0, 0, TotalWidth(args), agnostic, i);
    }
    SameWrites(Context(op, args), AllSlots(args), AllSlots(more), more);
  }

  lemma StatePatched(op: OpInfo, args: seq<Arg>, more: seq<Arg>, m: nat, agnostic: bool)
    requires AllSameShape(args, more, agnostic) && Accepted(op, args, m) && Accepted(op, more, m)
    ensures var st := LoweredState(op, args, m, MetaParams(args, 0, 0, agnostic));
            && ParamsFit(st.params, more)
            && Repointed(st, more) == LoweredState(op, more, m, MetaParams(more, 0, 0, agnostic))
  {
    var ctx, outs := Context(op, args), Range(TotalWidth(args) + 1, m);
    var st0 := InitialState(Created(op.symbol, args, m), MetaParams(args, 0, 0, agnostic));
    AllSlotsAlike(op, args, more, m, agnostic);
    CreatedPatched(op.symbol, args, more, m, agnostic);
    CreatedReady(op, args, m, MetaParams(args, 0, 0, agnostic));
    CreatedReady(op, more, m, MetaParams(more, 0, 0, agnostic));
    LowerPatched(ctx, st0, outs, AllSlots(args), AllSlots(more), more);
    LowerParamsFit(ctx, st0, outs, AllSlots(args), AllSlots(more), more);
  }

  /** The graph the miss path caches, before pruning, and its parameter map. */
  ghost function BuiltGraph(op: OpInfo, args: seq<Arg>, m: nat, agnostic: bool): Graph
    requires Accepted(op, args, m)
  {
    LoweredGraph(op, args, m, MetaParams(args, 0, 0, agnostic))
  }

  ghost function BuiltParams(op: OpInfo, args: seq<Arg>, m: nat, agnostic: bool): ParamMap
    requires Accepted(op, args, m)
  {
    LoweredState(op, args, m, MetaParams(args, 0, 0, agnostic)).params
  }

  /** A graph built from one stack and patched for another of the same shape is the graph
      a fresh build from the other stack gives, node for node. */
  lemma PatchedIsFresh(op: OpInfo, args: seq<Arg>, more: seq<Arg>, m: nat, agnostic: bool)
    requires AllSameShape(args, more, agnostic) && Accepted(op, args, m)
    ensures Accepted(op, more, m) && ParamsFit(BuiltParams(op, args, m, agnostic), more)
    ensures Patch(BuiltGraph(op, args, m, agnostic), NewValues(BuiltParams(op, args, m, agnostic), more))
            == BuiltGraph(op, more, m, agnostic)
    ensures BuiltParams(op, args, m, agnostic) == BuiltParams(op, more, m, agnostic)
  {
    AllSlotsAlike(op, args, more, m, agnostic);
    StatePatched(op, args, more, m, agnostic);
    var st := LoweredState(op, args, m, MetaParams(args, 0, 0, agnostic));
    StateIntact(op, args, m, MetaParams(args, 0, 0, agnostic));
    PatchTwin(Context(op, args), st.g, NewValues(st.params, more));
  }

  lemma StateIntact(op: OpInfo, args: seq<Arg>, m: nat, params: ParamMap)
    requires Accepted(op, args, m)
    ensures OpIntact(Context(op, args), LoweredState(op, args, m, params).g)
    ensures LoweredState(op, args, m, params).g.inputs == Inputs(args, 0)
  {
    var ctx := Context(op, args);
    var st0 := InitialState(Created(op.symbol, args, m), params);
    LoweredIntact(op, args, m, params);
    CreatedReady(op, args, m, params);
    LowerInputs(ctx, st0, Range(TotalWidth(args) + 1, m), AllSlots(args));
  }

  /** The pass never touches the graph inputs. */
  lemma {:induction false} LowerInputs(ctx: Ctx, st: State, outs: seq<Id>, slots: seq<Slot>)
    requires Ready(ctx, st, outs, slots)
    ensures Lower(ctx, st, outs, slots).g.inputs == st.g.inputs
    decreases |slots|
  {
    if slots != [] {
      ReadyStep(ctx, st, outs, slots);
      OthersDiffer(ctx, st, outs, slots);
      LowerInputs(ctx, HandleSlot(ctx, st, slots[0]), outs, slots[1..]);
    }
  }

  /** The same after pruning: what a cache hit runs is what a miss would have built. */
  lemma PatchedPrunedIsFresh(op: OpInfo, args: seq<Arg>, more: seq<Arg>, m: nat, agnostic: bool, parent: seq<nat>)
    requires AllSameShape(args, more, agnostic) && Accepted(op, args, m)
    requires |parent| == |Inputs(args, 0)| && ParentsValid(parent)
    ensures Accepted(op, more, m) && |Inputs(more, 0)| == |parent|
    ensures BuiltGraph(op, args, m, agnostic).inputs == Inputs(args, 0)
    ensures BuiltGraph(op, more, m, agnostic).inputs == Inputs(more, 0)
    ensures Patch(PrunedGraph(BuiltGraph(op, args, m, agnostic), parent), NewValues(BuiltParams(op, args, m, agnostic), more))
            == PrunedGraph(BuiltGraph(op, more, m, agnostic), parent)
  {
    PatchedIsFresh(op, args, more, m, agnostic);
    SkeletonOfSameShape(args, more, 0, agnostic);
    StateIntact(op, args, m, MetaParams(args, 0, 0, agnostic));
    StateIntact(op, more, m, MetaParams(more, 0, 0, agnostic));
    PatchMerge(BuiltGraph(op, args, m, agnostic), parent, NewValues(BuiltParams(op, args, m, agnostic), more), |parent|);
  }
}
