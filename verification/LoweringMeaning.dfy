/**
 The meaning of the lowered graph: swapping the in-place op for its out-of-place twin,
 and the theorem that running on base buffers gives the eager result, view by view.
 */
module LoweringMeaning {
  import opened IndexSpace
  import opened StridedViews
  import opened JitGraph
  import opened ViewLowering
  import opened EagerGraph

  // --- the op node through the pass ---

  ghost predicate NodeIntact(ctx: Ctx, d: Node) {
    if d.id == ctx.opId then d.kind == Aten(ctx.op.symbol) && |d.inputs| == ctx.numInputs else !d.kind.Aten?
  }

  /** The op node is the only operator of the graph and still has all its inputs. */
  ghost predicate OpIntact(ctx: Ctx, g: Graph) {
    forall i :: 0 <= i < |g.nodes| ==> NodeIntact(ctx, g.nodes[i])
  }

  lemma IntactAfterEdit(ctx: Ctx, g: Graph, e: Edit)
    requires OpIntact(ctx, g) && e.p <= |g.nodes|
    requires forall i :: 0 <= i < |e.block| ==> NodeIntact(ctx, e.block[i])
    ensures OpIntact(ctx, e.Apply(g))
  {
    var r, n := e.Apply(g), |e.block|;
    forall i | 0 <= i < |r.nodes| ensures NodeIntact(ctx, r.nodes[i]) {
      if i < e.p {
        assert r.nodes[i] == g.nodes[i];
      } else if i < e.p + n {
        assert r.nodes[i] == e.block[i - e.p];
      } else {
        assert NodeIntact(ctx, g.nodes[i - n]);
      }
    }
  }

  lemma IntactAfterSlot(ctx: Ctx, st: State, s: Slot)
    requires OpIntact(ctx, st.g) && ctx.opId < st.g.next
    requires HasNode(st.g.nodes, s.reader) && HasNode(st.g.nodes, ctx.opId)
    requires ctx.Writes(s) ==> st.outIdx < |NodeAt(st.g, ctx.opId).outputs|
    ensures OpIntact(ctx, HandleSlot(ctx, st, s).g) && ctx.opId < HandleSlot(ctx, st, s).g.next
  {
    if s.t.hpu && s.t.IsView() {
      var outs := NodeAt(st.g, ctx.opId).outputs;
      var st1 := if ctx.Reads(s) then LowerRead(ctx, st, s) else st;
      if ctx.Reads(s) {
        IntactAfterEdit(ctx, st.g, ViewEdit(st.g, NodeIndex(st.g.nodes, s.reader), s.v, s.t.view, ctx.MetaOnly(s)));
      }
      if ctx.Writes(s) {
        IntactAfterEdit(ctx, st1.g, InsertEdit(st1.g, s.v, outs[st.outIdx], s.t.view));
        if ctx.op.needsCast {
          var g := AddInsert(st1.g, s.v, outs[st.outIdx], s.t.view);
          IntactAfterEdit(ctx, g, CastEdit(g, outs[0], s.t.dtype));
        }
      }
    }
  }

  lemma {:induction false} LowerIntact(ctx: Ctx, st: State, outs: seq<Id>, slots: seq<Slot>)
    requires Ready(ctx, st, outs, slots) && OpIntact(ctx, st.g) && ctx.opId < st.g.next
    ensures OpIntact(ctx, Lower(ctx, st, outs, slots).g)
    decreases |slots|
  {
    if slots != [] {
      ReadyStep(ctx, st, outs, slots);
      OthersDiffer(ctx, st, outs, slots);
      IntactAfterSlot(ctx, st, slots[0]);
      LowerIntact(ctx, HandleSlot(ctx, st, slots[0]), outs, slots[1..]);
    }
  }

  // --- the counters that decide the replacement ---

  function CountInserts(ctx: Ctx, slots: seq<Slot>): nat {
    if slots == [] then 0 else (if ctx.Inserts(slots[0]) then 1 else 0) + CountInserts(ctx, slots[1..])
  }

  function CountOrdinary(ctx: Ctx, slots: seq<Slot>): nat {
    if slots == [] then 0
    else (if slots[0].t.hpu && !slots[0].t.IsView() && ctx.InplaceInput(slots[0]) then 1 else 0)
         + CountOrdinary(ctx, slots[1..])
  }

  lemma {:induction false} LowerCounts(ctx: Ctx, st: State, outs: seq<Id>, slots: seq<Slot>)
    requires Ready(ctx, st, outs, slots)
    ensures var r := Lower(ctx, st, outs, slots);
            r.inserts == st.inserts + CountInserts(ctx, slots) && r.ordinary == st.ordinary + CountOrdinary(ctx, slots)
    decreases |slots|
  {
    if slots != [] {
      var s, rest := slots[0], slots[1..];
      ReadyStep(ctx, st, outs, slots);
      OthersDiffer(ctx, st, outs, slots);
      var next := HandleSlot(ctx, st, s);
      SlotCounts(ctx, st, s, next);
      LowerCounts(ctx, next, outs, rest);
    }
  }

  lemma SlotCounts(ctx: Ctx, st: State, s: Slot, next: State)
    requires HasNode(st.g.nodes, s.reader) && HasNode(st.g.nodes, ctx.opId)
    requires ctx.Writes(s) ==> st.outIdx < |NodeAt(st.g, ctx.opId).outputs|
    requires next == HandleSlot(ctx, st, s)
    ensures next.inserts == st.inserts + if ctx.Inserts(s) then 1 else 0
    ensures next.ordinary == st.ordinary + if s.t.hpu && !s.t.IsView() && ctx.InplaceInput(s) then 1 else 0
  {
  }

  // --- the twin ---

  /** The inputs of the replacement: the first one always, then all but the trailing outs. */
  function Kept<T>(s: seq<T>, numOut: nat): seq<T> {
    if s == [] then [] else if numOut < |s| then s[..|s| - numOut] else s[..1]
  }

  function Replaced(ctx: Ctx, g: Graph): Graph {
    g.(nodes := TwinNodes(ctx, g.nodes))
  }

  function TwinNodes(ctx: Ctx, nodes: seq<Node>): seq<Node> {
    seq(|nodes|, i requires 0 <= i < |nodes| => TwinNode(ctx, nodes[i]))
  }

  /** The new node takes over the outputs of the old one (all uses are redirected, the old node destroyed). */
  function TwinNode(ctx: Ctx, d: Node): Node {
    if d.id == ctx.opId then d.(kind := Aten(ctx.op.twin), inputs := Kept(d.inputs, ctx.op.numOut)) else d
  }

  predicate Replaces(ctx: Ctx, inserts: nat, ordinary: nat) {
    inserts > 0 && ordinary == 0 && !ctx.op.ignoresInput && ctx.op.numOut <= 1
  }

  /** The graph HandleInputOutputViews leaves behind. */
  function Finished(ctx: Ctx, st: State): Graph {
    if Replaces(ctx, st.inserts, st.ordinary) then Replaced(ctx, st.g) else st.g
  }

  /** Semantics in which the op itself computes what its twin computes. */
  ghost function TwinSem(ctx: Ctx, sem: Sem): Sem {
    sem.(op := (name: string, a: seq<Value>) =>
      if name == ctx.op.symbol then sem.op(ctx.op.twin, Kept(a, ctx.op.numOut)) else sem.op(name, a))
  }

  lemma TwinStep(ctx: Ctx, sem: Sem, d: Node, env: Env)
    requires NodeIntact(ctx, d)
    ensures Step(sem, TwinNode(ctx, d), env) == Step(TwinSem(ctx, sem), d, env)
  {
    var a := Args(env, d.inputs);
    if d.id == ctx.opId {
      assert Args(env, Kept(d.inputs, ctx.op.numOut)) == Kept(a, ctx.op.numOut);
    } else {
      OtherNodesSame(ctx, sem, d.kind, a);
    }
  }

  lemma OtherNodesSame(ctx: Ctx, sem: Sem, kind: Kind, a: seq<Value>)
    requires !kind.Aten?
    ensures EvalNode(TwinSem(ctx, sem), kind, a) == EvalNode(sem, kind, a)
  {
  }

  lemma {:induction false} TwinEval(ctx: Ctx, sem: Sem, nodes: seq<Node>, env: Env)
    requires forall i :: 0 <= i < |nodes| ==> NodeIntact(ctx, nodes[i])
    ensures Eval(sem, TwinNodes(ctx, nodes), env) == Eval(TwinSem(ctx, sem), nodes, env)
    decreases |nodes|
  {
    if nodes != [] {
      TwinStep(ctx, sem, nodes[0], env);
      assert TwinNodes(ctx, nodes)[1..] == TwinNodes(ctx, nodes[1..]);
      TwinEval(ctx, sem, nodes[1..], Step(TwinSem(ctx, sem), nodes[0], env));
    }
  }

  lemma ReplacedMeaning(ctx: Ctx, sem: Sem, g: Graph, env: Env)
    requires OpIntact(ctx, g)
    ensures Run(sem, Replaced(ctx, g), env) == Run(TwinSem(ctx, sem), g, env)
  {
    TwinEval(ctx, sem, g.nodes, env);
  }

  // --- buffers and tensors ---

  /** Each storage's elements, and the sizes its base tensor is presented with. */
  datatype Mem = Mem(data: map<nat, seq<int>>, sizes: map<nat, seq<nat>>)

  ghost predicate Held(t: TensorArg, mem: Mem) {
    t.storage in mem.data && t.storage in mem.sizes && Fits(t.view, |mem.data[t.storage]|)
  }

  ghost predicate ArgHeld(a: Arg, mem: Mem) {
    match a
    case One(t) => Held(t, mem)
    case Many(ts) => forall j :: 0 <= j < |ts| ==> Held(ts[j], mem)
    case _ => true
  }

  ghost predicate AllHeld(args: seq<Arg>, mem: Mem) {
    forall i :: 0 <= i < |args| ==> ArgHeld(args[i], mem)
  }

  /** The tensor as eager code sees it. */
  ghost function TensorValue(t: TensorArg, mem: Mem): Value
    requires Held(t, mem)
  {
    Tensor(t.dtype, t.view.sizes, ReadView(mem.data[t.storage], t.view))
  }

  /** The buffer bound to the graph input: the whole base for a lowered view. */
  ghost function BaseValue(t: TensorArg, mem: Mem): Value
    requires Held(t, mem)
  {
    if t.hpu && t.IsView() then Tensor(t.dtype, mem.sizes[t.storage], mem.data[t.storage]) else TensorValue(t, mem)
  }

  ghost function EagerValue(a: Arg, mem: Mem): Value
    requires ArgHeld(a, mem)
  {
    match a
    case One(t) => TensorValue(t, mem)
    case Many(ts) => List(seq(|ts|, j requires 0 <= j < |ts| => TensorValue(ts[j], mem)))
    case Scalar(c) => Const(c)
    case Meta(c) => Const(c)
  }

  /** The arguments the eager op is called on. */
  ghost function EagerValues(args: seq<Arg>, mem: Mem): (r: seq<Value>)
    requires AllHeld(args, mem)
    ensures |r| == |args|
  {
    seq(|args|, i requires 0 <= i < |args| => EagerValue(args[i], mem))
  }

  ghost predicate BoundArg(a: Arg, n: Id, env: Env, mem: Mem)
    requires ArgHeld(a, mem)
  {
    match a
    case One(t) => Lookup(env, n) == BaseValue(t, mem)
    case Many(ts) => forall j :: 0 <= j < |ts| ==> Lookup(env, n + j) == BaseValue(ts[j], mem)
    case Scalar(c) => Lookup(env, n) == Const(c)
    case Meta(_) => true
  }

  /** The graph inputs are bound to the base buffers. */
  ghost predicate Bound(args: seq<Arg>, n: Id, env: Env, mem: Mem)
    requires AllHeld(args, mem)
    decreases |args|
  {
    args == [] || (BoundArg(args[0], n, env, mem) && Bound(args[1..], n + Width(args[0]), env, mem))
  }

  // --- what the op node sees ---

  ghost function SeenTensor(ctx: Ctx, sem: Sem, t: TensorArg, idx: nat, mem: Mem): Value
    requires Held(t, mem)
  {
    var s := Slot(t, 0, 0, idx, 0);
    if ctx.Reads(s) then ViewValue(ctx, sem, s, BaseValue(t, mem)) else BaseValue(t, mem)
  }

  ghost function SeenValue(ctx: Ctx, sem: Sem, a: Arg, idx: nat, mem: Mem): Value
    requires ArgHeld(a, mem)
  {
    match a
    case One(t) => SeenTensor(ctx, sem, t, idx, mem)
    case Many(ts) => List(seq(|ts|, j requires 0 <= j < |ts| => SeenTensor(ctx, sem, ts[j], idx, mem)))
    case Scalar(c) => Const(c)
    case Meta(c) => Const(c)
  }

  lemma {:induction false} SeenAt(ctx: Ctx, sem: Sem, slots: seq<Slot>, env: Env, i: nat)
    requires i < |slots| && forall j, k :: 0 <= j < k < |slots| ==> slots[j].v != slots[k].v
    ensures Lookup(Seen(ctx, sem, slots, env), slots[i].v)
            == if ctx.Reads(slots[i]) then ViewValue(ctx, sem, slots[i], Lookup(env, slots[i].v)) else Lookup(env, slots[i].v)
    decreases |slots|
  {
    if i == 0 {
      SeenElsewhere(ctx, sem, slots[1..], env, slots[0].v);
    } else {
      SeenAt(ctx, sem, slots[1..], env, i - 1);
    }
  }

  /** Every argument position of the op holds its seen value. */
  lemma {:induction false} SeenArg(ctx: Ctx, sem: Sem, args: seq<Arg>, idx: nat, n: Id, pre: seq<Slot>, all: seq<Slot>,
                                   env: Env, mem: Mem, i: nat, at: nat)
    requires AllHeld(args, mem) && Bound(args, n, env, mem) && i < |args| && at == idx + i
    requires forall i :: 0 <= i < |pre| ==> pre[i].v < n
    requires forall i, j :: 0 <= i < j < |pre| ==> pre[i].v < pre[j].v
    requires all == pre + Slots(args, idx, n, ctx.opId)
    ensures ArgValues(args, n, Seen(ctx, sem, all, env))[i] == SeenValue(ctx, sem, args[i], at, mem)
    decreases |args|
  {
    if i == 0 {
      SeenFirst(ctx, sem, args, idx, n, pre, env, mem);
      FirstArgAt(args, n, Seen(ctx, sem, all, env));
    } else {
      var rest, m, j := args[1..], n + Width(args[0]), i - 1;
      var first := ArgSlots(args[0], idx, n, ctx.opId);
      StillIncreasing(args[0], idx, n, m, ctx.opId, pre);
      RestHeld(args, rest, n, m, env, mem);
      SlotsRegrouped(args, rest, idx, n, m, ctx.opId, pre, all);
      SeenArg(ctx, sem, rest, idx + 1, m, pre + first, all, env, mem, j, at);
      LaterArgAt(args, rest, n, m, Seen(ctx, sem, all, env), i, j);
    }
  }

  lemma SlotsRegrouped(args: seq<Arg>, rest: seq<Arg>, idx: nat, n: Id, m: Id, opId: Id, pre: seq<Slot>, all: seq<Slot>)
    requires args != [] && rest == args[1..] && m == n + Width(args[0]) && all == pre + Slots(args, idx, n, opId)
    ensures all == (pre + ArgSlots(args[0], idx, n, opId)) + Slots(rest, idx + 1, m, opId)
  {
    SlotsOfCons(args, rest, idx, n, m, opId);
  }

  lemma FirstArgAt(args: seq<Arg>, n: Id, e: Env)
    requires args != []
    ensures ArgValues(args, n, e)[0] == ArgValue(args[0], n, e)
  {
  }

  lemma RestHeld(args: seq<Arg>, rest: seq<Arg>, n: Id, m: Id, env: Env, mem: Mem)
    requires args != [] && rest == args[1..] && m == n + Width(args[0]) && AllHeld(args, mem) && Bound(args, n, env, mem)
    ensures AllHeld(rest, mem) && Bound(rest, m, env, mem)
  {
    forall i | 0 <= i < |rest| ensures ArgHeld(rest[i], mem) {
      assert ArgHeld(args[i + 1], mem);
    }
  }

  lemma StillIncreasing(a: Arg, idx: nat, n: Id, m: Id, opId: Id, pre: seq<Slot>)
    requires m == n + Width(a)
    requires forall i :: 0 <= i < |pre| ==> pre[i].v < n
    requires forall i, j :: 0 <= i < j < |pre| ==> pre[i].v < pre[j].v
    ensures var all := pre + ArgSlots(a, idx, n, opId);
            && (forall i :: 0 <= i < |all| ==> all[i].v < m)
            && (forall i, j :: 0 <= i < j < |all| ==> all[i].v < all[j].v)
  {
    FirstSlotsIncrease(a, idx, n, opId);
  }

  lemma FirstSlotsIncrease(a: Arg, idx: nat, n: Id, opId: Id)
    ensures var first := ArgSlots(a, idx, n, opId);
            forall k :: 0 <= k < |first| ==> first[k].v == n + k && n + k < n + Width(a)
  {
    var first := ArgSlots(a, idx, n, opId);
    forall k | 0 <= k < |first| ensures first[k].v == n + k && k < Width(a) {
      match a {
        case One(t) => assert first == [Slot(t, opId, idx, idx, n)];
        case Many(ts) => assert first[k] == Slot(ts[k], n + |ts|, k, idx, n + k);
        case _ =>
      }
    }
  }

  lemma LaterArgAt(args: seq<Arg>, rest: seq<Arg>, n: Id, m: Id, e: Env, i: nat, j: nat)
    requires i < |args| && i == j + 1 && rest == args[1..] && m == n + Width(args[0])
    ensures args[i] == rest[j] && ArgValues(args, n, e)[i] == ArgValues(rest, m, e)[j]
  {
  }

  lemma SeenFirst(ctx: Ctx, sem: Sem, args: seq<Arg>, idx: nat, n: Id, pre: seq<Slot>, env: Env, mem: Mem)
    requires args != [] && AllHeld(args, mem) && Bound(args, n, env, mem)
    requires forall i :: 0 <= i < |pre| ==> pre[i].v < n
    requires forall i, j :: 0 <= i < j < |pre| ==> pre[i].v < pre[j].v
    ensures ArgValue(args[0], n, Seen(ctx, sem, pre + Slots(args, idx, n, ctx.opId), env))
            == SeenValue(ctx, sem, args[0], idx, mem)
  {
    assert ArgHeld(args[0], mem) && BoundArg(args[0], n, env, mem);
    match args[0] {
      case One(t) => SeenFirstSlot(ctx, sem, args, idx, n, pre, env, 0);
      case Many(ts) => SeenFirstList(ctx, sem, args, idx, n, pre, env, mem);
      case Scalar(c) => ScalarUnseen(ctx, sem, args, idx, n, pre, env);
      case Meta(c) =>
    }
  }

  lemma SeenFirstList(ctx: Ctx, sem: Sem, args: seq<Arg>, idx: nat, n: Id, pre: seq<Slot>, env: Env, mem: Mem)
    requires args != [] && args[0].Many? && ArgHeld(args[0], mem) && BoundArg(args[0], n, env, mem)
    requires forall i :: 0 <= i < |pre| ==> pre[i].v < n
    requires forall i, j :: 0 <= i < j < |pre| ==> pre[i].v < pre[j].v
    ensures var ts := args[0].ts;
            Args(Seen(ctx, sem, pre + Slots(args, idx, n, ctx.opId), env), Range(n, |ts|))
            == seq(|ts|, j requires 0 <= j < |ts| => SeenTensor(ctx, sem, ts[j], idx, mem))
  {
    var e := Seen(ctx, sem, pre + Slots(args, idx, n, ctx.opId), env);
    forall j | 0 <= j < |args[0].ts| ensures Lookup(e, n + j) == SeenTensor(ctx, sem, args[0].ts[j], idx, mem) {
      SeenFirstSlot(ctx, sem, args, idx, n, pre, env, j);
    }
  }

  lemma SeenFirstSlot(ctx: Ctx, sem: Sem, args: seq<Arg>, idx: nat, n: Id, pre: seq<Slot>, env: Env, j: nat)
    requires args != [] && j < |ArgSlots(args[0], idx, n, ctx.opId)|
    requires forall i :: 0 <= i < |pre| ==> pre[i].v < n
    requires forall i, j :: 0 <= i < j < |pre| ==> pre[i].v < pre[j].v
    ensures var s := ArgSlots(args[0], idx, n, ctx.opId)[j];
            s.v == n + j
            && Lookup(Seen(ctx, sem, pre + Slots(args, idx, n, ctx.opId), env), n + j)
               == if ctx.Reads(s) then ViewValue(ctx, sem, s, Lookup(env, n + j)) else Lookup(env, n + j)
  {
    var slots := Slots(args, idx, n, ctx.opId);
    SlotsIncrease(args, idx, n, ctx.opId);
    assert slots[j] == ArgSlots(args[0], idx, n, ctx.opId)[j];
    SeenSlot(ctx, sem, pre, slots, env, j);
  }

  lemma SeenSlot(ctx: Ctx, sem: Sem, pre: seq<Slot>, slots: seq<Slot>, env: Env, k: nat)
    requires k < |slots|
    requires forall i, j :: 0 <= i < j < |pre| ==> pre[i].v < pre[j].v
    requires forall i, j :: 0 <= i < j < |slots| ==> slots[i].v < slots[j].v
    requires forall i, j :: 0 <= i < |pre| && 0 <= j < |slots| ==> pre[i].v < slots[j].v
    ensures Lookup(Seen(ctx, sem, pre + slots, env), slots[k].v)
            == if ctx.Reads(slots[k]) then ViewValue(ctx, sem, slots[k], Lookup(env, slots[k].v)) else Lookup(env, slots[k].v)
  {
    assert (pre + slots)[|pre| + k] == slots[k];
    SeenAt(ctx, sem, pre + slots, env, |pre| + k);
  }

  lemma ScalarUnseen(ctx: Ctx, sem: Sem, args: seq<Arg>, idx: nat, n: Id, pre: seq<Slot>, env: Env)
    requires args != [] && args[0].Scalar?
    requires forall i :: 0 <= i < |pre| ==> pre[i].v < n
    ensures Lookup(Seen(ctx, sem, pre + Slots(args, idx, n, ctx.opId), env), n) == Lookup(env, n)
  {
    var later := Slots(args[1..], idx + 1, n + 1, ctx.opId);
    SlotsIncrease(args[1..], idx + 1, n + 1, ctx.opId);
    assert Slots(args, idx, n, ctx.opId) == later;
    SeenElsewhere(ctx, sem, pre + later, env, n);
  }

  lemma ViewOfBase(ctx: Ctx, kernels: Kernels, t: TensorArg, idx: nat, mem: Mem)
    requires Held(t, mem) && !(ctx.op.ignoresInput && idx == 0)
    requires ctx.IsOut(Slot(t, 0, 0, idx, 0)) && t.hpu && t.IsView() ==> ctx.op.numOut > 1
    ensures SeenTensor(ctx, MakeSem(kernels), t, idx, mem) == TensorValue(t, mem)
  {
  }

  predicate HasLoweredView(a: Arg) {
    match a
    case One(t) => t.hpu && t.IsView()
    case Many(ts) => exists j :: 0 <= j < |ts| && ts[j].hpu && ts[j].IsView()
    case _ => false
  }

  predicate OutArg(ctx: Ctx, idx: nat) { idx + ctx.op.numOut >= ctx.numInputs }

  /** An argument is seen as eager code sees it, unless its contents are ignored or it is a
      lone lowered out argument, which the op node still receives as a base. */
  lemma SeenAsEager(ctx: Ctx, kernels: Kernels, a: Arg, idx: nat, mem: Mem)
    requires ArgHeld(a, mem) && !(ctx.op.ignoresInput && idx == 0)
    requires OutArg(ctx, idx) && HasLoweredView(a) ==> ctx.op.numOut > 1
    ensures SeenValue(ctx, MakeSem(kernels), a, idx, mem) == EagerValue(a, mem)
  {
    match a {
      case One(t) => ViewOfBase(ctx, kernels, t, idx, mem);
      case Many(ts) =>
        forall j | 0 <= j < |ts| ensures SeenTensor(ctx, MakeSem(kernels), ts[j], idx, mem) == TensorValue(ts[j], mem) {
          ViewOfBase(ctx, kernels, ts[j], idx, mem);
        }
      case _ =>
    }
  }

  lemma {:induction false} CountConcat(ctx: Ctx, a: seq<Slot>, b: seq<Slot>)
    ensures CountInserts(ctx, a + b) == CountInserts(ctx, a) + CountInserts(ctx, b)
    decreases |a|
  {
    if a == [] {
      assert a + b == b;
    } else {
      assert (a + b)[1..] == a[1..] + b;
      CountConcat(ctx, a[1..], b);
    }
  }

  lemma {:induction false} CountPositive(ctx: Ctx, slots: seq<Slot>, i: nat)
    requires i < |slots| && ctx.Inserts(slots[i])
    ensures CountInserts(ctx, slots) > 0
    decreases |slots|
  {
    if i > 0 { CountPositive(ctx, slots[1..], i - 1); }
  }

  /** A lowered out argument is always counted as an insert. */
  lemma {:induction false} OutViewCounted(ctx: Ctx, args: seq<Arg>, idx: nat, n: Id, i: nat)
    requires i < |args| && OutArg(ctx, idx + i) && HasLoweredView(args[i])
    ensures CountInserts(ctx, Slots(args, idx, n, ctx.opId)) > 0
    decreases |args|
  {
    var first, later := ArgSlots(args[0], idx, n, ctx.opId), Slots(args[1..], idx + 1, n + Width(args[0]), ctx.opId);
    CountConcat(ctx, first, later);
    if i > 0 {
      OutViewCounted(ctx, args[1..], idx + 1, n + Width(args[0]), i - 1);
    } else {
      var j := match args[0] case Many(ts) => (var j :| 0 <= j < |ts| && ts[j].hpu && ts[j].IsView(); j) case _ => 0;
      CountPositive(ctx, first, j);
    }
  }

  lemma {:induction false} OnlyInplaceCounts(ctx: Ctx, slots: seq<Slot>)
    requires ctx.op.kind != Inplace
    ensures CountOrdinary(ctx, slots) == 0
  {
    if slots != [] { OnlyInplaceCounts(ctx, slots[1..]); }
  }

  // --- the written tensors, in output order ---

  function WrittenSlots(ctx: Ctx, slots: seq<Slot>): (r: seq<Slot>)
    ensures |r| == CountWrites(ctx, slots)
  {
    if slots == [] then []
    else (if ctx.Writes(slots[0]) then [slots[0]] else []) + WrittenSlots(ctx, slots[1..])
  }

  /** Output k of the lowered graph: the k-th written tensor's base with the view's positions
      replaced, or the plain result when that tensor is no view. */
  lemma {:induction false} WrittenAt(ctx: Ctx, sem: Sem, slots: seq<Slot>, env: Env, vals: seq<Value>, from: nat, k: nat)
    requires from + CountWrites(ctx, slots) <= |vals| && k < |vals|
    ensures var ws := WrittenSlots(ctx, slots);
            Written(ctx, sem, slots, env, vals, from)[k]
            == if from <= k < from + |ws| && ws[k - from].t.IsView()
               then Stored(ctx, sem, ws[k - from], Lookup(env, ws[k - from].v), vals[k])
               else vals[k]
    decreases |slots|
  {
    if slots != [] {
      var s := slots[0];
      var next := if ctx.Inserts(s) && from < |vals| then vals[from := Stored(ctx, sem, s, Lookup(env, s.v), vals[from])] else vals;
      WrittenAt(ctx, sem, slots[1..], env, next, from + if ctx.Writes(s) then 1 else 0, k);
    }
  }

  lemma FirstSlotBound(a: Arg, idx: nat, n: Id, opId: Id, env: Env, mem: Mem, i: nat)
    requires ArgHeld(a, mem) && BoundArg(a, n, env, mem) && i < |ArgSlots(a, idx, n, opId)|
    ensures var s := ArgSlots(a, idx, n, opId)[i];
            Held(s.t, mem) && Lookup(env, s.v) == BaseValue(s.t, mem)
  {
  }

  lemma {:induction false} SlotBound(args: seq<Arg>, idx: nat, n: Id, opId: Id, env: Env, mem: Mem, i: nat)
    requires AllHeld(args, mem) && Bound(args, n, env, mem) && i < |Slots(args, idx, n, opId)|
    ensures var s := Slots(args, idx, n, opId)[i];
            Held(s.t, mem) && Lookup(env, s.v) == BaseValue(s.t, mem)
    decreases |args|
  {
    var rest, m, first := args[1..], n + Width(args[0]), ArgSlots(args[0], idx, n, opId);
    SlotsOfCons(args, rest, idx, n, m, opId);
    if i < |first| {
      FirstSlotBound(args[0], idx, n, opId, env, mem, i);
    } else {
      var j := i - |first|;
      SlotLater(Slots(args, idx, n, opId), first, Slots(rest, idx + 1, m, opId), i, j);
      RestHeld(args, rest, n, m, env, mem);
      SlotBound(rest, idx + 1, m, opId, env, mem, j);
    }
  }

  lemma {:induction false} WrittenIsSlot(ctx: Ctx, slots: seq<Slot>, k: nat) returns (i: nat)
    requires k < |WrittenSlots(ctx, slots)|
    ensures i < |slots| && slots[i] == WrittenSlots(ctx, slots)[k] && ctx.Writes(slots[i])
    decreases |slots|
  {
    if ctx.Writes(slots[0]) && k == 0 {
      i := 0;
    } else {
      i := WrittenIsSlot(ctx, slots[1..], if ctx.Writes(slots[0]) then k - 1 else k);
      i := i + 1;
    }
  }

  // --- the theorem ---

  ghost function CastTo(ctx: Ctx, kernels: Kernels, dtypes: seq<nat>, k: nat, v: Value): Value {
    if ctx.op.needsCast && k < |dtypes| then kernels.cast(dtypes[k], v) else v
  }

  /** What the eager library promises about this call: the op returns m results; where the op is
      replaced, they are its twin's, cast to the written tensor's dtype for ops of the cast table;
      where it stays, a result stored through a view already has that dtype; and an op that ignores
      its first argument computes the same whatever elements that holds. */
  ghost predicate OpLaws(op: OpInfo, args: seq<Arg>, m: nat, kernels: Kernels, mem: Mem)
    requires AllHeld(args, mem)
  {
    var eager := EagerValues(args, mem);
    && |kernels.op(op.symbol, eager)| == m
    && (IsReplaced(op, args) ==> TwinAgrees(op, args, m, kernels, eager))
    && (!IsReplaced(op, args) ==> OwnDtype(op, args, m, kernels, eager))
    && (op.ignoresInput ==> FirstIgnored(op, kernels, eager))
  }

  /** The decision of HandleInputOutputViews, in terms of the call. */
  predicate IsReplaced(op: OpInfo, args: seq<Arg>) {
    Replaces(Context(op, args), CountInserts(Context(op, args), AllSlots(args)), CountOrdinary(Context(op, args), AllSlots(args)))
  }

  /** The arguments of the out-of-place op: all but the trailing outs. */
  function WithoutOuts(eager: seq<Value>, numOut: nat): seq<Value> { if numOut <= |eager| then eager[..|eager| - numOut] else [] }

  ghost predicate TwinAgrees(op: OpInfo, args: seq<Arg>, m: nat, kernels: Kernels, eager: seq<Value>) {
    var ctx := Context(op, args);
    var dtypes := Dtypes(WrittenSlots(ctx, AllSlots(args)));
    var mine, twins := kernels.op(op.symbol, eager), kernels.op(op.twin, WithoutOuts(eager, op.numOut));
    m <= |mine| && m <= |twins| && forall k :: 0 <= k < m ==> mine[k] == CastTo(ctx, kernels, dtypes, k, twins[k])
  }

  ghost predicate OwnDtype(op: OpInfo, args: seq<Arg>, m: nat, kernels: Kernels, eager: seq<Value>) {
    var ctx := Context(op, args);
    var ws := WrittenSlots(ctx, AllSlots(args));
    var mine := kernels.op(op.symbol, eager);
    m <= |mine| && forall k :: 0 <= k < m && k < |ws| && ws[k].t.IsView() ==> CastTo(ctx, kernels, Dtypes(ws), k, mine[k]) == mine[k]
  }

  /** Tensors of one dtype, sizes and number of elements, or lists of such; anything else only if equal. */
  ghost predicate SameMold(a: Value, b: Value) {
    match (a, b)
    case (Tensor(_, _, _), Tensor(_, _, _)) => SameTensorMold(a, b)
    case (List(xs), List(ys)) => |xs| == |ys| && forall i :: 0 <= i < |xs| ==> SameTensorMold(xs[i], ys[i])
    case _ => a == b
  }

  ghost predicate SameTensorMold(a: Value, b: Value) {
    a.Tensor? && b.Tensor? && a.dtype == b.dtype && a.sizes == b.sizes && |a.data| == |b.data|
  }

  /** The results depend on the first argument only through its dtype and sizes. */
  ghost predicate FirstIgnored(op: OpInfo, kernels: Kernels, eager: seq<Value>) {
    forall other: seq<Value> :: |other| == |eager| && other != [] && other[1..] == eager[1..] && SameMold(other[0], eager[0]) ==>
      kernels.op(op.symbol, other) == kernels.op(op.symbol, eager)
  }

  /** The laws hold of an op that overwrites its first tensor with one number. */
  lemma FillingObeysLaws(op: OpInfo, args: seq<Arg>, kernels: Kernels, mem: Mem, c: int)
    requires AllHeld(args, mem) && op.ignoresInput && !op.needsCast && args != [] && args[0].One?
    requires forall a: seq<Value> :: a != [] && a[0].Tensor? ==> kernels.op(op.symbol, a) == [Filled(a[0], c)]
    ensures OpLaws(op, args, 1, kernels, mem)
  {
  }

  function Filled(v: Value, c: int): Value
    requires v.Tensor?
  {
    Tensor(v.dtype, v.sizes, seq(|v.data|, _ => c))
  }

  /** The same of an op over a list, which overwrites every tensor of the list. */
  lemma FillingListObeysLaws(op: OpInfo, args: seq<Arg>, kernels: Kernels, mem: Mem, c: int)
    requires AllHeld(args, mem) && op.ignoresInput && !op.needsCast && args != [] && args[0].Many?
    requires forall a: seq<Value> :: a != [] && a[0].List? && AllTensors(a[0].items) ==> kernels.op(op.symbol, a) == FilledAll(a[0].items, c)
    ensures OpLaws(op, args, |args[0].ts|, kernels, mem)
  {
    var eager := EagerValues(args, mem);
    assert eager[0] == EagerValue(args[0], mem);
    assert AllTensors(eager[0].items);
    forall other: seq<Value> | |other| == |eager| && other != [] && other[1..] == eager[1..] && SameMold(other[0], eager[0])
      ensures kernels.op(op.symbol, other) == kernels.op(op.symbol, eager)
    {
      MoldFillsAlike(other[0].items, eager[0].items, c);
    }
  }

  ghost predicate AllTensors(s: seq<Value>) { forall i :: 0 <= i < |s| ==> s[i].Tensor? }

  function FilledAll(s: seq<Value>, c: int): (r: seq<Value>)
    requires AllTensors(s)
    ensures |r| == |s| && forall i :: 0 <= i < |s| ==> r[i] == Filled(s[i], c)
  {
    seq(|s|, i requires 0 <= i < |s| => Filled(s[i], c))
  }

  lemma MoldFillsAlike(xs: seq<Value>, ys: seq<Value>, c: int)
    requires |xs| == |ys| && forall i :: 0 <= i < |xs| ==> SameTensorMold(xs[i], ys[i])
    ensures AllTensors(xs) && AllTensors(ys) && FilledAll(xs, c) == FilledAll(ys, c)
  {
    forall i | 0 <= i < |xs| ensures xs[i].Tensor? && ys[i].Tensor? && Filled(xs[i], c) == Filled(ys[i], c) {
      assert SameTensorMold(xs[i], ys[i]);
    }
  }

  /** The laws hold of a promoting op whose result takes the dtype of the tensor it is written to,
      as long as casting twice to one dtype is casting once. */
  lemma PromotionObeysLaws(op: OpInfo, args: seq<Arg>, kernels: Kernels, mem: Mem, d: nat)
    requires AllHeld(args, mem) && op.needsCast && !op.ignoresInput
    requires var ws := WrittenSlots(Context(op, args), AllSlots(args)); ws != [] && ws[0].t.dtype == d
    requires forall v: Value :: kernels.cast(d, kernels.cast(d, v)) == kernels.cast(d, v)
    requires var twins := kernels.op(op.twin, WithoutOuts(EagerValues(args, mem), op.numOut));
             twins != [] && kernels.op(op.symbol, EagerValues(args, mem)) == [kernels.cast(d, twins[0])]
    ensures OpLaws(op, args, 1, kernels, mem)
  {
  }

  /** Op kinds as their constructors build them: only out variants have trailing outs. */
  predicate Consistent(op: OpInfo) {
    op.numOut > 0 ==> op.kind == InplaceOut && !op.ignoresInput
  }

  /** The state after the last tensor: the graph with its counters and parameter map. */
  ghost function LoweredState(op: OpInfo, args: seq<Arg>, m: nat, params: ParamMap): State
    requires Accepted(op, args, m)
  {
    CreatedReady(op, args, m, params);
    Lower(Context(op, args), InitialState(Created(op.symbol, args, m), params), Range(TotalWidth(args) + 1, m), AllSlots(args))
  }

  ghost function LoweredGraph(op: OpInfo, args: seq<Arg>, m: nat, params: ParamMap): Graph
    requires Accepted(op, args, m)
  {
    Finished(Context(op, args), LoweredState(op, args, m, params))
  }

  function Dtypes(ws: seq<Slot>): (r: seq<nat>)
    ensures |r| == |ws|
  {
    seq(|ws|, k requires 0 <= k < |ws| => ws[k].t.dtype)
  }

  /** What eager execution of the op returns. */
  ghost function EagerResults(op: OpInfo, kernels: Kernels, args: seq<Arg>, mem: Mem): seq<Value>
    requires AllHeld(args, mem)
  {
    kernels.op(op.symbol, EagerValues(args, mem))
  }

  /** What the lowered graph must return at output k. */
  ghost function ExpectedOutput(ws: seq<Slot>, k: nat, result: Value, mem: Mem): Value
    requires k < |ws| ==> Held(ws[k].t, mem)
  {
    if k < |ws| && ws[k].t.IsView() then
      InsertOf(BaseValue(ws[k].t, mem), result, StridesOf(ws[k].t.view), OffsetOf(ws[k].t.view))
    else result
  }

  ghost function ValuesSeen(ctx: Ctx, sem: Sem, args: seq<Arg>, env: Env): seq<Value> {
    ArgValues(args, 0, Seen(ctx, sem, AllSlots(args), env))
  }

  lemma AllSeen(ctx: Ctx, sem: Sem, args: seq<Arg>, env: Env, mem: Mem, i: nat)
    requires ctx.opId == TotalWidth(args) && AllHeld(args, mem) && Bound(args, 0, env, mem) && i < |args|
    ensures ValuesSeen(ctx, sem, args, env)[i] == SeenValue(ctx, sem, args[i], i, mem)
  {
    NothingBefore(AllSlots(args));
    SeenArg(ctx, sem, args, 0, 0, [], AllSlots(args), env, mem, i, i);
  }

  lemma NothingBefore(slots: seq<Slot>)
    ensures slots == [] + slots
  {
  }

  lemma SeenExceptFirst(op: OpInfo, args: seq<Arg>, m: nat, kernels: Kernels, env: Env, mem: Mem, i: nat)
    requires AllHeld(args, mem) && Bound(args, 0, env, mem) && i < |args|
    requires !(op.ignoresInput && i == 0)
    requires OutArg(Context(op, args), i) && HasLoweredView(args[i]) ==> op.numOut > 1
    ensures ValuesSeen(Context(op, args), MakeSem(kernels), args, env)[i] == EagerValues(args, mem)[i]
  {
    AllSeen(Context(op, args), MakeSem(kernels), args, env, mem, i);
    SeenAsEager(Context(op, args), kernels, args[i], i, mem);
  }

  /** Whatever branch the replacement takes, the op node computes the eager results. */
  lemma OpComputesEager(op: OpInfo, args: seq<Arg>, m: nat, kernels: Kernels, env: Env, mem: Mem)
    requires Accepted(op, args, m) && Consistent(op)
    requires AllHeld(args, mem) && Bound(args, 0, env, mem)
    requires OpLaws(op, args, m, kernels, mem)
    ensures var ctx := Context(op, args);
            var seen, eager := ValuesSeen(ctx, MakeSem(kernels), args, env), EagerValues(args, mem);
            if Replaces(ctx, CountInserts(ctx, AllSlots(args)), CountOrdinary(ctx, AllSlots(args)))
            then Kept(seen, op.numOut) == Kept(eager, op.numOut)
            else kernels.op(op.symbol, seen) == kernels.op(op.symbol, eager)
  {
    var ctx, slots := Context(op, args), AllSlots(args);
    var seen, eager := ValuesSeen(ctx, MakeSem(kernels), args, env), EagerValues(args, mem);
    if Replaces(ctx, CountInserts(ctx, slots), CountOrdinary(ctx, slots)) {
      forall i | 0 <= i < |args| - op.numOut ensures seen[i] == eager[i] {
        SeenExceptFirst(op, args, m, kernels, env, mem, i);
      }
    } else {
      if op.numOut > 0 { OnlyInplaceCounts(ctx, slots); }
      forall i | 0 <= i < |args| && !(op.ignoresInput && i == 0) ensures seen[i] == eager[i] {
        if OutArg(ctx, i) && HasLoweredView(args[i]) { OutViewCounted(ctx, args, 0, 0, i); }
        SeenExceptFirst(op, args, m, kernels, env, mem, i);
      }
      if op.ignoresInput {
        AllSeen(ctx, MakeSem(kernels), args, env, mem, 0);
        SeenMold(ctx, kernels, args[0], mem);
        assert seen[1..] == eager[1..];
      } else {
        assert seen == eager;
      }
    }
  }

  /** Whatever a metadata-only view holds, it has the view's dtype and sizes. */
  lemma SeenMold(ctx: Ctx, kernels: Kernels, a: Arg, mem: Mem)
    requires ArgHeld(a, mem) && ctx.op.numOut == 0 && ctx.numInputs > 0
    ensures SameMold(SeenValue(ctx, MakeSem(kernels), a, 0, mem), EagerValue(a, mem))
  {
    match a {
      case One(t) => TensorMold(ctx, kernels, t, mem);
      case Many(ts) =>
        forall j | 0 <= j < |ts| ensures SameTensorMold(SeenTensor(ctx, MakeSem(kernels), ts[j], 0, mem), TensorValue(ts[j], mem)) {
          TensorMold(ctx, kernels, ts[j], mem);
        }
      case _ =>
    }
  }

  lemma TensorMold(ctx: Ctx, kernels: Kernels, t: TensorArg, mem: Mem)
    requires Held(t, mem) && ctx.op.numOut == 0 && ctx.numInputs > 0
    ensures SameTensorMold(SeenTensor(ctx, MakeSem(kernels), t, 0, mem), TensorValue(t, mem))
  {
  }

  lemma CreatedIntact(op: OpInfo, args: seq<Arg>, m: nat)
    ensures OpIntact(Context(op, args), Created(op.symbol, args, m))
  {
    var g, p := Created(op.symbol, args, m), |Nodes(args, 0)|;
    Numbering(args, 0);
    forall i | 0 <= i < |g.nodes| ensures NodeIntact(Context(op, args), g.nodes[i]) {
      if i < p { assert PrologueNode(g.nodes[i], 0, TotalWidth(args)); }
    }
  }

  lemma {:induction false} SeenByTwin(ctx: Ctx, sem: Sem, slots: seq<Slot>, env: Env)
    ensures Seen(ctx, TwinSem(ctx, sem), slots, env) == Seen(ctx, sem, slots, env)
    decreases |slots|
  {
    if slots != [] { SeenByTwin(ctx, sem, slots[1..], env); }
  }

  /** Running the lowered graph before the replacement, under any semantics of the op. */
  lemma BeforeReplacement(op: OpInfo, args: seq<Arg>, m: nat, params: ParamMap, sem: Sem, env: Env)
    requires Accepted(op, args, m)
    ensures Run(sem, LoweredState(op, args, m, params).g, env)
            == Written(Context(op, args), sem, AllSlots(args), env,
                       Outputs(sem.op(op.symbol, ValuesSeen(Context(op, args), sem, args, env)), m), 0)
  {
    var ctx, slots := Context(op, args), AllSlots(args);
    CreatedReady(op, args, m, params);
    LowerMeaning(ctx, sem, InitialState(Created(op.symbol, args, m), params), Range(TotalWidth(args) + 1, m), slots, env);
    CreatedMeaning(sem, op.symbol, args, m, Seen(ctx, sem, slots, env));
  }

  lemma LoweredCounts(op: OpInfo, args: seq<Arg>, m: nat, params: ParamMap)
    requires Accepted(op, args, m)
    ensures LoweredState(op, args, m, params).inserts == CountInserts(Context(op, args), AllSlots(args))
    ensures LoweredState(op, args, m, params).ordinary == CountOrdinary(Context(op, args), AllSlots(args))
  {
    CreatedReady(op, args, m, params);
    LowerCounts(Context(op, args), InitialState(Created(op.symbol, args, m), params), Range(TotalWidth(args) + 1, m), AllSlots(args));
  }

  lemma LoweredIntact(op: OpInfo, args: seq<Arg>, m: nat, params: ParamMap)
    requires Accepted(op, args, m)
    ensures OpIntact(Context(op, args), LoweredState(op, args, m, params).g)
  {
    CreatedReady(op, args, m, params);
    CreatedIntact(op, args, m);
    LowerIntact(Context(op, args), InitialState(Created(op.symbol, args, m), params), Range(TotalWidth(args) + 1, m), AllSlots(args));
  }

  /** The lowered graph's outputs, in terms of the twin or of the op itself. */
  lemma LoweredRun(op: OpInfo, args: seq<Arg>, m: nat, params: ParamMap, sem: Sem, env: Env)
    requires Accepted(op, args, m)
    ensures var ctx := Context(op, args);
            var slots := AllSlots(args);
            var seen := ValuesSeen(ctx, sem, args, env);
            Run(sem, LoweredGraph(op, args, m, params), env)
            == if Replaces(ctx, CountInserts(ctx, slots), CountOrdinary(ctx, slots))
               then Written(ctx, TwinSem(ctx, sem), slots, env, Outputs(sem.op(op.twin, Kept(seen, op.numOut)), m), 0)
               else Written(ctx, sem, slots, env, Outputs(sem.op(op.symbol, seen), m), 0)
  {
    var ctx, slots := Context(op, args), AllSlots(args);
    LoweredCounts(op, args, m, params);
    if Replaces(ctx, CountInserts(ctx, slots), CountOrdinary(ctx, slots)) {
      LoweredIntact(op, args, m, params);
      ReplacedMeaning(ctx, sem, LoweredState(op, args, m, params).g, env);
      BeforeReplacement(op, args, m, params, TwinSem(ctx, sem), env);
      SeenByTwin(ctx, sem, slots, env);
    } else {
      BeforeReplacement(op, args, m, params, sem, env);
    }
  }

  lemma WrittenHeld(op: OpInfo, args: seq<Arg>, env: Env, mem: Mem, k: nat)
    requires AllHeld(args, mem) && Bound(args, 0, env, mem) && k < |WrittenSlots(Context(op, args), AllSlots(args))|
    ensures var s := WrittenSlots(Context(op, args), AllSlots(args))[k];
            Held(s.t, mem) && Lookup(env, s.v) == BaseValue(s.t, mem)
  {
    var i := WrittenIsSlot(Context(op, args), AllSlots(args), k);
    SlotBound(args, 0, 0, TotalWidth(args), env, mem, i);
  }

  lemma StoredInBase(ctx: Ctx, kernels: Kernels, sem: Sem, s: Slot, base: Value, result: Value)
    requires sem == MakeSem(kernels) || sem == TwinSem(ctx, MakeSem(kernels))
    ensures Stored(ctx, sem, s, base, result)
            == InsertOf(base, if ctx.op.needsCast then kernels.cast(s.t.dtype, result) else result,
                        StridesOf(s.t.view), OffsetOf(s.t.view))
  {
  }

  /** Output k, for any results: cast where the op promotes, and stored into the base of a written view. */
  lemma OutputAt(ctx: Ctx, slots: seq<Slot>, kernels: Kernels, sem: Sem, env: Env, mem: Mem, vals: seq<Value>, k: nat)
    requires sem == MakeSem(kernels) || sem == TwinSem(ctx, MakeSem(kernels))
    requires CountWrites(ctx, slots) <= |vals| && k < |vals|
    requires var ws := WrittenSlots(ctx, slots);
             k < |ws| ==> Held(ws[k].t, mem) && Lookup(env, ws[k].v) == BaseValue(ws[k].t, mem)
    ensures var ws := WrittenSlots(ctx, slots);
            Written(ctx, sem, slots, env, vals, 0)[k]
            == ExpectedOutput(ws, k, if k < |ws| && ws[k].t.IsView() then CastTo(ctx, kernels, Dtypes(ws), k, vals[k]) else vals[k], mem)
  {
    var ws := WrittenSlots(ctx, slots);
    WrittenAt(ctx, sem, slots, env, vals, 0, k);
    if k < |ws| && ws[k].t.IsView() {
      var base := BaseValue(ws[k].t, mem);
      StoredInBase(ctx, kernels, sem, ws[k], base, vals[k]);
      assert Written(ctx, sem, slots, env, vals, 0)[k] == Stored(ctx, sem, ws[k], base, vals[k]);
    } else {
      assert Written(ctx, sem, slots, env, vals, 0)[k] == vals[k];
    }
  }

  /** Output k when the op itself stays. */
  lemma OwnOutput(op: OpInfo, args: seq<Arg>, m: nat, kernels: Kernels, env: Env, mem: Mem, k: nat, vals: seq<Value>)
    requires Accepted(op, args, m) && k < m && AllHeld(args, mem) && Bound(args, 0, env, mem)
    requires |vals| == m
    requires var ws := WrittenSlots(Context(op, args), AllSlots(args));
             k < |ws| && ws[k].t.IsView() ==> CastTo(Context(op, args), kernels, Dtypes(ws), k, vals[k]) == vals[k]
    ensures var ws := WrittenSlots(Context(op, args), AllSlots(args));
            && (k < |ws| ==> Held(ws[k].t, mem))
            && Written(Context(op, args), MakeSem(kernels), AllSlots(args), env, Outputs(vals, m), 0)[k]
               == ExpectedOutput(ws, k, vals[k], mem)
  {
    var ctx, slots := Context(op, args), AllSlots(args);
    if k < |WrittenSlots(ctx, slots)| { WrittenHeld(op, args, env, mem, k); }
    OutputAt(ctx, slots, kernels, MakeSem(kernels), env, mem, Outputs(vals, m), k);
  }

  /** Output k when the twin has replaced the op: its result, cast where the op promotes. */
  lemma TwinOutput(op: OpInfo, args: seq<Arg>, m: nat, kernels: Kernels, env: Env, mem: Mem, k: nat, twins: seq<Value>)
    requires Accepted(op, args, m) && k < m && AllHeld(args, mem) && Bound(args, 0, env, mem)
    requires k < |twins| && CountInserts(Context(op, args), AllSlots(args)) > 0
    ensures var ctx := Context(op, args);
            var ws := WrittenSlots(ctx, AllSlots(args));
            && (k < |ws| ==> Held(ws[k].t, mem))
            && Written(ctx, TwinSem(ctx, MakeSem(kernels)), AllSlots(args), env, Outputs(twins, m), 0)[k]
               == ExpectedOutput(ws, k, CastTo(ctx, kernels, Dtypes(ws), k, twins[k]), mem)
  {
    var ctx, slots := Context(op, args), AllSlots(args);
    if k < |WrittenSlots(ctx, slots)| { WrittenHeld(op, args, env, mem, k); }
    OutputAt(ctx, slots, kernels, TwinSem(ctx, MakeSem(kernels)), env, mem, Outputs(twins, m), k);
    CastOnlyWritten(ctx, slots, m, k);
  }

  /** View lowering preserves meaning: on base buffers, output k of the lowered graph is the
      eager result k, stored through the view into the old base where the k-th written tensor
      is a view, for every mix of views, ordinary tensors, lists, outs and in-place inputs. */
  lemma ViewLoweringPreservesMeaning(op: OpInfo, args: seq<Arg>, m: nat, params: ParamMap,
                                     kernels: Kernels, env: Env, mem: Mem, k: nat)
    requires Accepted(op, args, m) && Consistent(op) && k < m
    requires AllHeld(args, mem) && Bound(args, 0, env, mem)
    requires OpLaws(op, args, m, kernels, mem)
    ensures var ws := WrittenSlots(Context(op, args), AllSlots(args));
            var outs := Run(MakeSem(kernels), LoweredGraph(op, args, m, params), env);
            |outs| == m && |EagerResults(op, kernels, args, mem)| == m
            && (k < |ws| ==> Held(ws[k].t, mem))
            && outs[k] == ExpectedOutput(ws, k, EagerResults(op, kernels, args, mem)[k], mem)
  {
    var ctx, slots := Context(op, args), AllSlots(args);
    var eager := EagerValues(args, mem);
    LoweredRun(op, args, m, params, MakeSem(kernels), env);
    OpComputesEager(op, args, m, kernels, env, mem);
    if Replaces(ctx, CountInserts(ctx, slots), CountOrdinary(ctx, slots)) {
      TwinOutput(op, args, m, kernels, env, mem, k, kernels.op(op.twin, Kept(eager, op.numOut)));
    } else {
      OwnOutput(op, args, m, kernels, env, mem, k, kernels.op(op.symbol, eager));
    }
  }

  /** When the replacement happened, an op of the cast table has stored its only output. */
  lemma CastOnlyWritten(ctx: Ctx, slots: seq<Slot>, m: nat, k: nat)
    requires CountInserts(ctx, slots) > 0 && CountWrites(ctx, slots) <= m && k < m
    requires ctx.op.needsCast ==> m == 1
    ensures ctx.op.needsCast ==> k < |WrittenSlots(ctx, slots)| && WrittenSlots(ctx, slots)[k].t.IsView()
  {
    if ctx.op.needsCast { InsertIsWritten(ctx, slots); }
  }

  lemma {:induction false} InsertIsWritten(ctx: Ctx, slots: seq<Slot>)
    requires CountInserts(ctx, slots) > 0 && CountWrites(ctx, slots) <= 1
    ensures |WrittenSlots(ctx, slots)| == 1 && WrittenSlots(ctx, slots)[0].t.IsView()
  {
    if !ctx.Inserts(slots[0]) { InsertIsWritten(ctx, slots[1..]); }
  }
}
