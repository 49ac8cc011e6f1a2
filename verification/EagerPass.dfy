/**
 The eager passes as they run: an object holding the graph and the counters, edited in
 place by create_eager_graph, the three node insertions, the op replacement, and the
 loop over the arguments.
 */
module EagerPass {
  import opened JitGraph
  import opened ViewLowering
  import opened EagerGraph
  import opened LoweringMeaning

  /** The metadata constants of ops whose parameters are patched on a cache hit. */
  function MetaParams(args: seq<Arg>, idx: nat, n: Id, agnostic: bool): ParamMap
    decreases |args|
  {
    if args == [] then map[]
    else
      var rest := MetaParams(args[1..], idx + 1, n + Width(args[0]), agnostic);
      if args[0].Meta? && agnostic then rest[n := Param(METADATA, idx, idx)] else rest
  }

  class Pass {
    var inputs: seq<Id>
    var nodes: seq<Node>
    var outputs: seq<Id>
    var next: Id
    var views: nat
    var inserts: nat
    var ordinary: nat
    var outIdx: nat
    var params: ParamMap

    constructor ()
      ensures Now() == State(Graph([], [], [], 0), 0, 0, 0, 0, map[])
    {
      inputs, nodes, outputs, next := [], [], [], 0;
      views, inserts, ordinary, outIdx, params := 0, 0, 0, 0, map[];
    }

    function G(): Graph
      reads this
    {
      Graph(inputs, nodes, outputs, next)
    }

    function Now(): State
      reads this
    {
      State(G(), views, inserts, ordinary, outIdx, params)
    }

    /** replaceAllUsesAfterNodeWith: node by node from position p, then the graph outputs. */
    method ReplaceUsesFrom(p: nat, v: Id, w: Id)
      requires p <= |nodes|
      modifies `nodes, `outputs
      ensures nodes == old(nodes[..p]) + RenameNodes(old(nodes[p..]), v, w)
      ensures outputs == RenameIds(old(outputs), v, w)
    {
      for i := p to |nodes|
        invariant |nodes| == |old(nodes)|
        invariant nodes[..i] == old(nodes[..p]) + RenameNodes(old(nodes[p..i]), v, w)
        invariant nodes[i..] == old(nodes[i..])
        invariant outputs == old(outputs)
      {
        assert nodes[i] == old(nodes)[i];
        nodes := nodes[i := nodes[i].(inputs := RenameIds(nodes[i].inputs, v, w))];
        assert old(nodes[p..i + 1]) == old(nodes[p..i]) + [old(nodes)[i]];
      }
      outputs := RenameIds(outputs, v, w);
      assert nodes == nodes[..|nodes|] && old(nodes[p..]) == old(nodes[p..|nodes|]);
    }

    /** Insert a block before position p and move the later uses of v to w. */
    method Splice(e: Edit)
      requires e.p <= |nodes|
      modifies `nodes, `outputs, `next
      ensures G() == e.Apply(old(G()))
    {
      ReplaceUsesFrom(e.p, e.v, e.w);
      nodes := nodes[..e.p] + e.block + nodes[e.p..];
      next := next + |e.block|;
    }

    method FindNode(id: Id) returns (i: nat)
      requires WellFormed(G()) && HasNode(nodes, id)
      ensures i < |nodes| && i == NodeIndex(nodes, id) && nodes[i] == NodeAt(G(), id)
    {
      i := 0;
      while nodes[i].id != id
        invariant i < |nodes| && forall j :: 0 <= j < i ==> nodes[j].id != id
        decreases |nodes| - i
      {
        ghost var k :| 0 <= k < |nodes| && nodes[k].id == id;
        i := i + 1;
      }
      UniqueIndex(G(), i);
    }

    /** insert_strided_view_node, and its three constants in the parameter map. */
    method InsertStridedView(ctx: Ctx, s: Slot, at: nat)
      requires HasNode(nodes, s.reader) && at == NodeIndex(nodes, s.reader)
      modifies this
      ensures Now() == LowerRead(ctx, old(Now()), s)
    {
      params := ViewParams(params, next, s);
      Splice(ViewEdit(G(), at, s.v, s.t.view, ctx.MetaOnly(s)));
      views := views + 1;
    }

    /** insert_strided_insert_node, its two constants, and the cast for ops that promote. */
    method InsertStridedInsert(ctx: Ctx, s: Slot, out: Id, out0: Id)
      modifies this
      ensures Now() == LowerWrite(ctx, old(Now()), s, out, out0)
    {
      params := InsertParams(params, next, s);
      Splice(InsertEdit(G(), s.v, out, s.t.view));
      if ctx.op.needsCast {
        Splice(CastEdit(G(), out0, s.t.dtype));
      }
      inserts := inserts + 1;
    }

    /** HandleInputOutputView: one tensor of the argument list, under the value its reader names. */
    method HandleTensor(ctx: Ctx, t: TensorArg, reader: Id, readerIdx: nat, argIdx: nat,
                        ghost outs: seq<Id>, ghost slots: seq<Slot>)
      requires Ready(ctx, Now(), outs, slots) && slots != []
      requires slots[0] == Slot(t, reader, readerIdx, argIdx, slots[0].v)
      modifies this
      ensures Ready(ctx, Now(), outs, slots[1..])
      ensures Lower(ctx, Now(), outs, slots[1..]) == Lower(ctx, old(Now()), outs, slots)
    {
      ReadyStep(ctx, Now(), outs, slots);
      OthersDiffer(ctx, Now(), outs, slots);
      if !t.hpu {
        return;
      }
      var at := FindNode(reader);
      var opAt := FindNode(ctx.opId);
      assert SlotReady(G(), slots[0]);
      HandleFound(ctx, Slot(t, reader, readerIdx, argIdx, nodes[at].inputs[readerIdx]), at, nodes[opAt].outputs);
    }

    method HandleFound(ctx: Ctx, s: Slot, at: nat, opOutputs: seq<Id>)
      requires HasNode(nodes, s.reader) && HasNode(nodes, ctx.opId) && s.t.hpu
      requires at == NodeIndex(nodes, s.reader) && opOutputs == NodeAt(G(), ctx.opId).outputs
      requires ctx.Writes(s) ==> outIdx < |opOutputs|
      modifies this
      ensures Now() == HandleSlot(ctx, old(Now()), s)
    {
      var k := outIdx;
      if !s.t.IsView() {
        if ctx.InplaceInput(s) {
          ordinary := ordinary + 1;
        }
      } else {
        if ctx.Reads(s) {
          InsertStridedView(ctx, s, at);
        }
        if ctx.Writes(s) {
          InsertStridedInsert(ctx, s, opOutputs[k], opOutputs[0]);
        }
      }
      if ctx.Writes(s) {
        outIdx := k + 1;
      }
    }

    /** replace_with_out_of_place_op. */
    method ReplaceWithOutOfPlaceOp(ctx: Ctx)
      modifies `nodes
      ensures G() == Replaced(ctx, old(G()))
    {
      for i := 0 to |nodes|
        invariant |nodes| == |old(nodes)|
        invariant nodes[..i] == TwinNodes(ctx, old(nodes[..i]))
        invariant nodes[i..] == old(nodes[i..])
      {
        assert nodes[i] == old(nodes)[i];
        assert old(nodes[..i + 1]) == old(nodes[..i]) + [old(nodes)[i]];
        nodes := nodes[i := TwinNode(ctx, nodes[i])];
      }
      assert nodes == nodes[..|nodes|] && old(nodes) == old(nodes[..|nodes|]);
    }

    /** The inner loop of HandleInputOutputViews, over a tensor list. */
    method HandleList(ctx: Ctx, ts: seq<TensorArg>, idx: nat, n: Id, ghost outs: seq<Id>, ghost rest: seq<Slot>)
      requires Ready(ctx, Now(), outs, ArgSlots(Many(ts), idx, n, ctx.opId) + rest)
      modifies this
      ensures Ready(ctx, Now(), outs, rest)
      ensures Lower(ctx, Now(), outs, rest) == Lower(ctx, old(Now()), outs, ArgSlots(Many(ts), idx, n, ctx.opId) + rest)
    {
      ghost var goal := Lower(ctx, Now(), outs, Remaining(ts, idx, n, ctx.opId, rest, 0));
      for j := 0 to |ts|
        invariant Ready(ctx, Now(), outs, Remaining(ts, idx, n, ctx.opId, rest, j))
        invariant Lower(ctx, Now(), outs, Remaining(ts, idx, n, ctx.opId, rest, j)) == goal
      {
        HandleNth(ctx, ts, j, idx, n, outs, rest);
      }
      assert Remaining(ts, idx, n, ctx.opId, rest, |ts|) == rest;
    }

    method HandleNth(ctx: Ctx, ts: seq<TensorArg>, j: nat, idx: nat, n: Id, ghost outs: seq<Id>, ghost rest: seq<Slot>)
      requires j < |ts| && Ready(ctx, Now(), outs, Remaining(ts, idx, n, ctx.opId, rest, j))
      modifies this
      ensures Ready(ctx, Now(), outs, Remaining(ts, idx, n, ctx.opId, rest, j + 1))
      ensures Lower(ctx, Now(), outs, Remaining(ts, idx, n, ctx.opId, rest, j + 1))
              == Lower(ctx, old(Now()), outs, Remaining(ts, idx, n, ctx.opId, rest, j))
    {
      ghost var todo := Remaining(ts, idx, n, ctx.opId, rest, j);
      RemainingStep(ts, idx, n, ctx.opId, rest, j);
      HandleTensor(ctx, ts[j], n + |ts|, j, idx, outs, todo);
    }

    /** HandleInputOutputViews for one argument. */
    method HandleArgument(ctx: Ctx, a: Arg, idx: nat, n: Id, ghost outs: seq<Id>, ghost slots: seq<Slot>, ghost rest: seq<Slot>)
      requires slots == ArgSlots(a, idx, n, ctx.opId) + rest
      requires Ready(ctx, Now(), outs, slots)
      modifies this
      ensures Ready(ctx, Now(), outs, rest)
      ensures Lower(ctx, Now(), outs, rest) == Lower(ctx, old(Now()), outs, slots)
    {
      match a {
        case One(t) =>
          HandleTensor(ctx, t, ctx.opId, idx, idx, outs, slots);
          assert slots[1..] == rest;
        case Many(ts) => HandleList(ctx, ts, idx, n, outs, rest);
        case Scalar(_) => assert slots == rest;
        case Meta(_) => assert slots == rest;
      }
    }

    /** HandleInputOutputViews over the graph of create_eager_graph. */
    method HandleInputOutputViews(op: OpInfo, args: seq<Arg>, m: nat)
      requires Accepted(op, args, m)
      requires Now() == InitialState(Created(op.symbol, args, m), params)
      modifies this
      ensures G() == LoweredGraph(op, args, m, old(params))
      ensures params == LoweredState(op, args, m, old(params)).params
    {
      var ctx := Context(op, args);
      LowerArguments(ctx, op, args, m);
      if inserts > 0 && ordinary == 0 {
        if !op.ignoresInput && op.numOut <= 1 {
          ReplaceWithOutOfPlaceOp(ctx);
        }
      }
    }

    method LowerArguments(ctx: Ctx, op: OpInfo, args: seq<Arg>, m: nat)
      requires Accepted(op, args, m) && ctx == Context(op, args)
      requires Now() == InitialState(Created(op.symbol, args, m), params)
      modifies this
      ensures Now() == LoweredState(op, args, m, old(params))
    {
      ghost var outs, goal := Range(TotalWidth(args) + 1, m), LoweredState(op, args, m, params);
      CreatedReady(op, args, m, params);
      ghost var stages := StagesFrom(ctx, args, outs, goal, Now());
      LowerEach(ctx, args, outs, goal, stages);
      StagesEnd(stages, ctx, args, outs, goal, Now());
    }

    method LowerEach(ctx: Ctx, args: seq<Arg>, ghost outs: seq<Id>, ghost goal: State, ghost stages: seq<iset<State>>)
      requires Stages(stages, ctx, args, outs, goal) && Now() in stages[0]
      modifies this
      ensures Now() in stages[|args|]
    {
      var n: Id := 0;
      assert args[..0] == [];
      for idx := 0 to |args|
        invariant n == TotalWidth(args[..idx]) && Now() in stages[idx]
      {
        LowerNext(ctx, args, idx, n, outs, goal, stages);
        WidthAt(args, idx);
        n := n + Width(args[idx]);
      }
    }

    method LowerNext(ctx: Ctx, args: seq<Arg>, idx: nat, n: Id, ghost outs: seq<Id>, ghost goal: State, ghost stages: seq<iset<State>>)
      requires Stages(stages, ctx, args, outs, goal)
      requires idx < |args| && n == TotalWidth(args[..idx]) && Now() in stages[idx]
      modifies this
      ensures Now() in stages[idx + 1]
    {
      ghost var todo, rest := SlotsUnfold(args, idx, n, ctx.opId);
      StageAt(stages, ctx, args, idx, outs, goal, Now(), todo);
      HandleArgument(ctx, args[idx], idx, n, outs, todo, rest);
      BackToStage(stages, ctx, args, idx + 1, outs, goal, Now(), rest);
    }

    /** One argument of create_eager_graph; `more` is the value the op node reads for it. */
    method AddArgument(a: Arg, idx: nat, agnostic: bool) returns (more: Id)
      modifies `inputs, `nodes, `params, `next
      ensures inputs == old(inputs) + ArgInputs(a, old(next)) && nodes == old(nodes) + ArgNodes(a, old(next))
      ensures more == ArgId(a, old(next)) && next == old(next) + Width(a)
      ensures params == if a.Meta? && agnostic then old(params)[old(next) := Param(METADATA, idx, idx)] else old(params)
    {
      inputs := inputs + ArgInputs(a, next);
      nodes := nodes + ArgNodes(a, next);
      more := ArgId(a, next);
      if a.Meta? && agnostic {
        params := params[next := Param(METADATA, idx, idx)];
      }
      next := next + Width(a);
    }

    /** The graph holds the values of some arguments, and ids is what the op node reads for them. */
    ghost predicate HoldsArguments(args: seq<Arg>, ids: seq<Id>, agnostic: bool)
      reads this
    {
      && inputs == Inputs(args, 0) && nodes == Nodes(args, 0) && next == TotalWidth(args)
      && ids == NodeInputs(args, 0) && params == MetaParams(args, 0, 0, agnostic)
    }

    method AddNext(args: seq<Arg>, idx: nat, ids: seq<Id>, agnostic: bool) returns (more: seq<Id>)
      requires idx < |args| && HoldsArguments(args[..idx], ids, agnostic)
      modifies `inputs, `nodes, `params, `next
      ensures HoldsArguments(args[..idx + 1], more, agnostic)
    {
      assert args[..idx + 1] == args[..idx] + [args[idx]];
      ArgumentAppended(args[..idx], args[idx]);
      ParamsAppended(args[..idx], args[idx], 0, 0, agnostic);
      var id := AddArgument(args[idx], idx, agnostic);
      more := ids + [id];
    }

    /** create_eager_graph: one value per argument, then the op node and its outputs. */
    method CreateEagerGraph(symbol: string, args: seq<Arg>, m: nat, agnostic: bool)
      requires Now() == State(Graph([], [], [], 0), 0, 0, 0, 0, map[])
      modifies this
      ensures Now() == InitialState(Created(symbol, args, m), MetaParams(args, 0, 0, agnostic))
    {
      var nodeInputs: seq<Id> := [];
      assert args[..0] == [];
      for idx := 0 to |args|
        invariant HoldsArguments(args[..idx], nodeInputs, agnostic)
        invariant outputs == [] && views == inserts == ordinary == outIdx == 0
      {
        nodeInputs := AddNext(args, idx, nodeInputs, agnostic);
      }
      assert args[..|args|] == args;
      AddOperator(symbol, args, m, nodeInputs, agnostic);
    }

    method AddOperator(symbol: string, ghost args: seq<Arg>, m: nat, ids: seq<Id>, ghost agnostic: bool)
      requires HoldsArguments(args, ids, agnostic) && outputs == [] && views == inserts == ordinary == outIdx == 0
      modifies `nodes, `outputs, `next
      ensures Now() == InitialState(Created(symbol, args, m), MetaParams(args, 0, 0, agnostic))
    {
      nodes := nodes + [Node(next, Aten(symbol), ids, Range(next + 1, m))];
      outputs := Range(next + 1, m);
      next := next + 1 + m;
    }
  }

  ghost function Remaining(ts: seq<TensorArg>, idx: nat, n: Id, opId: Id, rest: seq<Slot>, j: nat): seq<Slot>
    requires j <= |ts|
  {
    ArgSlots(Many(ts), idx, n, opId)[j..] + rest
  }

  lemma RemainingStep(ts: seq<TensorArg>, idx: nat, n: Id, opId: Id, rest: seq<Slot>, j: nat)
    requires j < |ts|
    ensures Remaining(ts, idx, n, opId, rest, j)[1..] == Remaining(ts, idx, n, opId, rest, j + 1)
  {
  }

  /** The states from which lowering the arguments from idx on ends in goal. */
  ghost function Pending(ctx: Ctx, args: seq<Arg>, idx: nat, outs: seq<Id>, goal: State): iset<State>
    requires idx <= |args|
  {
    var todo := Slots(args[idx..], idx, TotalWidth(args[..idx]), ctx.opId);
    iset st: State | Ready(ctx, st, outs, todo) && Lower(ctx, st, outs, todo) == goal
  }

  ghost predicate Stages(stages: seq<iset<State>>, ctx: Ctx, args: seq<Arg>, outs: seq<Id>, goal: State) {
    && |stages| == |args| + 1
    && forall idx {:trigger Pending(ctx, args, idx, outs, goal)} ::
         0 <= idx <= |args| ==> stages[idx] == Pending(ctx, args, idx, outs, goal)
  }

  lemma StagesFrom(ctx: Ctx, args: seq<Arg>, outs: seq<Id>, goal: State, st: State) returns (stages: seq<iset<State>>)
    requires Ready(ctx, st, outs, Slots(args, 0, 0, ctx.opId))
    requires Lower(ctx, st, outs, Slots(args, 0, 0, ctx.opId)) == goal
    ensures Stages(stages, ctx, args, outs, goal) && st in stages[0]
  {
    stages := seq(|args| + 1, idx requires 0 <= idx <= |args| => Pending(ctx, args, idx, outs, goal));
    assert args[0..] == args && args[..0] == [];
    assert st in Pending(ctx, args, 0, outs, goal);
  }

  lemma StagesEnd(stages: seq<iset<State>>, ctx: Ctx, args: seq<Arg>, outs: seq<Id>, goal: State, st: State)
    requires Stages(stages, ctx, args, outs, goal) && st in stages[|args|]
    ensures st == goal
  {
    assert args[|args|..] == [];
    assert st in Pending(ctx, args, |args|, outs, goal);
  }

  lemma StageAt(stages: seq<iset<State>>, ctx: Ctx, args: seq<Arg>, idx: nat, outs: seq<Id>, goal: State, st: State, todo: seq<Slot>)
    requires Stages(stages, ctx, args, outs, goal) && idx <= |args| && st in stages[idx]
    requires todo == Slots(args[idx..], idx, TotalWidth(args[..idx]), ctx.opId)
    ensures Ready(ctx, st, outs, todo) && Lower(ctx, st, outs, todo) == goal
  {
    assert st in Pending(ctx, args, idx, outs, goal);
  }

  lemma BackToStage(stages: seq<iset<State>>, ctx: Ctx, args: seq<Arg>, idx: nat, outs: seq<Id>, goal: State, st: State,
                    rest: seq<Slot>)
    requires Stages(stages, ctx, args, outs, goal) && idx <= |args|
    requires rest == Slots(args[idx..], idx, TotalWidth(args[..idx]), ctx.opId)
    requires Ready(ctx, st, outs, rest) && Lower(ctx, st, outs, rest) == goal
    ensures st in stages[idx]
  {
    assert st in Pending(ctx, args, idx, outs, goal);
  }

  lemma WidthAt(args: seq<Arg>, idx: nat)
    requires idx < |args|
    ensures TotalWidth(args[..idx + 1]) == TotalWidth(args[..idx]) + Width(args[idx])
  {
    assert args[..idx + 1] == args[..idx] + [args[idx]];
    WidthAppended(args[..idx], args[idx], 0);
  }

  lemma SlotsUnfold(args: seq<Arg>, idx: nat, n: Id, opId: Id) returns (todo: seq<Slot>, rest: seq<Slot>)
    requires idx < |args| && n == TotalWidth(args[..idx])
    ensures todo == Slots(args[idx..], idx, n, opId) == ArgSlots(args[idx], idx, n, opId) + rest
    ensures rest == Slots(args[idx + 1..], idx + 1, TotalWidth(args[..idx + 1]), opId)
  {
    WidthAt(args, idx);
    assert args[idx..][1..] == args[idx + 1..];
    todo := Slots(args[idx..], idx, n, opId);
    rest := Slots(args[idx + 1..], idx + 1, n + Width(args[idx]), opId);
  }

  /** The graph of a longer argument list extends the graph of the shorter one. */
  lemma ArgumentAppended(args: seq<Arg>, a: Arg)
    ensures var m := TotalWidth(args);
            && TotalWidth(args + [a]) == m + Width(a)
            && Inputs(args + [a], 0) == Inputs(args, 0) + ArgInputs(a, m)
            && Nodes(args + [a], 0) == Nodes(args, 0) + ArgNodes(a, m)
            && NodeInputs(args + [a], 0) == NodeInputs(args, 0) + [ArgId(a, m)]
  {
    WidthAppended(args, a, 0);
    InputsAppended(args, a, 0);
    NodesAppended(args, a, 0);
    NodeInputsAppended(args, a, 0);
  }

  lemma {:induction false} WidthAppended(args: seq<Arg>, a: Arg, n: Id)
    ensures TotalWidth(args + [a]) == TotalWidth(args) + Width(a)
    decreases |args|
  {
    if args == [] {
      assert [] + [a] == [a];
    } else {
      assert (args + [a])[1..] == args[1..] + [a];
      WidthAppended(args[1..], a, n + Width(args[0]));
    }
  }

  lemma {:induction false} InputsAppended(args: seq<Arg>, a: Arg, n: Id)
    ensures Inputs(args + [a], n) == Inputs(args, n) + ArgInputs(a, n + TotalWidth(args))
    decreases |args|
  {
    if args == [] {
      assert [] + [a] == [a];
    } else {
      var m := n + Width(args[0]);
      InputsAppended(args[1..], a, m);
      InputsOfCons(args + [a], args[1..] + [a], n);
      Associative(ArgInputs(args[0], n), Inputs(args[1..], m), ArgInputs(a, n + TotalWidth(args)));
    }
  }

  lemma InputsOfCons(args: seq<Arg>, rest: seq<Arg>, n: Id)
    requires args != [] && rest == args[1..]
    ensures Inputs(args, n) == ArgInputs(args[0], n) + Inputs(rest, n + Width(args[0]))
  {
  }

  lemma Associative<T>(a: seq<T>, b: seq<T>, c: seq<T>)
    ensures a + (b + c) == (a + b) + c
  {
  }

  lemma {:induction false} NodesAppended(args: seq<Arg>, a: Arg, n: Id)
    ensures Nodes(args + [a], n) == Nodes(args, n) + ArgNodes(a, n + TotalWidth(args))
    decreases |args|
  {
    if args == [] {
      assert [] + [a] == [a];
    } else {
      var m := n + Width(args[0]);
      NodesAppended(args[1..], a, m);
      NodesOfCons(args + [a], args[1..] + [a], n);
      Associative(ArgNodes(args[0], n), Nodes(args[1..], m), ArgNodes(a, n + TotalWidth(args)));
    }
  }

  lemma NodesOfCons(args: seq<Arg>, rest: seq<Arg>, n: Id)
    requires args != [] && rest == args[1..]
    ensures Nodes(args, n) == ArgNodes(args[0], n) + Nodes(rest, n + Width(args[0]))
  {
  }

  lemma {:induction false} NodeInputsAppended(args: seq<Arg>, a: Arg, n: Id)
    ensures NodeInputs(args + [a], n) == NodeInputs(args, n) + [ArgId(a, n + TotalWidth(args))]
    decreases |args|
  {
    if args == [] {
      assert [] + [a] == [a];
    } else {
      assert (args + [a])[1..] == args[1..] + [a];
      NodeInputsAppended(args[1..], a, n + Width(args[0]));
    }
  }

  lemma {:induction false} ParamsAppended(args: seq<Arg>, a: Arg, idx: nat, n: Id, agnostic: bool)
    ensures MetaParams(args + [a], idx, n, agnostic)
            == if a.Meta? && agnostic
               then MetaParams(args, idx, n, agnostic)[n + TotalWidth(args) := Param(METADATA, idx + |args|, idx + |args|)]
               else MetaParams(args, idx, n, agnostic)
    decreases |args|
  {
    if args == [] {
      assert [] + [a] == [a];
    } else {
      assert (args + [a])[1..] == args[1..] + [a];
      ParamsAppended(args[1..], a, idx + 1, n + Width(args[0]), agnostic);
    }
  }
}
