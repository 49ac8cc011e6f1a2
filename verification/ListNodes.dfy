/**
 The list nodes of a graph through the eager passes: lowering, the op replacement and patching
 neither add nor remove one, and none changes its length. So a graph tells which arguments of
 its call were tensor lists, and how long they were.
 */
module ListNodes {
  import opened StridedViews
  import opened JitGraph
  import opened ViewLowering
  import opened EagerGraph
  import opened LoweringMeaning
  import opened EagerPass
  import opened CachePatch

  /** The name and the length of every list node. */
  function Lists(nodes: seq<Node>): set<(Id, nat)> {
    if nodes == [] then {} else ListsOf(nodes[0]) + Lists(nodes[1..])
  }

  function ListsOf(d: Node): set<(Id, nat)> {
    if d.kind.ListConstruct? then {(d.id, |d.inputs|)} else {}
  }

  lemma {:induction false} ListsConcat(a: seq<Node>, b: seq<Node>)
    ensures Lists(a + b) == Lists(a) + Lists(b)
    decreases |a|
  {
    if a == [] {
      assert a + b == b;
    } else {
      assert (a + b)[1..] == a[1..] + b;
      ListsConcat(a[1..], b);
    }
  }

  /** Nodes that agree, one by one, in being a list and in its length. */
  ghost predicate ListsAlike(a: seq<Node>, b: seq<Node>) {
    |a| == |b| && forall i :: 0 <= i < |a| ==> ListsOf(a[i]) == ListsOf(b[i])
  }

  lemma {:induction false} AlikeLists(a: seq<Node>, b: seq<Node>)
    requires ListsAlike(a, b)
    ensures Lists(a) == Lists(b)
    decreases |a|
  {
    if a != [] {
      assert ListsOf(a[0]) == ListsOf(b[0]);
      forall i | 0 <= i < |a[1..]| ensures ListsOf(a[1..][i]) == ListsOf(b[1..][i]) {
        assert ListsOf(a[i + 1]) == ListsOf(b[i + 1]);
      }
      AlikeLists(a[1..], b[1..]);
    }
  }

  // --- the passes ---

  lemma EditKeepsLists(g: Graph, e: Edit)
    requires e.p <= |g.nodes| && Lists(e.block) == {}
    ensures Lists(e.Apply(g).nodes) == Lists(g.nodes)
  {
    var a, b := g.nodes[..e.p], g.nodes[e.p..];
    ListsConcat(a + e.block, RenameNodes(b, e.v, e.w));
    ListsConcat(a, e.block);
    ListsConcat(a, b);
    assert a + b == g.nodes;
    AlikeLists(RenameNodes(b, e.v, e.w), b);
  }

  lemma BlocksHaveNoLists(n: Id, v: Id, out: Id, view: View, meta: bool, dtype: nat)
    ensures Lists(ViewBlock(n, v, view, meta)) == Lists(InsertBlock(n, v, out, view)) == Lists(CastBlock(n, out, dtype)) == {}
  {
    NoLists(ViewBlock(n, v, view, meta));
    NoLists(InsertBlock(n, v, out, view));
    NoLists(CastBlock(n, out, dtype));
  }

  lemma {:induction false} NoLists(nodes: seq<Node>)
    requires forall i :: 0 <= i < |nodes| ==> !nodes[i].kind.ListConstruct?
    ensures Lists(nodes) == {}
    decreases |nodes|
  {
    if nodes != [] { NoLists(nodes[1..]); }
  }

  lemma WriteKeepsLists(ctx: Ctx, st: State, s: Slot, out: Id, out0: Id)
    ensures Lists(LowerWrite(ctx, st, s, out, out0).g.nodes) == Lists(st.g.nodes)
  {
    var e := InsertEdit(st.g, s.v, out, s.t.view);
    BlocksHaveNoLists(st.g.next, s.v, out, s.t.view, false, s.t.dtype);
    EditKeepsLists(st.g, e);
    var g := AddInsert(st.g, s.v, out, s.t.view);
    assert g.nodes[|g.nodes| - 1] == InsertBlock(st.g.next, s.v, out, s.t.view)[2];
    BlocksHaveNoLists(g.next, s.v, out0, s.t.view, false, s.t.dtype);
    EditKeepsLists(g, CastEdit(g, out0, s.t.dtype));
  }

  lemma ReadKeepsLists(ctx: Ctx, st: State, s: Slot)
    requires HasNode(st.g.nodes, s.reader)
    ensures Lists(LowerRead(ctx, st, s).g.nodes) == Lists(st.g.nodes)
  {
    BlocksHaveNoLists(st.g.next, s.v, s.v, s.t.view, ctx.MetaOnly(s), 0);
    EditKeepsLists(st.g, ViewEdit(st.g, NodeIndex(st.g.nodes, s.reader), s.v, s.t.view, ctx.MetaOnly(s)));
  }

  lemma SlotKeepsLists(ctx: Ctx, st: State, s: Slot)
    requires Handleable(ctx, st.g, s.reader, st.outIdx, ctx.Writes(s))
    ensures Lists(HandleSlot(ctx, st, s).g.nodes) == Lists(st.g.nodes)
  {
    var outs := NodeAt(st.g, ctx.opId).outputs;
    var st1 := if ctx.Reads(s) then LowerRead(ctx, st, s) else st;
    if ctx.Reads(s) { ReadKeepsLists(ctx, st, s); }
    if ctx.Writes(s) { WriteKeepsLists(ctx, st1, s, outs[st.outIdx], outs[0]); }
  }

  lemma {:induction false} LowerKeepsLists(ctx: Ctx, st: State, outs: seq<Id>, slots: seq<Slot>)
    requires Ready(ctx, st, outs, slots)
    ensures Lists(Lower(ctx, st, outs, slots).g.nodes) == Lists(st.g.nodes)
    decreases |slots|
  {
    if slots != [] {
      OthersDiffer(ctx, st, outs, slots);
      SlotKeepsLists(ctx, st, slots[0]);
      ReadyStep(ctx, st, outs, slots);
      LowerKeepsLists(ctx, HandleSlot(ctx, st, slots[0]), outs, slots[1..]);
    }
  }

  lemma TwinKeepsLists(ctx: Ctx, g: Graph)
    requires OpIntact(ctx, g)
    ensures Lists(Replaced(ctx, g).nodes) == Lists(g.nodes)
  {
    forall i | 0 <= i < |g.nodes| ensures ListsOf(TwinNode(ctx, g.nodes[i])) == ListsOf(g.nodes[i]) {
      assert NodeIntact(ctx, g.nodes[i]);
    }
    AlikeLists(TwinNodes(ctx, g.nodes), g.nodes);
  }

  lemma PatchKeepsLists(g: Graph, fix: map<Id, IValue>)
    ensures Lists(Patch(g, fix).nodes) == Lists(g.nodes)
  {
    AlikeLists(PatchNodes(g.nodes, fix), g.nodes);
  }

  /** The list nodes of a built graph are those of its arguments. */
  lemma BuiltLists(op: OpInfo, args: seq<Arg>, m: nat, agnostic: bool)
    requires Accepted(op, args, m)
    ensures Lists(BuiltGraph(op, args, m, agnostic).nodes) == Lists(Nodes(args, 0))
  {
    var ctx, g := Context(op, args), Created(op.symbol, args, m);
    var params := MetaParams(args, 0, 0, agnostic);
    CreatedReady(op, args, m, params);
    ListsConcat(Nodes(args, 0), [OpNode(op.symbol, args, m)]);
    NoLists([OpNode(op.symbol, args, m)]);
    LowerKeepsLists(ctx, InitialState(g, params), Range(TotalWidth(args) + 1, m), AllSlots(args));
    StateIntact(op, args, m, params);
    TwinKeepsLists(ctx, LoweredState(op, args, m, params).g);
  }

  // --- the arguments ---

  function ArgLists(a: Arg, n: Id): set<(Id, nat)> {
    if a.Many? then {(n + |a.ts|, |a.ts|)} else {}
  }

  lemma ListsSplit(args: seq<Arg>, n: Id)
    requires args != []
    ensures Lists(Nodes(args, n)) == ArgLists(args[0], n) + Lists(Nodes(args[1..], n + Width(args[0])))
  {
    ListsConcat(ArgNodes(args[0], n), Nodes(args[1..], n + Width(args[0])));
    if args[0].Many? {
      assert ArgNodes(args[0], n)[1..] == [];
    } else {
      NoLists(ArgNodes(args[0], n));
    }
  }

  /** A list is named after its elements. */
  lemma {:induction false} ListsAfter(args: seq<Arg>, n: Id, x: Id, k: nat)
    requires (x, k) in Lists(Nodes(args, n))
    ensures x >= n + k
    decreases |args|
  {
    if args != [] {
      ListsSplit(args, n);
      if (x, k) !in ArgLists(args[0], n) { ListsAfter(args[1..], n + Width(args[0]), x, k); }
    }
  }

  /** A list against any other argument in its place, or none. */
  lemma ListShows(args: seq<Arg>, more: seq<Arg>, n: Id)
    requires args != [] && args[0].Many?
    requires more != [] && more[0].Many? ==> |args[0].ts| != |more[0].ts|
    ensures var (x, k) := (n + |args[0].ts|, |args[0].ts|);
            (x, k) in Lists(Nodes(args, n)) && (x, k) !in Lists(Nodes(more, n))
  {
    var k := |args[0].ts|;
    ListsSplit(args, n);
    if more != [] {
      ListsSplit(more, n);
      if (n + k, k) in Lists(Nodes(more[1..], n + Width(more[0]))) {
        ListsAfter(more[1..], n + Width(more[0]), n + k, k);
      }
    }
  }
}
