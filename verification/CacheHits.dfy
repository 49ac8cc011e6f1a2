/**
 When a cache hit may be trusted: two stacks with one operator key get the same graph
 exactly when they agree in what the key leaves out.
 */
module CacheHits {
  import opened StridedViews
  import opened JitGraph
  import opened ViewLowering
  import opened EagerGraph
  import opened LoweringMeaning
  import opened EagerPass
  import opened CachePatch
  import opened OperatorKey
  import opened ListNodes

  /** The cached graph of one stack, patched for another, is what a fresh build would give,
      and process_node_params does not assert on the way. */
  ghost predicate HitIsFresh(op: OpInfo, args: seq<Arg>, more: seq<Arg>, m: nat, agnostic: bool)
    requires Accepted(op, args, m) && Accepted(op, more, m)
  {
    && ParamsFit(BuiltParams(op, args, m, agnostic), more)
    && Patch(BuiltGraph(op, args, m, agnostic), NewValues(BuiltParams(op, args, m, agnostic), more))
       == BuiltGraph(op, more, m, agnostic)
  }

  // --- constants survive the pass ---

  ghost predicate KindAt(nodes: seq<Node>, id: Id, kind: Kind) {
    HasNode(nodes, id) && forall i :: 0 <= i < |nodes| && nodes[i].id == id ==> nodes[i].kind == kind
  }

  lemma EditKeepsKind(g: Graph, e: Edit, olds: set<Id>, id: Id, kind: Kind)
    requires WellFormed(g) && e.Fits(g, olds) && KindAt(g.nodes, id, kind)
    ensures WellFormed(e.Apply(g)) && KindAt(e.Apply(g).nodes, id, kind)
  {
    NumberedRedirect(g, e.p, e.block, olds, e.v, e.w);
    NumberedRedirectNode(g, e.p, e.block, olds, e.v, e.w, id);
    var r := e.Apply(g);
    forall i | 0 <= i < |r.nodes| && r.nodes[i].id == id ensures r.nodes[i].kind == kind {
      UniqueIndex(r, i);
    }
  }

  lemma ReadKeepsKind(ctx: Ctx, st: State, s: Slot, id: Id, kind: Kind)
    requires WellFormed(st.g) && SlotReady(st.g, s) && KindAt(st.g.nodes, id, kind)
    ensures KindAt(LowerRead(ctx, st, s).g.nodes, id, kind)
  {
    var e := ViewEdit(st.g, NodeIndex(st.g.nodes, s.reader), s.v, s.t.view, ctx.MetaOnly(s));
    ViewEditFits(st.g, e.p, s.v, s.t.view, ctx.MetaOnly(s));
    EditKeepsKind(st.g, e, {s.v}, id, kind);
  }

  lemma WriteKeepsKind(ctx: Ctx, st: State, s: Slot, out: Id, out0: Id, id: Id, kind: Kind)
    requires WellFormed(st.g) && s.v < st.g.next && out < st.g.next && out0 < st.g.next && KindAt(st.g.nodes, id, kind)
    ensures KindAt(LowerWrite(ctx, st, s, out, out0).g.nodes, id, kind)
  {
    InsertEditFits(st.g, s.v, out, s.t.view);
    EditKeepsKind(st.g, InsertEdit(st.g, s.v, out, s.t.view), {s.v, out}, id, kind);
    if ctx.op.needsCast {
      var g := AddInsert(st.g, s.v, out, s.t.view);
      assert g.nodes[|g.nodes| - 1] == InsertBlock(st.g.next, s.v, out, s.t.view)[2];
      CastEditFits(g, out0, s.t.dtype);
      EditKeepsKind(g, CastEdit(g, out0, s.t.dtype), {out0}, id, kind);
    }
  }

  lemma OutputsBelow(ctx: Ctx, g: Graph, outs: seq<Id>, k: nat)
    requires GraphReady(ctx, g, outs, k) && k < |outs|
    ensures outs[k] < g.next && outs[0] < g.next
  {
    var i := NodeIndex(g.nodes, ctx.opId);
    assert NodeBelow(g.nodes[i], g.next);
  }

  lemma SlotKeepsKind(ctx: Ctx, st: State, outs: seq<Id>, slots: seq<Slot>, id: Id, kind: Kind)
    requires Ready(ctx, st, outs, slots) && slots != [] && KindAt(st.g.nodes, id, kind)
    ensures Handleable(ctx, st.g, slots[0].reader, st.outIdx, ctx.Writes(slots[0]))
    ensures KindAt(HandleSlot(ctx, st, slots[0]).g.nodes, id, kind)
  {
    var s := slots[0];
    OthersDiffer(ctx, st, outs, slots);
    assert SlotReady(st.g, s);
    if s.t.hpu && s.t.IsView() {
      var st1 := if ctx.Reads(s) then LowerRead(ctx, st, s) else st;
      if ctx.Reads(s) {
        AfterLowerRead(ctx, st, outs, s, []);
        ReadKeepsKind(ctx, st, s, id, kind);
      }
      if ctx.Writes(s) {
        OutputsBelow(ctx, st1.g, outs, st.outIdx);
        WriteKeepsKind(ctx, st1, s, outs[st.outIdx], outs[0], id, kind);
      }
    }
  }

  lemma {:induction false} LowerKeepsKind(ctx: Ctx, st: State, outs: seq<Id>, slots: seq<Slot>, id: Id, kind: Kind)
    requires Ready(ctx, st, outs, slots) && KindAt(st.g.nodes, id, kind)
    ensures KindAt(Lower(ctx, st, outs, slots).g.nodes, id, kind)
    decreases |slots|
  {
    if slots != [] {
      SlotKeepsKind(ctx, st, outs, slots, id, kind);
      ReadyStep(ctx, st, outs, slots);
      LowerKeepsKind(ctx, HandleSlot(ctx, st, slots[0]), outs, slots[1..], id, kind);
    }
  }

  lemma NextGrows(ctx: Ctx, st: State, s: Slot)
    requires Handleable(ctx, st.g, s.reader, st.outIdx, ctx.Writes(s))
    ensures HandleSlot(ctx, st, s).g.next >= st.g.next
    ensures forall id :: id in HandleSlot(ctx, st, s).params ==> id in st.params || id >= st.g.next
  {
  }

  /** The pass records parameters under new names only. */
  lemma {:induction false} ParamsAreNew(ctx: Ctx, st: State, outs: seq<Id>, slots: seq<Slot>)
    requires Ready(ctx, st, outs, slots)
    ensures forall id :: id in Lower(ctx, st, outs, slots).params ==> id in st.params || id >= st.g.next
    decreases |slots|
  {
    if slots != [] {
      OthersDiffer(ctx, st, outs, slots);
      NextGrows(ctx, st, slots[0]);
      ReadyStep(ctx, st, outs, slots);
      ParamsAreNew(ctx, HandleSlot(ctx, st, slots[0]), outs, slots[1..]);
    }
  }

  lemma {:induction false} NoMetaParams(args: seq<Arg>, idx: nat, n: Id)
    ensures MetaParams(args, idx, n, false) == map[]
    decreases |args|
  {
    if args != [] { NoMetaParams(args[1..], idx + 1, n + Width(args[0])); }
  }

  ghost predicate ConstantIn(nodes: seq<Node>, x: Id, c: IValue) {
    exists i :: 0 <= i < |nodes| && nodes[i] == Node(x, Constant(c), [], [x])
  }

  /** A metadata constant is a node of the fresh graph, and no other node has its name. */
  lemma ConstantCreated(symbol: string, args: seq<Arg>, m: nat, x: Id, c: IValue)
    requires ConstantIn(Nodes(args, 0), x, c)
    ensures KindAt(Created(symbol, args, m).nodes, x, Constant(c)) && x < TotalWidth(args)
  {
    var g := Created(symbol, args, m);
    var i :| 0 <= i < |Nodes(args, 0)| && Nodes(args, 0)[i] == Node(x, Constant(c), [], [x]);
    Numbering(args, 0);
    assert PrologueNode(Nodes(args, 0)[i], 0, TotalWidth(args));
    CreatedWellFormed(symbol, args, m);
    assert g.nodes[i] == Nodes(args, 0)[i];
    forall j | 0 <= j < |g.nodes| && g.nodes[j].id == x ensures g.nodes[j].kind == Constant(c) { UniqueIndex(g, j); UniqueIndex(g, i); }
  }

  /** A metadata constant of an op that is not patched is in the built graph under its own name. */
  lemma ConstantBuilt(op: OpInfo, args: seq<Arg>, m: nat, x: Id, c: IValue)
    requires Accepted(op, args, m) && ConstantIn(Nodes(args, 0), x, c)
    ensures KindAt(BuiltGraph(op, args, m, false).nodes, x, Constant(c))
    ensures x !in BuiltParams(op, args, m, false)
  {
    var g, ctx := Created(op.symbol, args, m), Context(op, args);
    ConstantCreated(op.symbol, args, m, x, c);
    CreatedReady(op, args, m, map[]);
    LowerKeepsKind(ctx, InitialState(g, map[]), Range(TotalWidth(args) + 1, m), AllSlots(args), x, Constant(c));
    ParamsAreNew(ctx, InitialState(g, map[]), Range(TotalWidth(args) + 1, m), AllSlots(args));
    NoMetaParams(args, 0, 0);
    TwinKeepsKind(ctx, LoweredState(op, args, m, map[]).g, x, Constant(c));
  }

  lemma TwinKeepsKind(ctx: Ctx, g: Graph, x: Id, kind: Kind)
    requires KindAt(g.nodes, x, kind) && x != ctx.opId
    ensures KindAt(Replaced(ctx, g).nodes, x, kind)
  {
    var i := NodeIndex(g.nodes, x);
    assert Replaced(ctx, g).nodes[i].id == x;
  }

  lemma KindPatched(g: Graph, fix: map<Id, IValue>, x: Id, kind: Kind)
    requires KindAt(g.nodes, x, kind) && x !in fix
    ensures KindAt(Patch(g, fix).nodes, x, kind)
  {
    var i := NodeIndex(g.nodes, x);
    assert Patch(g, fix).nodes[i].id == x;
  }

  // --- a difference the key does not see shows in the graph ---

  ghost predicate Distinguishes(x: Id, args: seq<Arg>, more: seq<Arg>, n: Id, agnostic: bool) {
    || ScalarsDiffer(x, args, more, n)
    || (!agnostic && TwoConstantsAt(x, Nodes(args, n), Nodes(more, n)))
    || ListsDiffer(x, Nodes(args, n), Nodes(more, n))
  }

  /** The name of a number among the inputs. */
  predicate ScalarName(x: Id, args: seq<Arg>, n: Id)
    decreases |args|
  {
    args != [] && ((args[0].Scalar? && x == n) || ScalarName(x, args[1..], n + Width(args[0])))
  }

  /** A number in one stack, under a name that is no input of the other. */
  predicate ScalarsDiffer(x: Id, args: seq<Arg>, more: seq<Arg>, n: Id) {
    (ScalarName(x, args, n) && x !in Inputs(more, n)) || (ScalarName(x, more, n) && x !in Inputs(args, n))
  }

  lemma {:induction false} ScalarIsInput(x: Id, args: seq<Arg>, n: Id) returns (p: nat)
    requires ScalarName(x, args, n)
    ensures p < |Inputs(args, n)| && Inputs(args, n)[p] == x
    decreases |args|
  {
    if args[0].Scalar? && x == n {
      p := 0;
    } else {
      p := ScalarIsInput(x, args[1..], n + Width(args[0]));
      p := p + |ArgInputs(args[0], n)|;
    }
  }

  /** One of the graphs has a list node under this name, of a length it does not have in the other. */
  ghost predicate ListsDiffer(x: Id, a: seq<Node>, b: seq<Node>) {
    exists k: nat :: ((x, k) in Lists(a)) != ((x, k) in Lists(b))
  }

  lemma ConstantLater(args: seq<Arg>, n: Id, x: Id, c: IValue)
    requires args != [] && ConstantIn(Nodes(args[1..], n + Width(args[0])), x, c)
    ensures ConstantIn(Nodes(args, n), x, c)
  {
    var later := Nodes(args[1..], n + Width(args[0]));
    var i :| 0 <= i < |later| && later[i] == Node(x, Constant(c), [], [x]);
    assert Nodes(args, n)[|ArgNodes(args[0], n)| + i] == later[i];
  }

  lemma InputsSplit(args: seq<Arg>, n: Id, x: Id)
    requires args != []
    ensures x < n + Width(args[0]) ==> (x in Inputs(args, n) <==> x in ArgInputs(args[0], n))
    ensures x >= n + Width(args[0]) ==> (x in Inputs(args, n) <==> x in Inputs(args[1..], n + Width(args[0])))
  {
    Numbering(args[1..], n + Width(args[0]));
    assert Inputs(args, n) == ArgInputs(args[0], n) + Inputs(args[1..], n + Width(args[0]));
    if x in Inputs(args[1..], n + Width(args[0])) {
      var j :| 0 <= j < |Inputs(args[1..], n + Width(args[0]))| && Inputs(args[1..], n + Width(args[0]))[j] == x;
    }
  }

  lemma InputLater(args: seq<Arg>, n: Id, x: Id)
    requires args != [] && x >= n + Width(args[0])
    ensures x in Inputs(args, n) <==> x in Inputs(args[1..], n + Width(args[0]))
  {
    InputsSplit(args, n, x);
  }

  lemma LaterDistinguishes(x: Id, args: seq<Arg>, more: seq<Arg>, n: Id, agnostic: bool)
    requires args != [] && more != [] && SameKind(args[0], more[0], agnostic) && x >= n + Width(args[0])
    requires Distinguishes(x, args[1..], more[1..], n + Width(args[0]), agnostic)
    ensures Distinguishes(x, args, more, n, agnostic)
  {
    var m := n + Width(args[0]);
    if ListsDiffer(x, Nodes(args[1..], m), Nodes(more[1..], m)) {
      ListsLater(x, args, more, n, agnostic);
    } else if !agnostic && TwoConstantsAt(x, Nodes(args[1..], m), Nodes(more[1..], m)) {
      ConstantsLater(x, args, more, n);
    } else {
      ScalarsLater(x, args, more, n);
    }
  }

  lemma ScalarsLater(x: Id, args: seq<Arg>, more: seq<Arg>, n: Id)
    requires args != [] && more != [] && Width(args[0]) == Width(more[0]) && x >= n + Width(args[0])
    requires ScalarsDiffer(x, args[1..], more[1..], n + Width(args[0]))
    ensures ScalarsDiffer(x, args, more, n)
  {
    var m := n + Width(args[0]);
    if ScalarName(x, args[1..], m) && x !in Inputs(more[1..], m) {
      ScalarLater(x, args, more, n, m);
    } else {
      ScalarLater(x, more, args, n, m);
    }
  }

  lemma ScalarLater(x: Id, args: seq<Arg>, more: seq<Arg>, n: Id, m: Id)
    requires args != [] && more != [] && m == n + Width(args[0]) == n + Width(more[0]) && x >= m
    requires ScalarName(x, args[1..], m) && x !in Inputs(more[1..], m)
    ensures ScalarName(x, args, n) && x !in Inputs(more, n)
  {
    InputLater(more, n, x);
  }

  lemma ListsLater(x: Id, args: seq<Arg>, more: seq<Arg>, n: Id, agnostic: bool)
    requires args != [] && more != [] && SameKind(args[0], more[0], agnostic) && x >= n + Width(args[0])
    requires ListsDiffer(x, Nodes(args[1..], n + Width(args[0])), Nodes(more[1..], n + Width(args[0])))
    ensures ListsDiffer(x, Nodes(args, n), Nodes(more, n))
  {
    var m := n + Width(args[0]);
    var k: nat :| ((x, k) in Lists(Nodes(args[1..], m))) != ((x, k) in Lists(Nodes(more[1..], m)));
    ListsSplit(args, n);
    ListsSplit(more, n);
    assert (x, k) !in ArgLists(args[0], n) && (x, k) !in ArgLists(more[0], n);
  }

  ghost predicate TwoConstantsAt(x: Id, a: seq<Node>, b: seq<Node>) {
    exists c, d :: c != d && ConstantIn(a, x, c) && ConstantIn(b, x, d)
  }

  lemma ConstantsLater(x: Id, args: seq<Arg>, more: seq<Arg>, n: Id)
    requires args != [] && more != [] && Width(args[0]) == Width(more[0])
    requires TwoConstantsAt(x, Nodes(args[1..], n + Width(args[0])), Nodes(more[1..], n + Width(args[0])))
    ensures TwoConstantsAt(x, Nodes(args, n), Nodes(more, n))
  {
    var a, b := Nodes(args[1..], n + Width(args[0])), Nodes(more[1..], n + Width(args[0]));
    var c, d :| c != d && ConstantIn(a, x, c) && ConstantIn(b, x, d);
    ConstantLater(args, n, x, c);
    ConstantLater(more, n, x, d);
  }

  /** A list against anything else in its place. */
  lemma ListsDistinguish(args: seq<Arg>, more: seq<Arg>, n: Id, agnostic: bool) returns (x: Id)
    requires args != [] && args[0].Many?
    requires more != [] && more[0].Many? ==> |args[0].ts| != |more[0].ts|
    ensures x >= n && Distinguishes(x, args, more, n, agnostic) && Distinguishes(x, more, args, n, agnostic)
  {
    var k := |args[0].ts|;
    x := n + k;
    ListShows(args, more, n);
    assert (x, k) in Lists(Nodes(args, n)) && (x, k) !in Lists(Nodes(more, n));
  }

  lemma ConstantsDistinguish(args: seq<Arg>, more: seq<Arg>, n: Id)
    requires args != [] && more != [] && args[0].Meta? && more[0].Meta? && args[0].c != more[0].c
    ensures Distinguishes(n, args, more, n, false)
  {
    assert Nodes(args, n)[0] == Node(n, Constant(args[0].c), [], [n]);
    assert Nodes(more, n)[0] == Node(n, Constant(more[0].c), [], [n]);
    assert ConstantIn(Nodes(args, n), n, args[0].c) && ConstantIn(Nodes(more, n), n, more[0].c);
  }

  /** The first argument of another kind, neither of the two a list: a name that is an input of one
      graph only, or two constants. */
  lemma FirstDistinguishes(args: seq<Arg>, more: seq<Arg>, n: Id, symbol: string, caching: bool)
    requires args != [] && more != [] && !SameKind(args[0], more[0], Agnostic(symbol, caching))
    requires !args[0].Many? && !more[0].Many?
    requires SameEntry(FlattenArg(args[0])[0], FlattenArg(more[0])[0], symbol, caching)
    ensures Distinguishes(n, args, more, n, Agnostic(symbol, caching))
  {
    if args[0].Meta? && more[0].Meta? {
      ConstantsDistinguish(args, more, n);
    } else {
      InputsSplit(args, n, n);
      InputsSplit(more, n, n);
      assert args[0].Scalar? ==> ScalarName(n, args, n);
      assert more[0].Scalar? ==> ScalarName(n, more, n);
    }
  }

  /** Stacks of one key that differ in their kinds differ in the graph, at some name. */
  lemma {:induction false} KindsShow(args: seq<Arg>, more: seq<Arg>, n: Id, symbol: string, caching: bool) returns (x: Id)
    requires SameEntries(Flatten(args), Flatten(more), symbol, caching)
    requires !SameKinds(args, more, Agnostic(symbol, caching))
    ensures x >= n && Distinguishes(x, args, more, n, Agnostic(symbol, caching))
    decreases |args| + |more|
  {
    var agnostic := Agnostic(symbol, caching);
    if args != [] && more != [] && SameKind(args[0], more[0], agnostic) {
      TailEntries(args, more, symbol, caching);
      KindsOfTail(args, more, agnostic);
      x := KindsShow(args[1..], more[1..], n + Width(args[0]), symbol, caching);
      LaterDistinguishes(x, args, more, n, agnostic);
    } else if args != [] && args[0].Many? {
      x := ListsDistinguish(args, more, n, agnostic);
    } else if more != [] && more[0].Many? {
      x := ListsDistinguish(more, args, n, agnostic);
    } else {
      BothOrNone(args, more, symbol, caching);
      HeadEntry(args, more, symbol, caching);
      FirstDistinguishes(args, more, n, symbol, caching);
      x := n;
    }
  }

  /** One stack cannot end where the other goes on with an argument that is hashed. */
  lemma BothOrNone(args: seq<Arg>, more: seq<Arg>, symbol: string, caching: bool)
    requires SameEntries(Flatten(args), Flatten(more), symbol, caching)
    requires (args != [] ==> !args[0].Many?) && (more != [] ==> !more[0].Many?)
    ensures args == [] <==> more == []
  {
    assert args != [] ==> |Flatten(args)| == 1 + |Flatten(args[1..])|;
    assert more != [] ==> |Flatten(more)| == 1 + |Flatten(more[1..])|;
  }

  lemma KindsOfTail(args: seq<Arg>, more: seq<Arg>, agnostic: bool)
    requires args != [] && more != [] && SameKind(args[0], more[0], agnostic) && !SameKinds(args, more, agnostic)
    ensures !SameKinds(args[1..], more[1..], agnostic)
  {
    if |args| != |more| {
      return;
    }
    var i :| 0 <= i < |args| && !SameKind(args[i], more[i], agnostic);
    assert !SameKind(args[1..][i - 1], more[1..][i - 1], agnostic);
  }

  lemma HeadEntry(args: seq<Arg>, more: seq<Arg>, symbol: string, caching: bool)
    requires args != [] && more != [] && !args[0].Many? && !more[0].Many?
    requires SameEntries(Flatten(args), Flatten(more), symbol, caching)
    ensures SameEntry(FlattenArg(args[0])[0], FlattenArg(more[0])[0], symbol, caching)
  {
    EntriesApart(FlattenArg(args[0]), Flatten(args[1..]), FlattenArg(more[0]), Flatten(more[1..]), symbol, caching);
  }

  lemma TailEntries(args: seq<Arg>, more: seq<Arg>, symbol: string, caching: bool)
    requires args != [] && more != [] && SameEntries(Flatten(args), Flatten(more), symbol, caching)
    requires |FlattenArg(args[0])| == |FlattenArg(more[0])|
    ensures SameEntries(Flatten(args[1..]), Flatten(more[1..]), symbol, caching)
  {
    EntriesApart(FlattenArg(args[0]), Flatten(args[1..]), FlattenArg(more[0]), Flatten(more[1..]), symbol, caching);
  }

  lemma DifferentGraphs(op: OpInfo, args: seq<Arg>, more: seq<Arg>, m: nat, x: Id, agnostic: bool)
    requires Accepted(op, args, m) && Accepted(op, more, m)
    requires Distinguishes(x, args, more, 0, agnostic)
    ensures !HitIsFresh(op, args, more, m, agnostic)
  {
    StateIntact(op, args, m, MetaParams(args, 0, 0, agnostic));
    StateIntact(op, more, m, MetaParams(more, 0, 0, agnostic));
    if ListsDiffer(x, Nodes(args, 0), Nodes(more, 0)) {
      BuiltLists(op, args, m, agnostic);
      BuiltLists(op, more, m, agnostic);
      PatchKeepsLists(BuiltGraph(op, args, m, agnostic), NewValues(BuiltParams(op, args, m, agnostic), more));
    } else if ScalarsDiffer(x, args, more, 0) {
      if ScalarName(x, args, 0) { var p := ScalarIsInput(x, args, 0); }
      if ScalarName(x, more, 0) { var p := ScalarIsInput(x, more, 0); }
    } else {
      var c, d :| c != d && ConstantIn(Nodes(args, 0), x, c) && ConstantIn(Nodes(more, 0), x, d);
      ConstantBuilt(op, args, m, x, c);
      ConstantBuilt(op, more, m, x, d);
      KindPatched(BuiltGraph(op, args, m, false), NewValues(BuiltParams(op, args, m, false), more), x, Constant(c));
    }
  }

  /** A cache hit is a fresh build, exactly: two stacks with the same operator key get the same
      graph, node for node after patching, if and only if they have as many arguments, no argument
      changes between a constant, an input and a list, no constant changes its type where constants
      are not patched, and tensor lists keep their lengths. */
  lemma HitIsFreshIff(op: OpInfo, args: seq<Arg>, more: seq<Arg>, m: nat,
                      det: bool, parent: seq<nat>, det': bool, parent': seq<nat>, caching: bool)
    requires Accepted(op, args, m) && Accepted(op, more, m)
    requires AllOnDevice(args) && AllOnDevice(more)
    requires KeyOf(op.symbol, m, det, parent, args, caching) == KeyOf(op.symbol, m, det', parent', more, caching)
    ensures HitIsFresh(op, args, more, m, Agnostic(op.symbol, caching)) <==> SameKinds(args, more, Agnostic(op.symbol, caching))
  {
    var agnostic := Agnostic(op.symbol, caching);
    KeysGiveEntries(args, more, op.symbol, caching);
    if SameKinds(args, more, agnostic) {
      EntriesFixShape(args, more, op.symbol, caching);
      PatchedIsFresh(op, args, more, m, agnostic);
    } else {
      var x := KindsShow(args, more, 0, op.symbol, caching);
      DifferentGraphs(op, args, more, m, x, agnostic);
    }
  }

  // --- the ways two stacks may share a key and not a graph ---

  /** None and an empty list leave the same words. */
  lemma NoneSharesKeyWithEmptyList(symbol: string, m: nat, det: bool, caching: bool)
    requires !Agnostic(symbol, caching)
    ensures var none, empty := [Meta(IValue.None)], [Meta(IntList([]))];
            && KeyOf(symbol, m, det, [], none, caching) == KeyOf(symbol, m, det, [], empty, caching)
            && !SameKinds(none, empty, Agnostic(symbol, caching))
  {
    var none, empty := [Meta(IValue.None)], [Meta(IntList([]))];
    OneInput(none[0]);
    OneInput(empty[0]);
    assert Atoms(IntList([])) == Atoms(IValue.None);
    assert Bases(Flatten(none)) == Bases(Flatten(empty)) == [0];
    assert Entries(Flatten(none), symbol, caching) == Entries(Flatten(empty), symbol, caching);
    assert !SameKind(none[0], empty[0], Agnostic(symbol, caching));
  }

  lemma OneInput(a: Arg)
    ensures Flatten([a]) == FlattenArg(a)
  {
    assert Flatten([a]) == FlattenArg(a) + Flatten([]);
  }

  lemma TwoInputs(a: Arg, b: Arg)
    ensures Flatten([a, b]) == FlattenArg(a) + FlattenArg(b)
  {
    assert [a, b][1..] == [b];
    OneInput(b);
  }

  /** An absent and a present optional number may swap places, where neither is hashed. */
  lemma AbsentScalarSharesKey(symbol: string, c: IValue, m: nat, det: bool, parent: seq<nat>, caching: bool)
    requires SkipsScalars(symbol, caching)
    ensures var first, second := [Scalar(c), Meta(IValue.None)], [Meta(IValue.None), Scalar(c)];
            && KeyOf(symbol, m, det, parent, first, caching) == KeyOf(symbol, m, det, parent, second, caching)
            && !SameKinds(first, second, Agnostic(symbol, caching))
  {
    var first, second := [Scalar(c), Meta(IValue.None)], [Meta(IValue.None), Scalar(c)];
    TwoInputs(first[0], first[1]);
    TwoInputs(second[0], second[1]);
    assert Entries(Flatten(first), symbol, caching) == [Skipped, Skipped] == Entries(Flatten(second), symbol, caching);
    assert !SameKind(first[0], second[0], Agnostic(symbol, caching));
  }

  /** Lists are flattened without their boundaries. */
  lemma ListsShareKey(symbol: string, t: TensorArg, u: TensorArg, m: nat, det: bool, parent: seq<nat>, caching: bool)
    ensures var left, right := [Many([t, u]), Many([])], [Many([t]), Many([u])];
            && KeyOf(symbol, m, det, parent, left, caching) == KeyOf(symbol, m, det, parent, right, caching)
            && !SameKinds(left, right, Agnostic(symbol, caching))
  {
    var left, right := [Many([t, u]), Many([])], [Many([t]), Many([u])];
    TwoInputs(left[0], left[1]);
    TwoInputs(right[0], right[1]);
    assert Flatten(left) == [TensorInput(t), TensorInput(u)] == Flatten(right);
    assert !SameKind(left[0], right[0], Agnostic(symbol, caching));
  }

  /** Overloads of one operator share its symbol: a list and a single tensor in the same place. */
  lemma OverloadsShareKey(symbol: string, t: TensorArg, u: TensorArg, c: IValue, m: nat, det: bool, parent: seq<nat>, caching: bool)
    ensures var listed, single := [Many([t]), Many([u]), Scalar(c)], [Many([t]), One(u), Scalar(c)];
            && KeyOf(symbol, m, det, parent, listed, caching) == KeyOf(symbol, m, det, parent, single, caching)
            && !SameKinds(listed, single, Agnostic(symbol, caching))
  {
    var listed, single := [Many([t]), Many([u]), Scalar(c)], [Many([t]), One(u), Scalar(c)];
    assert listed[1..] == [Many([u]), Scalar(c)] && single[1..] == [One(u), Scalar(c)];
    TwoInputs(listed[1], listed[2]);
    TwoInputs(single[1], single[2]);
    assert Flatten(listed) == [TensorInput(t), TensorInput(u), ScalarInput(c)] == Flatten(single);
    assert !SameKind(listed[1], single[1], Agnostic(symbol, caching));
  }
}
