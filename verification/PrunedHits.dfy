/**
 Cache hits on the graphs as they are cached, after duplicate inputs were merged and erased: the
 same kinds of difference that show in the built graphs show in the pruned ones.
 */
module PrunedHits {
  import opened JitGraph
  import opened ViewLowering
  import opened EagerGraph
  import opened LoweringMeaning
  import opened EagerPass
  import opened DuplicateInputs
  import opened CachePatch
  import opened OperatorKey
  import opened ListNodes
  import opened CacheHits

  /** The graph the miss path caches. */
  ghost function CachedGraph(op: OpInfo, args: seq<Arg>, m: nat, agnostic: bool, parent: seq<nat>): Graph
    requires Accepted(op, args, m) && |parent| == |Inputs(args, 0)| && ParentsValid(parent)
  {
    StateIntact(op, args, m, MetaParams(args, 0, 0, agnostic));
    PrunedGraph(BuiltGraph(op, args, m, agnostic), parent)
  }

  /** The cached graph of one stack, patched for another, is the graph the other would cache. */
  ghost predicate CachedHitIsFresh(op: OpInfo, args: seq<Arg>, more: seq<Arg>, m: nat, agnostic: bool, parent: seq<nat>)
    requires Accepted(op, args, m) && Accepted(op, more, m)
    requires |parent| == |Inputs(args, 0)| == |Inputs(more, 0)| && ParentsValid(parent)
  {
    && ParamsFit(BuiltParams(op, args, m, agnostic), more)
    && Patch(CachedGraph(op, args, m, agnostic, parent), NewValues(BuiltParams(op, args, m, agnostic), more))
       == CachedGraph(op, more, m, agnostic, parent)
  }

  /** A number is never merged into another input. */
  predicate ScalarsKept(args: seq<Arg>, parent: seq<nat>) {
    forall p :: 0 <= p < |parent| && p < |Inputs(args, 0)| && ScalarName(Inputs(args, 0)[p], args, 0) ==> parent[p] == UNIQUE_ID
  }

  lemma {:induction false} MergeKeepsLists(g: Graph, parent: seq<nat>, n: nat)
    requires n <= |parent| == |g.inputs| && ParentsValid(parent)
    ensures Lists(MergeUpTo(g, parent, n).nodes) == Lists(g.nodes)
  {
    if n > 0 {
      MergeKeepsLists(g, parent, n - 1);
      var h := MergeUpTo(g, parent, n - 1);
      if parent[n - 1] != UNIQUE_ID {
        AlikeLists(RenameNodes(h.nodes, g.inputs[n - 1], g.inputs[parent[n - 1]]), h.nodes);
      }
    }
  }

  lemma {:induction false} MergeKeepsKind(g: Graph, parent: seq<nat>, n: nat, x: Id, kind: Kind)
    requires n <= |parent| == |g.inputs| && ParentsValid(parent) && KindAt(g.nodes, x, kind)
    ensures KindAt(MergeUpTo(g, parent, n).nodes, x, kind)
  {
    if n > 0 {
      MergeKeepsKind(g, parent, n - 1, x, kind);
      var h := MergeUpTo(g, parent, n - 1);
      if parent[n - 1] != UNIQUE_ID {
        RenameKeepsKind(h.nodes, g.inputs[n - 1], g.inputs[parent[n - 1]], x, kind);
      }
    }
  }

  lemma RenameKeepsKind(nodes: seq<Node>, v: Id, w: Id, x: Id, kind: Kind)
    requires KindAt(nodes, x, kind)
    ensures KindAt(RenameNodes(nodes, v, w), x, kind)
  {
    var i := NodeIndex(nodes, x);
    assert RenameNodes(nodes, v, w)[i].id == x;
  }

  lemma CachedInputs(op: OpInfo, args: seq<Arg>, m: nat, agnostic: bool, parent: seq<nat>)
    requires Accepted(op, args, m) && |parent| == |Inputs(args, 0)| && ParentsValid(parent)
    ensures CachedGraph(op, args, m, agnostic, parent).inputs == Survivors(Inputs(args, 0), parent)
  {
    StateIntact(op, args, m, MetaParams(args, 0, 0, agnostic));
  }

  lemma CachedLists(op: OpInfo, args: seq<Arg>, m: nat, agnostic: bool, parent: seq<nat>)
    requires Accepted(op, args, m) && |parent| == |Inputs(args, 0)| && ParentsValid(parent)
    ensures Lists(CachedGraph(op, args, m, agnostic, parent).nodes) == Lists(Nodes(args, 0))
  {
    StateIntact(op, args, m, MetaParams(args, 0, 0, agnostic));
    MergeKeepsLists(BuiltGraph(op, args, m, agnostic), parent, |parent|);
    BuiltLists(op, args, m, agnostic);
  }

  lemma CachedConstant(op: OpInfo, args: seq<Arg>, m: nat, parent: seq<nat>, x: Id, c: IValue)
    requires Accepted(op, args, m) && |parent| == |Inputs(args, 0)| && ParentsValid(parent)
    requires ConstantIn(Nodes(args, 0), x, c)
    ensures KindAt(CachedGraph(op, args, m, false, parent).nodes, x, Constant(c))
    ensures x !in BuiltParams(op, args, m, false)
  {
    StateIntact(op, args, m, MetaParams(args, 0, 0, false));
    ConstantBuilt(op, args, m, x, c);
    MergeKeepsKind(BuiltGraph(op, args, m, false), parent, |parent|, x, Constant(c));
  }

  /** A number's name survives, and no name appears that was not an input. */
  lemma ScalarSurvives(x: Id, args: seq<Arg>, more: seq<Arg>, parent: seq<nat>)
    requires |parent| == |Inputs(args, 0)| == |Inputs(more, 0)| && ScalarsKept(args, parent)
    requires ScalarName(x, args, 0) && x !in Inputs(more, 0)
    ensures x in Survivors(Inputs(args, 0), parent) && x !in Survivors(Inputs(more, 0), parent)
  {
    var p := ScalarIsInput(x, args, 0);
    InputsIncrease(args, 0);
    InputsIncrease(more, 0);
    var vals := seq(|parent|, _ => Absent);
    SurvivorValue(Inputs(args, 0), vals, parent, p);
    SurvivorValue(Inputs(more, 0), vals, parent, p);
  }

  lemma DifferentCachedGraphs(op: OpInfo, args: seq<Arg>, more: seq<Arg>, m: nat, x: Id, agnostic: bool, parent: seq<nat>)
    requires Accepted(op, args, m) && Accepted(op, more, m)
    requires |parent| == |Inputs(args, 0)| == |Inputs(more, 0)| && ParentsValid(parent)
    requires ScalarsKept(args, parent) && ScalarsKept(more, parent) && Distinguishes(x, args, more, 0, agnostic)
    ensures !CachedHitIsFresh(op, args, more, m, agnostic, parent)
  {
    var fix := NewValues(BuiltParams(op, args, m, agnostic), more);
    if ListsDiffer(x, Nodes(args, 0), Nodes(more, 0)) {
      CachedLists(op, args, m, agnostic, parent);
      CachedLists(op, more, m, agnostic, parent);
      PatchKeepsLists(CachedGraph(op, args, m, agnostic, parent), fix);
    } else if ScalarsDiffer(x, args, more, 0) {
      CachedInputs(op, args, m, agnostic, parent);
      CachedInputs(op, more, m, agnostic, parent);
      if ScalarName(x, args, 0) && x !in Inputs(more, 0) {
        ScalarSurvives(x, args, more, parent);
      } else {
        ScalarSurvives(x, more, args, parent);
      }
    } else {
      var c, d :| c != d && ConstantIn(Nodes(args, 0), x, c) && ConstantIn(Nodes(more, 0), x, d);
      CachedConstant(op, args, m, parent, x, c);
      CachedConstant(op, more, m, parent, x, d);
      KindPatched(CachedGraph(op, args, m, false, parent), fix, x, Constant(c));
    }
  }

  /** A hit in the cache is a fresh build, exactly: of two stacks with one key, the cached, pruned graph
      of the first, patched for the second, is the one the second would cache, if and only if the
      argument kinds agree. */
  lemma CachedHitIsFreshIff(op: OpInfo, args: seq<Arg>, more: seq<Arg>, m: nat, det: bool, det': bool, parent: seq<nat>, caching: bool)
    requires Accepted(op, args, m) && Accepted(op, more, m)
    requires AllOnDevice(args) && AllOnDevice(more)
    requires |parent| == |Inputs(args, 0)| == |Inputs(more, 0)| && ParentsValid(parent)
    requires ScalarsKept(args, parent) && ScalarsKept(more, parent)
    requires KeyOf(op.symbol, m, det, parent, args, caching) == KeyOf(op.symbol, m, det', parent, more, caching)
    ensures CachedHitIsFresh(op, args, more, m, Agnostic(op.symbol, caching), parent)
            <==> SameKinds(args, more, Agnostic(op.symbol, caching))
  {
    var agnostic := Agnostic(op.symbol, caching);
    KeysGiveEntries(args, more, op.symbol, caching);
    if SameKinds(args, more, agnostic) {
      EntriesFixShape(args, more, op.symbol, caching);
      PatchedIsFresh(op, args, more, m, agnostic);
      PatchedPrunedIsFresh(op, args, more, m, agnostic, parent);
    } else {
      var x := KindsShow(args, more, 0, op.symbol, caching);
      DifferentCachedGraphs(op, args, more, m, x, agnostic, parent);
    }
  }
}
