/**
 EagerExec::launch up to the lowering task: flatten the stack, find duplicates, look the
 operator key up, patch or build the graph, and the invariant of the cache over all launches.
 */
module EagerLaunch {
  import opened IndexSpace
  import opened StridedViews
  import opened JitGraph
  import opened ViewLowering
  import opened EagerGraph
  import opened LoweringMeaning
  import opened StorageUpdate
  import opened EagerPass
  import opened DuplicateInputs
  import opened CachePatch
  import opened OperatorKey
  import opened CacheHits
  import opened PrunedHits

  // --- the input stack ---

  function ArgItems(a: Arg, stored: TensorArg -> bool): seq<Item> {
    match a
    case Meta(_) => []
    case Scalar(c) => [Number(c)]
    case One(t) => [Ten(t, stored(t))]
    case Many(ts) => seq(|ts|, j requires 0 <= j < |ts| => Ten(ts[j], stored(ts[j])))
  }

  /** prepare_input_stack: scalars and tensors, lists flattened, metadata dropped. */
  function Items(args: seq<Arg>, stored: TensorArg -> bool): seq<Item> {
    if args == [] then [] else ArgItems(args[0], stored) + Items(args[1..], stored)
  }

  /** The stack and the graph inputs are aligned. */
  lemma {:induction false} ItemsAlignWithInputs(args: seq<Arg>, n: Id, stored: TensorArg -> bool)
    ensures |Items(args, stored)| == |Inputs(args, n)|
    decreases |args|
  {
    if args != [] { ItemsAlignWithInputs(args[1..], n + Width(args[0]), stored); }
  }

  lemma ItemsUnfold(args: seq<Arg>, i: nat, stored: TensorArg -> bool)
    requires i < |args|
    ensures Items(args[i..], stored) == ArgItems(args[i], stored) + Items(args[i + 1..], stored)
  {
    assert args[i..][1..] == args[i + 1..];
  }

  method PrepareInputStack(args: seq<Arg>, stored: TensorArg -> bool) returns (stack: seq<Item>)
    ensures stack == Items(args, stored)
  {
    stack := [];
    assert args[0..] == args;
    for i := 0 to |args|
      invariant stack + Items(args[i..], stored) == Items(args, stored)
    {
      ItemsUnfold(args, i, stored);
      Associative(stack, ArgItems(args[i], stored), Items(args[i + 1..], stored));
      stack := stack + ArgItems(args[i], stored);
    }
    assert stack + [] == stack;
  }

  lemma ParentsOfStack(stack: seq<Item>, size: nat -> nat, parent: seq<nat>)
    requires ParentVector(stack, size, parent) && |stack| < UNIQUE_ID
    ensures ParentsValid(parent)
  {
    forall i | 0 <= i < |parent| && parent[i] != UNIQUE_ID ensures parent[i] < i && parent[parent[i]] == UNIQUE_ID {
      ParentsAreUnique(stack, size, parent, i);
    }
  }

  // --- the cache ---

  /** A cached graph with its parameter map. */
  datatype Cached = Cached(graph: Graph, params: ParamMap)

  /** What launch hands to the lowering stage: the graph with its constants, and the pruned stack. */
  datatype Launched = Launched(graph: Graph, stack: seq<Item>, hit: bool) | PatchFailed

  ghost function Patched(c: Cached, args: seq<Arg>, stack: seq<Item>): Launched {
    if ParamsFit(c.params, args) then Launched(Patch(c.graph, NewValues(c.params, args)), stack, true) else PatchFailed
  }

  class Launcher {
    const metas: string -> OpMeta
    const size: nat -> nat
    const stored: TensorArg -> bool
    const caching: bool
    var cache: map<Key, Cached>
    /** The stack each cached graph was built from. */
    ghost var origin: map<Key, seq<Arg>>

    constructor (metas: string -> OpMeta, size: nat -> nat, stored: TensorArg -> bool, caching: bool)
      ensures Valid() && cache == map[]
      ensures this.metas == metas && this.size == size && this.stored == stored && this.caching == caching
    {
      this.metas, this.size, this.stored, this.caching := metas, size, stored, caching;
      cache, origin := map[], map[];
    }

    function Info(symbol: string): OpInfo { DescribeOp(symbol, metas(symbol)) }

    predicate Callable(symbol: string, m: nat, args: seq<Arg>) {
      Accepted(Info(symbol), args, m) && AllOnDevice(args)
    }

    /** The graph a launch must run: lowered and pruned. */
    ghost function Fresh(symbol: string, m: nat, args: seq<Arg>, parent: seq<nat>): Graph
      requires Callable(symbol, m, args) && |parent| == |Inputs(args, 0)| && ParentsValid(parent)
    {
      CachedGraph(Info(symbol), args, m, Agnostic(symbol, caching), parent)
    }

    /** What find_duplicate_in_stack makes of the stack. */
    ghost predicate ParentsOf(args: seq<Arg>, parent: seq<nat>) {
      && |Items(args, stored)| < UNIQUE_ID && ParentVector(Items(args, stored), size, parent)
      && |parent| == |Inputs(args, 0)| && ParentsValid(parent)
    }

    ghost predicate Describes(key: Key, args: seq<Arg>, c: Cached) {
      && Callable(key.symbol, key.outputs, args)
      && key == KeyOf(key.symbol, key.outputs, key.deterministic, key.parent, args, caching)
      && ParentsOf(args, key.parent)
      && c.graph == Fresh(key.symbol, key.outputs, args, key.parent)
      && c.params == BuiltParams(Info(key.symbol), args, key.outputs, Agnostic(key.symbol, caching))
    }

    /** Every cached graph is the fresh graph of the stack it came from, under that stack's key. */
    ghost predicate Valid()
      reads this
    {
      cache.Keys == origin.Keys && forall key :: key in cache ==> Describes(key, origin[key], cache[key])
    }

    /** Build the graph of a stack: create_eager_graph, the view pass, input pruning. */
    method Build(symbol: string, m: nat, args: seq<Arg>, parent: seq<nat>) returns (c: Cached)
      requires Callable(symbol, m, args) && |parent| == |Inputs(args, 0)| && ParentsValid(parent)
      ensures c.graph == Fresh(symbol, m, args, parent)
      ensures c.params == BuiltParams(Info(symbol), args, m, Agnostic(symbol, caching))
    {
      var pass := new Pass();
      pass.CreateEagerGraph(symbol, args, m, Agnostic(symbol, caching));
      pass.HandleInputOutputViews(Info(symbol), args, m);
      StateIntact(Info(symbol), args, m, MetaParams(args, 0, 0, Agnostic(symbol, caching)));
      var g := PruneDuplicateGraphInputs(Graph(pass.inputs, pass.nodes, pass.outputs, pass.next), parent);
      c := Cached(g, pass.params);
    }

    /** What serving a key does to the cache and returns: a hit patches the cached graph and changes
        nothing, a miss builds, remembers and runs the fresh graph. */
    twostate predicate Served(key: Key, args: seq<Arg>, stack: seq<Item>, r: Launched)
      requires Callable(key.symbol, key.outputs, args) && ParentsOf(args, key.parent)
      reads this
    {
      var built := Fresh(key.symbol, key.outputs, args, key.parent);
      if key in old(cache) then
        && cache == old(cache) && origin == old(origin) && key in old(origin)
        && r == Patched(old(cache)[key], args, stack)
        && (r == Launched(built, stack, true) <==> SameKinds(old(origin)[key], args, Agnostic(key.symbol, caching)))
      else
        && r == Launched(built, stack, false)
        && key in cache && cache == old(cache)[key := cache[key]] && origin == old(origin)[key := args]
    }

    method Serve(key: Key, args: seq<Arg>, stack: seq<Item>) returns (r: Launched)
      requires Valid() && Callable(key.symbol, key.outputs, args)
      requires key == KeyOf(key.symbol, key.outputs, key.deterministic, key.parent, args, caching)
      requires ParentsOf(args, key.parent)
      modifies this
      ensures Valid() && Served(key, args, stack, r)
    {
      if key in cache {
        r := PatchCached(key, args, stack);
      } else {
        var c := Build(key.symbol, key.outputs, args, key.parent);
        r := Launched(c.graph, stack, false);
        Remember(key, c, args);
      }
    }

    /** One eager op: the parent vector of its stack, then the graph under its key. A hit
        runs exactly the graph a miss would have built, if and only if the stack has the kinds of the stack
        the cached graph was built from. */
    method Launch(symbol: string, m: nat, deterministic: bool, args: seq<Arg>) returns (r: Launched, ghost parent: seq<nat>)
      requires Valid() && Callable(symbol, m, args)
      requires |Items(args, stored)| < UNIQUE_ID
      modifies this
      ensures Valid()
      ensures ParentsOf(args, parent)
      ensures Served(KeyOf(symbol, m, deterministic, parent, args, caching), args, Survivors(Items(args, stored), parent), r)
    {
      var stack := PrepareInputStack(args, stored);
      var parents := FindDuplicateInStack(stack, size);
      parent := parents;
      ItemsAlignWithInputs(args, 0, stored);
      ParentsOfStack(stack, size, parents);
      stack := EraseDuplicates(stack, parents);
      var key := CalculateOperatorKey(symbol, m, deterministic, parents, args, caching);
      r := Serve(key, args, stack);
    }

    method Remember(key: Key, c: Cached, ghost args: seq<Arg>)
      requires Valid() && Describes(key, args, c)
      modifies this
      ensures Valid() && cache == old(cache)[key := c] && origin == old(origin)[key := args]
    {
      cache := cache[key := c];
      origin := origin[key := args];
    }

    /** The hit path of launch. */
    method PatchCached(key: Key, args: seq<Arg>, stack: seq<Item>) returns (r: Launched)
      requires Valid() && key in cache && Callable(key.symbol, key.outputs, args)
      requires key == KeyOf(key.symbol, key.outputs, key.deterministic, key.parent, args, caching)
      requires ParentsOf(args, key.parent)
      ensures r == Patched(cache[key], args, stack)
      ensures r == Launched(Fresh(key.symbol, key.outputs, args, key.parent), stack, true)
              <==> SameKinds(origin[key], args, Agnostic(key.symbol, caching))
    {
      var c := cache[key];
      assert Describes(key, origin[key], c);
      HitRunsFreshIff(key, origin[key], args, c);
      var ok, fix := ProcessNodeParams(c.params, args);
      r := if ok then Launched(Patch(c.graph, fix), stack, true) else PatchFailed;
    }

    /** A hit runs the graph a miss would have built if and only if the stack has the kinds of the stack
        the cached graph came from. */
    lemma HitRunsFreshIff(key: Key, before: seq<Arg>, args: seq<Arg>, c: Cached)
      requires Describes(key, before, c) && Callable(key.symbol, key.outputs, args)
      requires key == KeyOf(key.symbol, key.outputs, key.deterministic, key.parent, args, caching)
      requires ParentsOf(args, key.parent)
      ensures ParamsFit(c.params, args) && Patch(c.graph, NewValues(c.params, args)) == Fresh(key.symbol, key.outputs, args, key.parent)
              <==> SameKinds(before, args, Agnostic(key.symbol, caching))
    {
      ScalarsUnmerged(before, stored, size, key.parent);
      ScalarsUnmerged(args, stored, size, key.parent);
      CachedHitIsFreshIff(Info(key.symbol), before, args, key.outputs, key.deterministic, key.deterministic, key.parent, caching);
    }
  }

  function TensorsIn(a: Arg): seq<TensorArg> {
    match a
    case One(t) => [t]
    case Many(ts) => ts
    case _ => []
  }

  /** The early exit: if one tensor of the call has no storage, nothing is a duplicate. */
  lemma NoStorageNoDuplicates(args: seq<Arg>, stored: TensorArg -> bool, size: nat -> nat, parent: seq<nat>, i: nat, j: nat)
    requires ParentVector(Items(args, stored), size, parent)
    requires i < |args| && j < |TensorsIn(args[i])| && !stored(TensorsIn(args[i])[j])
    ensures forall p :: 0 <= p < |parent| ==> parent[p] == UNIQUE_ID
  {
    var p := TensorItem(args, stored, i, j);
  }

  lemma {:induction false} TensorItem(args: seq<Arg>, stored: TensorArg -> bool, i: nat, j: nat) returns (p: nat)
    requires i < |args| && j < |TensorsIn(args[i])|
    ensures p < |Items(args, stored)| && Items(args, stored)[p] == Ten(TensorsIn(args[i])[j], stored(TensorsIn(args[i])[j]))
    decreases |args|
  {
    var rest, first := args[1..], ArgItems(args[0], stored);
    ItemsAfterFirst(args, rest, stored);
    if i == 0 {
      p := j;
    } else {
      var q := TensorItem(rest, stored, i - 1, j);
      p := |first| + q;
      ItemLater(Items(args, stored), first, Items(rest, stored), p, q);
    }
  }

  /** A number of the stack is a number among the inputs, in the same place. */
  lemma {:induction false} ScalarItem(args: seq<Arg>, n: Id, stored: TensorArg -> bool, p: nat)
    requires p < |Inputs(args, n)| && ScalarName(Inputs(args, n)[p], args, n)
    ensures p < |Items(args, stored)| && Items(args, stored)[p].Number?
    decreases |args|
  {
    var rest, m, k := args[1..], n + Width(args[0]), |ArgInputs(args[0], n)|;
    ItemsOfCons(args, rest, n, m, stored);
    if p < k {
      FirstScalar(args, rest, n, m, p);
    } else {
      var j := p - k;
      LaterScalar(args, rest, n, m, p, j);
      ScalarItem(rest, m, stored, j);
      ItemLater(Items(args, stored), ArgItems(args[0], stored), Items(rest, stored), p, j);
    }
  }

  lemma LaterScalar(args: seq<Arg>, rest: seq<Arg>, n: Id, m: Id, p: nat, j: nat)
    requires args != [] && rest == args[1..] && m == n + Width(args[0])
    requires p == |ArgInputs(args[0], n)| + j && p < |Inputs(args, n)| && ScalarName(Inputs(args, n)[p], args, n)
    ensures j < |Inputs(rest, m)| && ScalarName(Inputs(rest, m)[j], rest, m)
  {
    InputsOfCons(args, rest, n);
    Numbering(rest, m);
  }

  lemma ItemLater(all: seq<Item>, items: seq<Item>, later: seq<Item>, i: nat, j: nat)
    requires all == items + later && i == |items| + j && j < |later|
    ensures i < |all| && all[i] == later[j]
  {
  }

  lemma ItemsOfCons(args: seq<Arg>, rest: seq<Arg>, n: Id, m: Id, stored: TensorArg -> bool)
    requires args != [] && rest == args[1..] && m == n + Width(args[0])
    ensures |ArgItems(args[0], stored)| == |ArgInputs(args[0], n)| && |Items(rest, stored)| == |Inputs(rest, m)|
    ensures Inputs(args, n) == ArgInputs(args[0], n) + Inputs(rest, m)
    ensures Items(args, stored) == ArgItems(args[0], stored) + Items(rest, stored)
  {
    InputsOfCons(args, rest, n);
    ItemsAfterFirst(args, rest, stored);
    FirstAligned(args[0], n, stored);
    ItemsAlignWithInputs(rest, m, stored);
  }

  lemma ItemsAfterFirst(args: seq<Arg>, rest: seq<Arg>, stored: TensorArg -> bool)
    requires args != [] && rest == args[1..]
    ensures Items(args, stored) == ArgItems(args[0], stored) + Items(rest, stored)
  {
  }

  lemma FirstAligned(a: Arg, n: Id, stored: TensorArg -> bool)
    ensures |ArgItems(a, stored)| == |ArgInputs(a, n)|
  {
  }

  lemma FirstScalar(args: seq<Arg>, rest: seq<Arg>, n: Id, m: Id, p: nat)
    requires args != [] && rest == args[1..] && m == n + Width(args[0]) && p < |ArgInputs(args[0], n)|
    requires ScalarName(ArgInputs(args[0], n)[p], args, n)
    ensures args[0].Scalar?
  {
    var x := ArgInputs(args[0], n)[p];
    if ScalarName(x, rest, m) {
      var q := ScalarIsInput(x, rest, m);
      Numbering(rest, m);
    }
  }

  lemma ScalarsUnmerged(args: seq<Arg>, stored: TensorArg -> bool, size: nat -> nat, parent: seq<nat>)
    requires ParentVector(Items(args, stored), size, parent) && |parent| == |Inputs(args, 0)|
    ensures ScalarsKept(args, parent)
  {
    var stack := Items(args, stored);
    forall p: nat | p < |parent| && ScalarName(Inputs(args, 0)[p], args, 0) ensures parent[p] == UNIQUE_ID {
      ScalarItem(args, 0, stored, p);
      if AllHaveStorage(stack) { assert ParentAt(stack, size, parent, p); }
    }
  }
}
