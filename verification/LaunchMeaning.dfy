/**
 What a launch computes: the lowered, pruned, cached graph, run on the pruned stack of base
 buffers, leaves the memory an eager call leaves.
 */
module LaunchMeaning {
  import opened IndexSpace
  import opened StridedViews
  import opened JitGraph
  import opened ViewLowering
  import opened EagerGraph
  import opened LoweringMeaning
  import opened OpReplacement
  import opened StorageUpdate
  import opened EagerPass
  import opened DuplicateInputs
  import opened CachePatch
  import opened OperatorKey
  import opened CacheHits
  import opened PrunedHits
  import opened EagerLaunch

  // --- the built graph is well formed ---

  lemma {:induction false} LowerReady(ctx: Ctx, st: State, outs: seq<Id>, slots: seq<Slot>)
    requires Ready(ctx, st, outs, slots)
    ensures WellFormed(Lower(ctx, st, outs, slots).g)
    decreases |slots|
  {
    if slots != [] {
      ReadyStep(ctx, st, outs, slots);
      LowerReady(ctx, HandleSlot(ctx, st, slots[0]), outs, slots[1..]);
    }
  }

  lemma ReplacedWellFormed(ctx: Ctx, g: Graph)
    requires WellFormed(g)
    ensures WellFormed(Replaced(ctx, g))
  {
    var r := Replaced(ctx, g);
    forall i | 0 <= i < |r.nodes|
      ensures NodeBelow(r.nodes[i], g.next) && r.nodes[i].outputs == g.nodes[i].outputs && r.nodes[i].id == g.nodes[i].id
    {
      assert NodeBelow(g.nodes[i], g.next);
    }
  }

  lemma BuiltWellFormed(op: OpInfo, args: seq<Arg>, m: nat, agnostic: bool)
    requires Accepted(op, args, m)
    ensures WellFormed(BuiltGraph(op, args, m, agnostic))
    ensures BuiltGraph(op, args, m, agnostic).inputs == Inputs(args, 0) && Distinct(Inputs(args, 0))
  {
    var params := MetaParams(args, 0, 0, agnostic);
    LoweredWellFormed(op, args, m, params);
    ReplacedWellFormed(Context(op, args), LoweredState(op, args, m, params).g);
    StateIntact(op, args, m, params);
    InputsIncrease(args, 0);
  }

  lemma LoweredWellFormed(op: OpInfo, args: seq<Arg>, m: nat, params: ParamMap)
    requires Accepted(op, args, m)
    ensures WellFormed(LoweredState(op, args, m, params).g)
  {
    CreatedReady(op, args, m, params);
    LowerReady(Context(op, args), InitialState(Created(op.symbol, args, m), params), Range(TotalWidth(args) + 1, m), AllSlots(args));
  }

  // --- what the stack holds at run time ---

  ghost function ArgBuffers(a: Arg, mem: Mem): seq<Value>
    requires ArgHeld(a, mem)
  {
    match a
    case Meta(_) => []
    case Scalar(c) => [Const(c)]
    case One(t) => [BaseValue(t, mem)]
    case Many(ts) => seq(|ts|, j requires 0 <= j < |ts| => BaseValue(ts[j], mem))
  }

  /** The values of the stack entries: the base buffer of a lowered view, any other tensor itself. */
  ghost function Buffers(args: seq<Arg>, mem: Mem): seq<Value>
    requires AllHeld(args, mem)
  {
    if args == [] then [] else ArgBuffers(args[0], mem) + Buffers(args[1..], mem)
  }

  ghost predicate Holds(env: Env, ids: seq<Id>, vals: seq<Value>) {
    |ids| == |vals| && forall i :: 0 <= i < |ids| ==> Lookup(env, ids[i]) == vals[i]
  }

  lemma HoldsParts(env: Env, ids: seq<Id>, a: seq<Id>, b: seq<Id>, vals: seq<Value>, u: seq<Value>, v: seq<Value>)
    requires Holds(env, ids, vals) && ids == a + b && vals == u + v && |a| == |u|
    ensures Holds(env, a, u) && Holds(env, b, v)
  {
    forall i | 0 <= i < |a| ensures Lookup(env, a[i]) == u[i] { assert ids[i] == a[i] && vals[i] == u[i]; }
    forall i | 0 <= i < |b| ensures Lookup(env, b[i]) == v[i] { assert ids[|a| + i] == b[i] && vals[|a| + i] == v[i]; }
  }

  lemma FirstBound(a: Arg, n: Id, env: Env, mem: Mem)
    requires ArgHeld(a, mem) && Holds(env, ArgInputs(a, n), ArgBuffers(a, mem))
    ensures BoundArg(a, n, env, mem)
  {
    if a.Many? {
      forall j | 0 <= j < |a.ts| ensures Lookup(env, n + j) == BaseValue(a.ts[j], mem) {
        assert ArgInputs(a, n)[j] == n + j && ArgBuffers(a, mem)[j] == BaseValue(a.ts[j], mem);
      }
    } else if !a.Meta? {
      assert ArgInputs(a, n)[0] == n;
    }
  }

  lemma {:induction false} InputsBound(args: seq<Arg>, n: Id, env: Env, mem: Mem)
    requires AllHeld(args, mem) && Holds(env, Inputs(args, n), Buffers(args, mem))
    ensures Bound(args, n, env, mem)
    decreases |args|
  {
    if args != [] {
      var rest, m := args[1..], n + Width(args[0]);
      InputsOfCons(args, rest, n);
      BuffersOfCons(args, rest, mem);
      FirstCount(args[0], n, mem);
      HoldsParts(env, Inputs(args, n), ArgInputs(args[0], n), Inputs(rest, m), Buffers(args, mem), ArgBuffers(args[0], mem), Buffers(rest, mem));
      FirstBound(args[0], n, env, mem);
      InputsBound(rest, m, env, mem);
    }
  }

  lemma {:induction false} BufferOfItem(args: seq<Arg>, stored: TensorArg -> bool, mem: Mem, i: nat)
    requires AllHeld(args, mem) && AllOnDevice(args) && i < |Items(args, stored)|
    ensures |Buffers(args, mem)| == |Items(args, stored)|
    ensures var x := Items(args, stored)[i];
            x.Ten? ==> x.t.hpu && Held(x.t, mem) && Buffers(args, mem)[i] == BaseValue(x.t, mem)
    decreases |args|
  {
    var rest, first := args[1..], ArgItems(args[0], stored);
    assert OnDevice(args[0]);
    BuffersOfCons(args, rest, mem);
    ItemsAfterFirst(args, rest, stored);
    SameCount(rest, stored, mem);
    BufferOfFirst(args[0], stored, mem);
    if i < |first| {
      BufferOfFirstItem(args[0], stored, mem, i);
    } else {
      var j := i - |first|;
      ItemLater(Items(args, stored), first, Items(rest, stored), i, j);
      BufferLater(Buffers(args, mem), ArgBuffers(args[0], mem), Buffers(rest, mem), i, j);
      BufferOfItem(rest, stored, mem, j);
    }
  }

  lemma BuffersOfCons(args: seq<Arg>, rest: seq<Arg>, mem: Mem)
    requires args != [] && rest == args[1..] && AllHeld(args, mem)
    ensures ArgHeld(args[0], mem) && AllHeld(rest, mem)
    ensures Buffers(args, mem) == ArgBuffers(args[0], mem) + Buffers(rest, mem)
  {
    assert ArgHeld(args[0], mem);
  }

  lemma FirstCount(a: Arg, n: Id, mem: Mem)
    requires ArgHeld(a, mem)
    ensures |ArgInputs(a, n)| == |ArgBuffers(a, mem)|
  {
  }

  lemma BufferLater(all: seq<Value>, first: seq<Value>, later: seq<Value>, i: nat, j: nat)
    requires all == first + later && i == |first| + j && j < |later|
    ensures i < |all| && all[i] == later[j]
  {
  }

  lemma BufferOfFirst(a: Arg, stored: TensorArg -> bool, mem: Mem)
    requires ArgHeld(a, mem)
    ensures |ArgBuffers(a, mem)| == |ArgItems(a, stored)|
  {
  }

  lemma BufferOfFirstItem(a: Arg, stored: TensorArg -> bool, mem: Mem, i: nat)
    requires ArgHeld(a, mem) && OnDevice(a) && i < |ArgItems(a, stored)|
    ensures |ArgBuffers(a, mem)| == |ArgItems(a, stored)|
    ensures var x := ArgItems(a, stored)[i];
            x.Ten? ==> x.t.hpu && Held(x.t, mem) && ArgBuffers(a, mem)[i] == BaseValue(x.t, mem)
  {
  }

  lemma {:induction false} SameCount(args: seq<Arg>, stored: TensorArg -> bool, mem: Mem)
    requires AllHeld(args, mem)
    ensures |Buffers(args, mem)| == |Items(args, stored)|
    decreases |args|
  {
    if args != [] {
      assert ArgHeld(args[0], mem);
      SameCount(args[1..], stored, mem);
    }
  }

  // --- device memory ---

  /** Storages do not overlap, and each tensor of the stack lies in its storage with the storage's element type. */
  ghost predicate StackResident(stack: seq<Item>, data: Storages, dtypes: map<nat, nat>, size: nat -> nat) {
    && StoragesDisjoint(data, dtypes, size)
    && forall i :: 0 <= i < |stack| && stack[i].Ten? ==> Resident(stack[i].t, data, dtypes) && size(stack[i].t.dtype) > 0
  }

  /** The tensor is the whole base, with the base's sizes. */
  ghost predicate WholeBase(t: TensorArg, mem: Mem)
    requires Held(t, mem)
  {
    mem.sizes[t.storage] == t.view.sizes && ReadView(mem.data[t.storage], t.view) == mem.data[t.storage]
  }

  /** Two names for one window hold the same buffer exactly when they agree on being lowered as a view,
      or the window is the whole base. */
  lemma SameBufferIff(t: TensorArg, u: TensorArg, mem: Mem)
    requires Held(t, mem) && Held(u, mem) && t.hpu && u.hpu
    requires t.storage == u.storage && t.view == u.view && t.dtype == u.dtype
    ensures BaseValue(t, mem) == BaseValue(u, mem) <==> t.IsView() == u.IsView() || WholeBase(t, mem)
  {
  }

  ghost predicate PairHarmless(a: Item, b: Item, mem: Mem) {
    a.Ten? && b.Ten? && Held(a.t, mem) && a.t.storage == b.t.storage && a.t.view == b.t.view ==>
      a.t.IsView() == b.t.IsView() || WholeBase(a.t, mem)
  }

  /** Two names for one window agree on whether it is lowered as a view, or the window is the whole base. */
  ghost predicate AliasesHarmless(stack: seq<Item>, mem: Mem) {
    forall i, j :: 0 <= i < |stack| && 0 <= j < |stack| ==> PairHarmless(stack[i], stack[j], mem)
  }

  /** A duplicate is bound to the value of its parent. */
  lemma DuplicateHoldsSame(args: seq<Arg>, stored: TensorArg -> bool, size: nat -> nat, parent: seq<nat>,
                           mem: Mem, dtypes: map<nat, nat>, i: nat)
    requires AllHeld(args, mem) && AllOnDevice(args)
    requires ParentVector(Items(args, stored), size, parent) && |Items(args, stored)| < UNIQUE_ID
    requires StackResident(Items(args, stored), mem.data, dtypes, size) && AliasesHarmless(Items(args, stored), mem)
    requires i < |parent| && parent[i] != UNIQUE_ID
    ensures parent[i] < |Buffers(args, mem)| == |parent| && Buffers(args, mem)[i] == Buffers(args, mem)[parent[i]]
  {
    var stack := Items(args, stored);
    var p := parent[i];
    ParentsAreUnique(stack, size, parent, i);
    BufferOfItem(args, stored, mem, i);
    BufferOfItem(args, stored, mem, p);
    SameAddressSameView(stack[p].t, stack[i].t, mem.data, dtypes, size);
    BufferOfItem(args, stored, mem, p);
    assert PairHarmless(stack[p], stack[i], mem);
    SameBufferIff(stack[p].t, stack[i].t, mem);
  }

  /** What goes wrong otherwise: a plain tensor at offset 1 of a buffer and a lowered alias of it. Merged, the
      alias is read at offset 1 of the plain tensor's own element, which is out of range. */
  lemma NarrowParentMisread(x: int, y: int, junk: (nat, seq<nat>, nat) -> int)
    ensures var mem, v := Mem(map[7 := [x, y]], map[7 := [2]]), View([1], [1], 1);
            var plain, lowered := TensorArg(7, v, 0, false, true, true), TensorArg(7, v, 0, true, true, true);
            && Held(plain, mem) && Held(lowered, mem) && !PairHarmless(Ten(plain, true), Ten(lowered, true), mem)
            && ViewOf(junk, false, BaseValue(lowered, mem), SizesOf(v), StridesOf(v), OffsetOf(v)) == TensorValue(lowered, mem)
            && ViewOf(junk, false, BaseValue(plain, mem), SizesOf(v), StridesOf(v), OffsetOf(v)) == Absent
  {
    var v := View([1], [1], 1);
    assert Numel([1]) == 1;
    assert Unrank(0, [1]) == [0];
    assert Dot([0], [1]) == 0;
    assert Pos(v, 0) == 1;
  }

  /** The values the device receives: the buffers of the stack entries that survive pruning. */
  ghost function Inlets(args: seq<Arg>, parent: seq<nat>, mem: Mem): Env
    requires AllHeld(args, mem) && |parent| == |Inputs(args, 0)| == |Buffers(args, mem)|
  {
    BindInputs(Survivors(Inputs(args, 0), parent), Survivors(Buffers(args, mem), parent))
  }

  lemma BuffersAlign(args: seq<Arg>, stored: TensorArg -> bool, mem: Mem)
    requires AllHeld(args, mem)
    ensures |Buffers(args, mem)| == |Inputs(args, 0)| == |Items(args, stored)|
  {
    SameCount(args, stored, mem);
    ItemsAlignWithInputs(args, 0, stored);
  }

  // --- the stack of a launch ---

  /** What the device receives for one entry of the stack. */
  ghost function DeviceValue(x: Item, mem: Mem): Value {
    match x
    case Number(c) => Const(c)
    case Ten(t, _) => if Held(t, mem) then BaseValue(t, mem) else Absent
  }

  ghost function StackValues(stack: seq<Item>, mem: Mem): (r: seq<Value>)
    ensures |r| == |stack|
  {
    seq(|stack|, i requires 0 <= i < |stack| => DeviceValue(stack[i], mem))
  }

  /** The graph inputs bound to the entries of the stack, in order. */
  ghost function StackInlets(g: Graph, stack: seq<Item>, mem: Mem): Env { BindInputs(g.inputs, StackValues(stack, mem)) }

  lemma StackConcat(a: seq<Item>, b: seq<Item>, mem: Mem)
    ensures StackValues(a + b, mem) == StackValues(a, mem) + StackValues(b, mem)
  {
  }

  lemma FirstStackValues(a: Arg, stored: TensorArg -> bool, mem: Mem)
    requires ArgHeld(a, mem)
    ensures StackValues(ArgItems(a, stored), mem) == ArgBuffers(a, mem)
  {
  }

  /** The stack that is prepared for a call hands the device every number and the buffer of every tensor. */
  lemma {:induction false} StackIsBuffers(args: seq<Arg>, stored: TensorArg -> bool, mem: Mem)
    requires AllHeld(args, mem)
    ensures StackValues(Items(args, stored), mem) == Buffers(args, mem)
    decreases |args|
  {
    if args != [] {
      var rest, first := args[1..], ArgItems(args[0], stored);
      BuffersOfCons(args, rest, mem);
      ItemsAfterFirst(args, rest, stored);
      StackConcat(first, Items(rest, stored), mem);
      FirstStackValues(args[0], stored, mem);
      StackIsBuffers(rest, stored, mem);
    }
  }

  lemma {:induction false} SurvivingValues(stack: seq<Item>, parent: seq<nat>, mem: Mem)
    requires |stack| == |parent|
    ensures StackValues(Survivors(stack, parent), mem) == Survivors(StackValues(stack, mem), parent)
    decreases |stack|
  {
    if stack != [] {
      var first := if parent[0] == UNIQUE_ID then [stack[0]] else [];
      SurvivingValues(stack[1..], parent[1..], mem);
      StackConcat(first, Survivors(stack[1..], parent[1..]), mem);
      assert StackValues(stack, mem)[1..] == StackValues(stack[1..], mem);
    }
  }

  lemma InletsFromStack(args: seq<Arg>, stored: TensorArg -> bool, parent: seq<nat>, g: Graph, stack: seq<Item>, mem: Mem)
    requires AllHeld(args, mem) && |parent| == |Inputs(args, 0)| == |Buffers(args, mem)| == |Items(args, stored)|
    requires g.inputs == Survivors(Inputs(args, 0), parent) && stack == Survivors(Items(args, stored), parent)
    ensures StackInlets(g, stack, mem) == Inlets(args, parent, mem)
  {
    StackIsBuffers(args, stored, mem);
    SurvivingValues(Items(args, stored), parent, mem);
  }

  /** What a launch hands to the lowering stage when it does not fail: the pruned graph and the pruned stack. */
  ghost predicate FreshLaunch(r: Launched, op: OpInfo, args: seq<Arg>, m: nat, stored: TensorArg -> bool, parent: seq<nat>, agnostic: bool)
    requires Accepted(op, args, m)
  {
    && |parent| == |Inputs(args, 0)| == |Items(args, stored)| && ParentsValid(parent)
    && r.Launched? && r.graph == CachedGraph(op, args, m, agnostic, parent) && r.stack == Survivors(Items(args, stored), parent)
  }

  /** The launched graph on the launched stack computes what the lowered graph computes on all the base buffers. */
  lemma PrunedRun(op: OpInfo, args: seq<Arg>, m: nat, stored: TensorArg -> bool, size: nat -> nat, parent: seq<nat>,
                  sem: Sem, mem: Mem, dtypes: map<nat, nat>, agnostic: bool, r: Launched) returns (env: Env)
    requires Accepted(op, args, m) && AllHeld(args, mem) && AllOnDevice(args)
    requires ParentVector(Items(args, stored), size, parent) && |Items(args, stored)| < UNIQUE_ID
    requires StackResident(Items(args, stored), mem.data, dtypes, size) && AliasesHarmless(Items(args, stored), mem)
    requires FreshLaunch(r, op, args, m, stored, parent, agnostic)
    ensures Bound(args, 0, env, mem)
    ensures Run(sem, r.graph, StackInlets(r.graph, r.stack, mem)) == Run(sem, BuiltGraph(op, args, m, agnostic), env)
  {
    var g := BuiltGraph(op, args, m, agnostic);
    var vals := Buffers(args, mem);
    BuffersAlign(args, stored, mem);
    BuiltWellFormed(op, args, m, agnostic);
    env := BindInputs(g.inputs, vals);
    forall i | 0 <= i < |parent| && parent[i] != UNIQUE_ID ensures vals[i] == vals[parent[i]] {
      DuplicateHoldsSame(args, stored, size, parent, mem, dtypes, i);
    }
    PruningPreservesMeaning(sem, g, parent, vals);
    forall i | 0 <= i < |g.inputs| ensures Lookup(env, g.inputs[i]) == vals[i] { IndexOfDistinct(g.inputs, i); }
    InputsBound(args, 0, env, mem);
    InletsFromStack(args, stored, parent, r.graph, r.stack, mem);
  }

  /** Merging inputs renames what nodes read, not what they run. */
  lemma {:induction false} MergeKeepsOp(g: Graph, parent: seq<nat>, n: nat, symbol: string)
    requires n <= |parent| == |g.inputs| && ParentsValid(parent) && Runs(g, symbol)
    ensures Runs(MergeUpTo(g, parent, n), symbol)
  {
    if n > 0 {
      MergeKeepsOp(g, parent, n - 1, symbol);
      var h := MergeUpTo(g, parent, n - 1);
      if parent[n - 1] != UNIQUE_ID {
        var i :| 0 <= i < |h.nodes| && h.nodes[i].kind == Aten(symbol);
        assert RenameNodes(h.nodes, g.inputs[n - 1], g.inputs[parent[n - 1]])[i].kind == Aten(symbol);
      }
    }
  }

  lemma LaunchedPlainUpdated(op: OpInfo, args: seq<Arg>, m: nat, agnostic: bool, parent: seq<nat>)
    requires Accepted(op, args, m) && Consistent(op) && OutsAreTensors(op, args) && |parent| == |Inputs(args, 0)| && ParentsValid(parent)
    ensures PlainUpdated(Runs(CachedGraph(op, args, m, agnostic, parent), op.symbol), WrittenSlots(Context(op, args), AllSlots(args)))
  {
    var g := BuiltGraph(op, args, m, agnostic);
    LoweredPlainUpdated(op, args, m, MetaParams(args, 0, 0, agnostic));
    StateIntact(op, args, m, MetaParams(args, 0, 0, agnostic));
    if Runs(g, op.symbol) { MergeKeepsOp(g, parent, |parent|, op.symbol); }
  }

  /** End to end. Running the graph of a launch (built, or patched on a hit: they are the same) on the
      stack of that launch, and binding its outputs to the written tensors, leaves every
      storage as the eager call would. */
  lemma LaunchLeavesEagerMemory(op: OpInfo, args: seq<Arg>, m: nat, stored: TensorArg -> bool, size: nat -> nat,
                                parent: seq<nat>, kernels: Kernels, mem: Mem, dtypes: map<nat, nat>, agnostic: bool, r: Launched)
    requires Accepted(op, args, m) && Consistent(op) && OutsAreTensors(op, args) && AllHeld(args, mem) && AllOnDevice(args)
    requires ParentVector(Items(args, stored), size, parent) && |Items(args, stored)| < UNIQUE_ID
    requires StackResident(Items(args, stored), mem.data, dtypes, size) && AliasesHarmless(Items(args, stored), mem)
    requires OpLaws(op, args, m, kernels, mem)
    requires ResultsFit(WrittenSlots(Context(op, args), AllSlots(args)), EagerResults(op, kernels, args, mem))
    requires WritesSurvive(WrittenSlots(Context(op, args), AllSlots(args)))
    requires FreshLaunch(r, op, args, m, stored, parent, agnostic)
    ensures GraphLeavesEagerMemory(r.graph, op, args, kernels, StackInlets(r.graph, r.stack, mem), mem)
  {
    var ws, results := WrittenSlots(Context(op, args), AllSlots(args)), EagerResults(op, kernels, args, mem);
    var params := MetaParams(args, 0, 0, agnostic);
    var env := PrunedRun(op, args, m, stored, size, parent, MakeSem(kernels), mem, dtypes, agnostic, r);
    var outs := Run(MakeSem(kernels), LoweredGraph(op, args, m, params), env);
    LoweredOutputsExpected(op, args, m, params, kernels, env, mem);
    AllExpectedRestore(ws, results, outs, mem);
    LaunchedPlainUpdated(op, args, m, agnostic, parent);
    SameMemory(mem.data, Runs(r.graph, op.symbol), ws, results, outs);
  }

  /** What a call asks of the memory and the kernels for a launch to leave the eager memory. */
  ghost predicate LaunchSound(op: OpInfo, args: seq<Arg>, m: nat, stored: TensorArg -> bool, size: nat -> nat,
                              kernels: Kernels, mem: Mem, dtypes: map<nat, nat>)
  {
    && Consistent(op) && OutsAreTensors(op, args) && AllHeld(args, mem)
    && StackResident(Items(args, stored), mem.data, dtypes, size) && AliasesHarmless(Items(args, stored), mem)
    && OpLaws(op, args, m, kernels, mem)
    && ResultsFit(WrittenSlots(Context(op, args), AllSlots(args)), EagerResults(op, kernels, args, mem))
    && WritesSurvive(WrittenSlots(Context(op, args), AllSlots(args)))
  }

  /** The same from the launcher, over any launches before: on a miss, and on a hit from a stack of the same
      kinds, what it hands on leaves the memory of the eager call. */
  method LaunchAndRun(l: Launcher, symbol: string, m: nat, deterministic: bool, args: seq<Arg>,
                      ghost kernels: Kernels, ghost mem: Mem, ghost dtypes: map<nat, nat>)
    returns (r: Launched, ghost parent: seq<nat>)
    requires l.Valid() && l.Callable(symbol, m, args) && |Items(args, l.stored)| < UNIQUE_ID
    requires LaunchSound(l.Info(symbol), args, m, l.stored, l.size, kernels, mem, dtypes)
    modifies l
    ensures l.Valid() && l.ParentsOf(args, parent)
    ensures var key := KeyOf(symbol, m, deterministic, parent, args, l.caching);
            (key in old(l.cache) ==> key in old(l.origin) && SameKinds(old(l.origin)[key], args, Agnostic(symbol, l.caching))) ==>
              r.Launched? && GraphLeavesEagerMemory(r.graph, l.Info(symbol), args, kernels, StackInlets(r.graph, r.stack, mem), mem)
  {
    r, parent := l.Launch(symbol, m, deterministic, args);
    ghost var key := KeyOf(symbol, m, deterministic, parent, args, l.caching);
    if key in old(l.cache) ==> key in old(l.origin) && SameKinds(old(l.origin)[key], args, Agnostic(symbol, l.caching)) {
      ItemsAlignWithInputs(args, 0, l.stored);
      LaunchLeavesEagerMemory(l.Info(symbol), args, m, l.stored, l.size, parent, kernels, mem, dtypes, Agnostic(symbol, l.caching), r);
    }
  }
}
