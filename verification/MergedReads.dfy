/**
 What merging inputs does to a call that only reads: the pruned graph and the lowered graph agree
 under all kernels exactly when every merged input is seen the same from its parent's buffer.
 */
module MergedReads {
  import opened IndexSpace
  import opened StridedViews
  import opened JitGraph
  import opened ViewLowering
  import opened EagerGraph
  import opened LoweringMeaning
  import opened EagerPass
  import opened DuplicateInputs
  import opened CachePatch
  import opened EagerLaunch
  import opened LaunchMeaning
  import opened OperatorKey
  import opened StorageUpdate

  // --- a call that only reads ---

  predicate ReadsOnly(op: OpInfo, args: seq<Arg>) {
    !op.ignoresInput && CountWrites(Context(op, args), AllSlots(args)) == 0
  }

  lemma {:induction false} NothingWritten(ctx: Ctx, sem: Sem, slots: seq<Slot>, env: Env, vals: seq<Value>, k: nat)
    requires CountWrites(ctx, slots) == 0
    ensures Written(ctx, sem, slots, env, vals, k) == vals && CountInserts(ctx, slots) == 0
    ensures forall i :: 0 <= i < |slots| ==> !ctx.Writes(slots[i])
    decreases |slots|
  {
    if slots != [] {
      assert !ctx.Writes(slots[0]);
      NothingWritten(ctx, sem, slots[1..], env, vals, k);
      forall i | 0 <= i < |slots| ensures !ctx.Writes(slots[i]) {
        if i > 0 { assert slots[i] == slots[1..][i - 1]; }
      }
    }
  }

  lemma ReadingRun(op: OpInfo, args: seq<Arg>, m: nat, params: ParamMap, sem: Sem, env: Env)
    requires Accepted(op, args, m) && ReadsOnly(op, args)
    ensures Run(sem, LoweredGraph(op, args, m, params), env)
            == Outputs(sem.op(op.symbol, ValuesSeen(Context(op, args), sem, args, env)), m)
  {
    var ctx, slots := Context(op, args), AllSlots(args);
    LoweredRun(op, args, m, params, sem, env);
    NothingWritten(ctx, sem, slots, env, Outputs(sem.op(op.symbol, ValuesSeen(ctx, sem, args, env)), m), 0);
  }

  /** What the op is given does not depend on the kernels. */
  lemma {:induction false} SeenAnyKernels(ctx: Ctx, k: Kernels, l: Kernels, slots: seq<Slot>, env: Env)
    requires !ctx.op.ignoresInput
    ensures Seen(ctx, MakeSem(k), slots, env) == Seen(ctx, MakeSem(l), slots, env)
    decreases |slots|
  {
    if slots != [] { SeenAnyKernels(ctx, k, l, slots[1..], env); }
  }

  /** The arguments as the op is given them. */
  ghost function Given(op: OpInfo, args: seq<Arg>, env: Env): seq<Value> {
    ValuesSeen(Context(op, args), MakeSem(ConstantKernels([])), args, env)
  }

  /** Kernels that tell one argument list from all others. */
  function Telling(a: seq<Value>): Kernels {
    ConstantKernels([]).(op := (name: string, b: seq<Value>) => if a == b then [Const(Int(1))] else [Const(Int(0))])
  }

  ghost predicate SameRuns(op: OpInfo, args: seq<Arg>, m: nat, params: ParamMap, kernels: Kernels, e1: Env, e2: Env)
    requires Accepted(op, args, m)
  {
    Run(MakeSem(kernels), LoweredGraph(op, args, m, params), e1) == Run(MakeSem(kernels), LoweredGraph(op, args, m, params), e2)
  }

  lemma GivenAnyKernels(op: OpInfo, args: seq<Arg>, kernels: Kernels, env: Env)
    requires !op.ignoresInput
    ensures ValuesSeen(Context(op, args), MakeSem(kernels), args, env) == Given(op, args, env)
  {
    SeenAnyKernels(Context(op, args), kernels, ConstantKernels([]), AllSlots(args), env);
  }

  /** Two environments cannot be told apart by any kernels exactly when they give the op the same arguments. */
  lemma SameRunsIff(op: OpInfo, args: seq<Arg>, m: nat, params: ParamMap, e1: Env, e2: Env)
    requires Accepted(op, args, m) && ReadsOnly(op, args) && m > 0
    ensures (forall kernels: Kernels :: kernels in SameRunKernels(op, args, m, params, e1, e2)) <==> Given(op, args, e1) == Given(op, args, e2)
  {
    var a, b := Given(op, args, e1), Given(op, args, e2);
    forall kernels: Kernels
      ensures kernels in SameRunKernels(op, args, m, params, e1, e2) <==> Outputs(kernels.op(op.symbol, a), m) == Outputs(kernels.op(op.symbol, b), m)
    {
      ReadingRun(op, args, m, params, MakeSem(kernels), e1);
      ReadingRun(op, args, m, params, MakeSem(kernels), e2);
      GivenAnyKernels(op, args, kernels, e1);
      GivenAnyKernels(op, args, kernels, e2);
    }
    if a != b {
      var k := Telling(a);
      assert Outputs(k.op(op.symbol, a), m)[0] == Const(Int(1)) && Outputs(k.op(op.symbol, b), m)[0] == Const(Int(0));
      assert k !in SameRunKernels(op, args, m, params, e1, e2);
    }
  }

  // --- input by input ---

  /** What a stack entry shows the op, read from some buffer. */
  ghost function SeenFrom(x: Item, buffer: Value): Value {
    if x.Ten? && x.t.IsView() then
      MakeSem(ConstantKernels([])).view(false, buffer, SizesOf(x.t.view), StridesOf(x.t.view), OffsetOf(x.t.view))
    else buffer
  }

  lemma {:induction false} ArgValuesIff(args: seq<Arg>, n: Id, e1: Env, e2: Env)
    ensures ArgValues(args, n, e1) == ArgValues(args, n, e2) <==> AgreeOn(Inputs(args, n), e1, e2)
    decreases |args|
  {
    if args != [] {
      var m, first := n + Width(args[0]), ArgInputs(args[0], n);
      var later := Inputs(args[1..], m);
      ArgValuesIff(args[1..], m, e1, e2);
      FirstArgIff(args[0], n, e1, e2);
      assert Inputs(args, n) == first + later;
      assert ArgValues(args, n, e1)[1..] == ArgValues(args[1..], m, e1) && ArgValues(args, n, e2)[1..] == ArgValues(args[1..], m, e2);
      SplitAll(first, later, e1, e2);
      assert ArgValues(args, n, e1) == ArgValues(args, n, e2) <==>
               ArgValue(args[0], n, e1) == ArgValue(args[0], n, e2) && ArgValues(args[1..], m, e1) == ArgValues(args[1..], m, e2);
    }
  }

  ghost predicate AgreeOn(ids: seq<Id>, e1: Env, e2: Env) {
    forall i :: 0 <= i < |ids| ==> Lookup(e1, ids[i]) == Lookup(e2, ids[i])
  }

  lemma SplitAll(a: seq<Id>, b: seq<Id>, e1: Env, e2: Env)
    ensures AgreeOn(a + b, e1, e2) <==> AgreeOn(a, e1, e2) && AgreeOn(b, e1, e2)
  {
    if AgreeOn(a + b, e1, e2) {
      forall i | 0 <= i < |a| ensures Lookup(e1, a[i]) == Lookup(e2, a[i]) { assert (a + b)[i] == a[i]; }
      forall i | 0 <= i < |b| ensures Lookup(e1, b[i]) == Lookup(e2, b[i]) { assert (a + b)[|a| + i] == b[i]; }
    }
  }

  lemma FirstArgIff(a: Arg, n: Id, e1: Env, e2: Env)
    ensures ArgValue(a, n, e1) == ArgValue(a, n, e2) <==> AgreeOn(ArgInputs(a, n), e1, e2)
  {
    if a.Many? {
      var ids := Range(n, |a.ts|);
      if Args(e1, ids) == Args(e2, ids) {
        forall i | 0 <= i < |ids| ensures Lookup(e1, ids[i]) == Lookup(e2, ids[i]) { assert Args(e1, ids)[i] == Args(e2, ids)[i]; }
      }
    } else if !a.Meta? {
      assert ArgInputs(a, n)[0] == n;
    }
  }

  /** The slot of a tensor of the stack. */
  lemma {:induction false} SlotOfItem(args: seq<Arg>, idx: nat, n: Id, opId: Id, stored: TensorArg -> bool, i: nat) returns (q: nat)
    requires i < |Inputs(args, n)| == |Items(args, stored)| && Items(args, stored)[i].Ten?
    ensures q in PlacesOf(Slots(args, idx, n, opId), Inputs(args, n), Items(args, stored), i)
    decreases |args|
  {
    var rest, m, ids, items := args[1..], n + Width(args[0]), Inputs(args, n), Items(args, stored);
    var firstIds, firstItems := ArgInputs(args[0], n), ArgItems(args[0], stored);
    Unfolded(args, rest, idx, n, m, opId, stored);
    if i < |firstIds| {
      FirstSlotOfItem(args[0], idx, n, opId, stored, i);
      q := i;
      HeldFirst(Slots(args, idx, n, opId), ArgSlots(args[0], idx, n, opId), ids, firstIds, items, firstItems, i, i);
    } else {
      var j, laterItems, later := i - |firstIds|, Items(rest, stored), Slots(rest, idx + 1, m, opId);
      ItemLater(items, firstItems, laterItems, i, j);
      var r := SlotOfItem(rest, idx + 1, m, opId, stored, j);
      q := HeldLater(Slots(args, idx, n, opId), ArgSlots(args[0], idx, n, opId), later, r,
                     ids, firstIds, Inputs(rest, m), items, firstItems, laterItems, i, j);
    }
  }

  /** The slots that are the place of tensor i of the stack. */
  ghost function PlacesOf(slots: seq<Slot>, ids: seq<Id>, items: seq<Item>, i: nat): iset<nat> {
    iset q: nat | q < |slots| && i < |ids| == |items| && items[i].Ten? && slots[q].v == ids[i] && slots[q].t == items[i].t
  }

  lemma HeldFirst(all: seq<Slot>, slots: seq<Slot>, allIds: seq<Id>, ids: seq<Id>, allItems: seq<Item>, items: seq<Item>, q: nat, i: nat)
    requires q in PlacesOf(slots, ids, items, i) && |allIds| == |allItems|
    requires slots <= all && ids <= allIds && items <= allItems
    ensures q in PlacesOf(all, allIds, allItems, i)
  {
  }

  lemma HeldLater(all: seq<Slot>, slots: seq<Slot>, later: seq<Slot>, r: nat, allIds: seq<Id>, ids: seq<Id>, laterIds: seq<Id>,
                  allItems: seq<Item>, items: seq<Item>, laterItems: seq<Item>, i: nat, j: nat) returns (q: nat)
    requires r in PlacesOf(later, laterIds, laterItems, j) && |ids| == |items| && i == |ids| + j
    requires all == slots + later && allIds == ids + laterIds && allItems == items + laterItems
    ensures q in PlacesOf(all, allIds, allItems, i)
  {
    q := |slots| + r;
  }

  lemma Unfolded(args: seq<Arg>, rest: seq<Arg>, idx: nat, n: Id, m: Id, opId: Id, stored: TensorArg -> bool)
    requires args != [] && rest == args[1..] && m == n + Width(args[0])
    ensures |ArgItems(args[0], stored)| == |ArgInputs(args[0], n)| && |Items(rest, stored)| == |Inputs(rest, m)|
    ensures Inputs(args, n) == ArgInputs(args[0], n) + Inputs(rest, m)
    ensures Items(args, stored) == ArgItems(args[0], stored) + Items(rest, stored)
    ensures Slots(args, idx, n, opId) == ArgSlots(args[0], idx, n, opId) + Slots(rest, idx + 1, m, opId)
  {
    ItemsOfCons(args, rest, n, m, stored);
  }

  lemma FirstSlotOfItem(a: Arg, idx: nat, n: Id, opId: Id, stored: TensorArg -> bool, i: nat)
    ensures |ArgItems(a, stored)| == |ArgInputs(a, n)|
    ensures i < |ArgInputs(a, n)| && ArgItems(a, stored)[i].Ten? ==>
              i in PlacesOf(ArgSlots(a, idx, n, opId), ArgInputs(a, n), ArgItems(a, stored), i)
    ensures i < |ArgInputs(a, n)| && ArgItems(a, stored)[i].Number? ==> a.Scalar? && ArgSlots(a, idx, n, opId) == []
  {
  }

  /** No slot has the name of a number. */
  lemma {:induction false} NoSlotOfNumber(args: seq<Arg>, idx: nat, n: Id, opId: Id, stored: TensorArg -> bool, i: nat)
    requires i < |Inputs(args, n)| == |Items(args, stored)| && Items(args, stored)[i].Number?
    ensures forall q :: 0 <= q < |Slots(args, idx, n, opId)| ==> Slots(args, idx, n, opId)[q].v != Inputs(args, n)[i]
    decreases |args|
  {
    var rest, m, k := args[1..], n + Width(args[0]), |ArgInputs(args[0], n)|;
    Unfolded(args, rest, idx, n, m, opId, stored);
    if i < k {
      FirstSlotOfItem(args[0], idx, n, opId, stored, i);
      LaterSlotsAbove(args[0], rest, Slots(rest, idx + 1, m, opId), idx + 1, n, m, opId, i);
    } else {
      var j := i - k;
      ItemLater(Items(args, stored), ArgItems(args[0], stored), Items(rest, stored), i, j);
      NoSlotOfNumber(rest, idx + 1, m, opId, stored, j);
      FirstSlotsBelow(args[0], rest, idx, n, m, opId, j);
    }
  }

  lemma LaterSlotsAbove(a: Arg, rest: seq<Arg>, later: seq<Slot>, idx: nat, n: Id, m: Id, opId: Id, i: nat)
    requires i < |ArgInputs(a, n)| && m == n + Width(a) && later == Slots(rest, idx, m, opId)
    ensures forall q :: 0 <= q < |later| ==> later[q].v != ArgInputs(a, n)[i]
  {
    SlotsIncrease(rest, idx, m, opId);
  }

  lemma FirstSlotsBelow(a: Arg, rest: seq<Arg>, idx: nat, n: Id, m: Id, opId: Id, j: nat)
    requires m == n + Width(a) && j < |Inputs(rest, m)|
    ensures forall q :: 0 <= q < |ArgSlots(a, idx, n, opId)| ==> ArgSlots(a, idx, n, opId)[q].v != Inputs(rest, m)[j]
  {
    FirstSlotsIncrease(a, idx, n, opId);
    Numbering(rest, m);
  }

  /** In a call that only reads, every lowered view is read. */
  lemma SeenInput(op: OpInfo, args: seq<Arg>, stored: TensorArg -> bool, env: Env, i: nat)
    requires ReadsOnly(op, args) && AllOnDevice(args) && i < |Inputs(args, 0)| == |Items(args, stored)|
    ensures Lookup(Seen(Context(op, args), MakeSem(ConstantKernels([])), AllSlots(args), env), Inputs(args, 0)[i])
            == SeenFrom(Items(args, stored)[i], Lookup(env, Inputs(args, 0)[i]))
  {
    var ctx, sem, slots := Context(op, args), MakeSem(ConstantKernels([])), AllSlots(args);
    SlotsIncrease(args, 0, 0, TotalWidth(args));
    if Items(args, stored)[i].Ten? {
      var q := SlotOfItem(args, 0, 0, TotalWidth(args), stored, i);
      NothingWritten(ctx, sem, slots, env, [], 0);
      DeviceSlot(args, 0, 0, TotalWidth(args), q);
      SeenAt(ctx, sem, slots, env, q);
    } else {
      NoSlotOfNumber(args, 0, 0, TotalWidth(args), stored, i);
      SeenElsewhere(ctx, sem, slots, env, Inputs(args, 0)[i]);
    }
  }

  lemma {:induction false} DeviceSlot(args: seq<Arg>, idx: nat, n: Id, opId: Id, q: nat)
    requires AllOnDevice(args) && q < |Slots(args, idx, n, opId)|
    ensures Slots(args, idx, n, opId)[q].t.hpu
    decreases |args|
  {
    assert OnDevice(args[0]);
    var first := ArgSlots(args[0], idx, n, opId);
    if q >= |first| { DeviceSlot(args[1..], idx + 1, n + Width(args[0]), opId, q - |first|); }
  }

  /** The op is given the same arguments exactly when every stack entry shows the same. */
  lemma GivenIff(op: OpInfo, args: seq<Arg>, stored: TensorArg -> bool, e1: Env, e2: Env)
    requires ReadsOnly(op, args) && AllOnDevice(args) && |Inputs(args, 0)| == |Items(args, stored)|
    ensures Given(op, args, e1) == Given(op, args, e2) <==> ShowSame(Inputs(args, 0), Items(args, stored), e1, e2)
  {
    var ctx, sem := Context(op, args), MakeSem(ConstantKernels([]));
    var s1, s2 := Seen(ctx, sem, AllSlots(args), e1), Seen(ctx, sem, AllSlots(args), e2);
    var ids, stack := Inputs(args, 0), Items(args, stored);
    ArgValuesIff(args, 0, s1, s2);
    assert Given(op, args, e1) == ArgValues(args, 0, s1) && Given(op, args, e2) == ArgValues(args, 0, s2);
    forall i | 0 <= i < |ids|
      ensures Lookup(s1, ids[i]) == Lookup(s2, ids[i]) <==> ShowsSame(ids[i], stack[i], e1, e2)
    {
      SeenInput(op, args, stored, e1, i);
      SeenInput(op, args, stored, e2, i);
    }
    if Given(op, args, e1) == Given(op, args, e2) {
      forall i | 0 <= i < |ids| ensures ShowsSame(ids[i], stack[i], e1, e2) {}
    } else {
      var i :| 0 <= i < |ids| && Lookup(s1, ids[i]) != Lookup(s2, ids[i]);
      assert !ShowsSame(ids[i], stack[i], e1, e2);
    }
  }

  ghost predicate ShowsSame(id: Id, x: Item, e1: Env, e2: Env) {
    SeenFrom(x, Lookup(e1, id)) == SeenFrom(x, Lookup(e2, id))
  }

  ghost predicate ShowSame(ids: seq<Id>, stack: seq<Item>, e1: Env, e2: Env)
    requires |ids| == |stack|
  {
    forall i :: 0 <= i < |ids| ==> ShowsSame(ids[i], stack[i], e1, e2)
  }

  // --- merging ---

  /** Every duplicate given its parent's buffer. */
  function Merged(vals: seq<Value>, parent: seq<nat>): (r: seq<Value>)
    requires |vals| == |parent| && ParentsValid(parent)
    ensures |r| == |vals|
  {
    seq(|vals|, i requires 0 <= i < |vals| => if parent[i] == UNIQUE_ID then vals[i] else vals[parent[i]])
  }

  lemma {:induction false} SurvivorsAgree(s: seq<Value>, t: seq<Value>, parent: seq<nat>)
    requires |s| == |t| == |parent| && forall i :: 0 <= i < |s| && parent[i] == UNIQUE_ID ==> s[i] == t[i]
    ensures Survivors(s, parent) == Survivors(t, parent)
    decreases |s|
  {
    if s != [] {
      assert parent[0] == UNIQUE_ID ==> s[0] == t[0];
      SurvivorsAgree(s[1..], t[1..], parent[1..]);
    }
  }

  /** The pruned graph runs as the lowered graph does when duplicates are given their parents' buffers. */
  lemma PrunedRunsMerged(op: OpInfo, args: seq<Arg>, m: nat, agnostic: bool, parent: seq<nat>, sem: Sem, mem: Mem)
    requires Accepted(op, args, m) && AllHeld(args, mem)
    requires |parent| == |Inputs(args, 0)| == |Buffers(args, mem)| && ParentsValid(parent)
    ensures BuiltGraph(op, args, m, agnostic).inputs == Inputs(args, 0)
    ensures Run(sem, PrunedGraph(BuiltGraph(op, args, m, agnostic), parent), Inlets(args, parent, mem))
            == Run(sem, BuiltGraph(op, args, m, agnostic), BindInputs(Inputs(args, 0), Merged(Buffers(args, mem), parent)))
  {
    var vals := Merged(Buffers(args, mem), parent);
    BuiltWellFormed(op, args, m, agnostic);
    SurvivorsAgree(Buffers(args, mem), vals, parent);
    PruningPreservesMeaning(sem, BuiltGraph(op, args, m, agnostic), parent, vals);
  }

  /** The pruned graph on the pruned stack computes what the lowered graph computes on the whole stack. */
  ghost predicate PruningHarmless(op: OpInfo, args: seq<Arg>, m: nat, agnostic: bool, parent: seq<nat>, kernels: Kernels, mem: Mem)
    requires Accepted(op, args, m) && AllHeld(args, mem)
    requires |parent| == |Inputs(args, 0)| == |Buffers(args, mem)| && ParentsValid(parent)
  {
    BuiltWellFormed(op, args, m, agnostic);
    Run(MakeSem(kernels), PrunedGraph(BuiltGraph(op, args, m, agnostic), parent), Inlets(args, parent, mem))
    == Run(MakeSem(kernels), BuiltGraph(op, args, m, agnostic), BindInputs(Inputs(args, 0), Buffers(args, mem)))
  }

  /** A merged input shows the op the same from its parent's buffer. */
  ghost predicate MergeUnseen(stack: seq<Item>, vals: seq<Value>, parent: seq<nat>)
    requires |stack| == |vals| == |parent| && ParentsValid(parent)
  {
    forall i :: 0 <= i < |parent| && parent[i] != UNIQUE_ID ==> SeenFrom(stack[i], vals[parent[i]]) == SeenFrom(stack[i], vals[i])
  }

  /** For a call that only reads: pruning is harmless under all kernels if and only if every merged
      input shows the op the same from its parent's buffer. */
  lemma PruningHarmlessIff(op: OpInfo, args: seq<Arg>, m: nat, agnostic: bool, stored: TensorArg -> bool, parent: seq<nat>, mem: Mem)
    requires Accepted(op, args, m) && ReadsOnly(op, args) && m > 0 && AllHeld(args, mem) && AllOnDevice(args)
    requires |parent| == |Inputs(args, 0)| == |Buffers(args, mem)| == |Items(args, stored)| && ParentsValid(parent)
    ensures (forall kernels: Kernels :: kernels in HarmlessKernels(op, args, m, agnostic, parent, mem))
            <==> MergeUnseen(Items(args, stored), Buffers(args, mem), parent)
  {
    var ids, vals := Inputs(args, 0), Buffers(args, mem);
    var e1, e2 := BindInputs(ids, Merged(vals, parent)), BindInputs(ids, vals);
    HarmlessIsSameRuns(op, args, m, agnostic, parent, mem, e1, e2);
    SameRunsIff(op, args, m, MetaParams(args, 0, 0, agnostic), e1, e2);
    GivenIff(op, args, stored, e1, e2);
    BuiltWellFormed(op, args, m, agnostic);
    MergedShowsIff(ids, Items(args, stored), vals, parent);
  }

  lemma HarmlessIsSameRun(op: OpInfo, args: seq<Arg>, m: nat, agnostic: bool, parent: seq<nat>, mem: Mem, kernels: Kernels, e1: Env, e2: Env)
    requires Accepted(op, args, m) && AllHeld(args, mem)
    requires |parent| == |Inputs(args, 0)| == |Buffers(args, mem)| && ParentsValid(parent)
    requires e1 == BindInputs(Inputs(args, 0), Merged(Buffers(args, mem), parent)) && e2 == BindInputs(Inputs(args, 0), Buffers(args, mem))
    ensures PruningHarmless(op, args, m, agnostic, parent, kernels, mem)
            <==> SameRuns(op, args, m, MetaParams(args, 0, 0, agnostic), kernels, e1, e2)
  {
    PrunedRunsMerged(op, args, m, agnostic, parent, MakeSem(kernels), mem);
  }

  /** The kernels under which pruning changes nothing. */
  ghost function HarmlessKernels(op: OpInfo, args: seq<Arg>, m: nat, agnostic: bool, parent: seq<nat>, mem: Mem): iset<Kernels>
    requires Accepted(op, args, m) && AllHeld(args, mem)
    requires |parent| == |Inputs(args, 0)| == |Buffers(args, mem)| && ParentsValid(parent)
  {
    iset kernels: Kernels | PruningHarmless(op, args, m, agnostic, parent, kernels, mem)
  }

  ghost function SameRunKernels(op: OpInfo, args: seq<Arg>, m: nat, params: ParamMap, e1: Env, e2: Env): iset<Kernels>
    requires Accepted(op, args, m)
  {
    iset kernels: Kernels | SameRuns(op, args, m, params, kernels, e1, e2)
  }

  lemma HarmlessIsSameRuns(op: OpInfo, args: seq<Arg>, m: nat, agnostic: bool, parent: seq<nat>, mem: Mem, e1: Env, e2: Env)
    requires Accepted(op, args, m) && AllHeld(args, mem)
    requires |parent| == |Inputs(args, 0)| == |Buffers(args, mem)| && ParentsValid(parent)
    requires e1 == BindInputs(Inputs(args, 0), Merged(Buffers(args, mem), parent)) && e2 == BindInputs(Inputs(args, 0), Buffers(args, mem))
    ensures HarmlessKernels(op, args, m, agnostic, parent, mem) == SameRunKernels(op, args, m, MetaParams(args, 0, 0, agnostic), e1, e2)
  {
    var a, b := HarmlessKernels(op, args, m, agnostic, parent, mem), SameRunKernels(op, args, m, MetaParams(args, 0, 0, agnostic), e1, e2);
    forall kernels: Kernels ensures kernels in a <==> kernels in b {
      HarmlessIsSameRun(op, args, m, agnostic, parent, mem, kernels, e1, e2);
    }
  }

  lemma MergedShowsIff(ids: seq<Id>, stack: seq<Item>, vals: seq<Value>, parent: seq<nat>)
    requires |ids| == |stack| == |vals| == |parent| && ParentsValid(parent) && Distinct(ids)
    ensures ShowSame(ids, stack, BindInputs(ids, Merged(vals, parent)), BindInputs(ids, vals)) <==> MergeUnseen(stack, vals, parent)
  {
    var e1, e2 := BindInputs(ids, Merged(vals, parent)), BindInputs(ids, vals);
    forall i | 0 <= i < |ids|
      ensures ShowsSame(ids[i], stack[i], e1, e2)
              <==> parent[i] == UNIQUE_ID || SeenFrom(stack[i], vals[parent[i]]) == SeenFrom(stack[i], vals[i])
    {
      IndexOfDistinct(ids, i);
      assert Lookup(e1, ids[i]) == Merged(vals, parent)[i] && Lookup(e2, ids[i]) == vals[i];
    }
    if MergeUnseen(stack, vals, parent) {
      forall i | 0 <= i < |ids| ensures ShowsSame(ids[i], stack[i], e1, e2) {}
    } else {
      var i :| 0 <= i < |parent| && parent[i] != UNIQUE_ID && SeenFrom(stack[i], vals[parent[i]]) != SeenFrom(stack[i], vals[i]);
      assert !ShowsSame(ids[i], stack[i], e1, e2);
    }
  }

  // --- two names for one window ---

  /** The tensor's own elements, read through its window once more, are the tensor. */
  ghost predicate SelfContained(t: TensorArg, mem: Mem)
    requires Held(t, mem)
  {
    MakeSem(ConstantKernels([])).view(false, TensorValue(t, mem), SizesOf(t.view), StridesOf(t.view), OffsetOf(t.view)) == TensorValue(t, mem)
  }

  /** An alias shows the same from its parent's buffer exactly when the two agree on being lowered, or the
      lowered one is the parent and is the whole base, or the plain one is the parent and is self-contained. */
  lemma AliasUnseenIff(t: TensorArg, u: TensorArg, a: Item, mem: Mem)
    requires Held(t, mem) && Held(u, mem) && t.hpu && u.hpu && a.Ten? && a.t == u
    requires t.storage == u.storage && t.view == u.view && t.dtype == u.dtype
    ensures SeenFrom(a, BaseValue(t, mem)) == SeenFrom(a, BaseValue(u, mem))
            <==> t.IsView() == u.IsView() || (if t.IsView() then WholeBase(t, mem) else SelfContained(t, mem))
  {
    if u.IsView() { BaseShowsTensor(u, a, mem); }
  }

  lemma BaseShowsTensor(u: TensorArg, a: Item, mem: Mem)
    requires Held(u, mem) && u.hpu && u.IsView() && a.Ten? && a.t == u
    ensures SeenFrom(a, BaseValue(u, mem)) == TensorValue(u, mem)
  {
  }

  /** A contiguous tensor with elements is self-contained exactly at offset zero. */
  lemma ContiguousSelfContainedIff(t: TensorArg, mem: Mem)
    requires Held(t, mem) && t.view.strides == ContiguousStrides(t.view.sizes) && Numel(t.view.sizes) > 0
    ensures SelfContained(t, mem) <==> t.view.offset == 0
  {
    var items := TensorValue(t, mem).data;
    if t.view.offset == 0 { ContiguousReadsItself(t.view, items); } else { ContiguousBehindFits(t.view); }
  }

  lemma ContiguousReadsItself(v: View, items: seq<int>)
    requires v.strides == ContiguousStrides(v.sizes) && v.offset == 0 && |items| == Numel(v.sizes)
    ensures Fits(v, |items|) && ReadView(items, v) == items
  {
    forall j: nat | j < Numel(v.sizes) ensures Pos(v, j) == j { ContiguousPos(v, j); }
  }

  lemma ContiguousBehindFits(v: View)
    requires v.strides == ContiguousStrides(v.sizes) && v.offset > 0 && Numel(v.sizes) > 0
    ensures !Fits(v, Numel(v.sizes))
  {
    var last := Numel(v.sizes) - 1;
    ContiguousPos(v, last);
    assert Pos(v, last) >= Numel(v.sizes);
  }

  lemma ContiguousPos(v: View, j: nat)
    requires v.strides == ContiguousStrides(v.sizes) && j < Numel(v.sizes)
    ensures |v.strides| == |v.sizes| && Pos(v, j) == v.offset + j
  {
    DotContiguous(Unrank(j, v.sizes), v.sizes);
    RankUnrank(j, v.sizes);
  }
}
