/**
 From graph outputs to storages: the memory an eager in-place call leaves behind, and
 the memory the lowered graph leaves behind when its outputs are bound to the base buffers.
 */
module StorageUpdate {
  import opened IndexSpace
  import opened StridedViews
  import opened JitGraph
  import opened ViewLowering
  import opened EagerGraph
  import opened LoweringMeaning
  import opened OpReplacement

  type Storages = map<nat, seq<int>>

  /** A result has the sizes of the tensor it is written to. */
  ghost predicate ResultFits(t: TensorArg, r: Value) {
    r.Tensor? && r.sizes == t.view.sizes && |r.data| == Numel(t.view.sizes)
  }

  ghost predicate Writable(data: Storages, t: TensorArg) {
    t.storage in data && Fits(t.view, |data[t.storage]|)
  }

  ghost predicate AllWritable(data: Storages, ws: seq<Slot>) {
    forall i :: 0 <= i < |ws| ==> Writable(data, ws[i].t)
  }

  ghost predicate ResultsFit(ws: seq<Slot>, results: seq<Value>) {
    |ws| <= |results| && forall k :: 0 <= k < |ws| ==> ResultFits(ws[k].t, results[k])
  }

  /** Write a result through a tensor; a result that does not fit is not written. */
  ghost function WriteThrough(data: Storages, t: TensorArg, r: Value): Storages {
    if Writable(data, t) && ResultFits(t, r) then data[t.storage := InsertView(data[t.storage], t.view, r.data)] else data
  }

  /** Bind a graph output: a view's output is its whole base. A plain tensor shares its memory with the
      output of the op itself, so it is written only if that op ran, and not its twin. */
  ghost function BindOutput(data: Storages, ran: bool, t: TensorArg, out: Value): Storages {
    if !t.IsView() then if ran then WriteThrough(data, t, out) else data
    else if out.Tensor? then data[t.storage := out.data] else data
  }

  /** Eager execution: result k is written through the k-th written tensor, one after another. */
  ghost function EagerUpdate(data: Storages, ws: seq<Slot>, results: seq<Value>, n: nat): Storages
    requires n <= |ws| <= |results|
  {
    if n == 0 then data else WriteThrough(EagerUpdate(data, ws, results, n - 1), ws[n - 1].t, results[n - 1])
  }

  /** Lowered execution: output k is bound to the k-th written tensor. */
  ghost function LoweredUpdate(data: Storages, ran: bool, ws: seq<Slot>, outs: seq<Value>, n: nat): Storages
    requires n <= |ws| <= |outs|
  {
    if n == 0 then data else BindOutput(LoweredUpdate(data, ran, ws, outs, n - 1), ran, ws[n - 1].t, outs[n - 1])
  }

  /** No plain tensor waits for an op that did not run. */
  ghost predicate PlainUpdated(ran: bool, ws: seq<Slot>) { forall k :: 0 <= k < |ws| && !ws[k].t.IsView() ==> ran }

  /** One of the written tensors number from..n covers position p of storage x. */
  ghost predicate CoveredFrom(ws: seq<Slot>, x: nat, p: nat, from: nat, n: nat) {
    exists k :: from <= k < n && k < |ws| && CoversAt(ws[k].t, x, p)
  }

  ghost predicate CoversAt(t: TensorArg, x: nat, p: nat) { t.storage == x && Covers(t.view, p) }

  /** Every position written before a view of the same storage is written again by it or later. */
  ghost predicate WritesSurvive(ws: seq<Slot>) {
    forall i, j, p :: 0 <= i < j < |ws| && ws[j].t.IsView() && CoversAt(ws[i].t, ws[j].t.storage, p) ==>
      CoveredFrom(ws, ws[j].t.storage, p, j, |ws|)
  }

  ghost predicate OutputsExpected(ws: seq<Slot>, results: seq<Value>, outs: seq<Value>, mem: Mem) {
    && |ws| <= |outs| == |results|
    && (forall k :: 0 <= k < |ws| ==> Held(ws[k].t, mem) && ws[k].t.hpu)
    && (forall k :: 0 <= k < |ws| ==> outs[k] == ExpectedOutput(ws, k, results[k], mem))
  }

  /** Writes keep the storages and their lengths. */
  lemma {:induction false} SameLengths(data: Storages, ws: seq<Slot>, results: seq<Value>, n: nat, x: nat)
    requires n <= |ws| <= |results| && x in data
    ensures x in EagerUpdate(data, ws, results, n) && |EagerUpdate(data, ws, results, n)[x]| == |data[x]|
  {
    if n > 0 { SameLengths(data, ws, results, n - 1, x); }
  }

  /** Output k is the old base with the view's positions replaced, or the plain result. */
  ghost predicate Restores(data: Storages, t: TensorArg, result: Value, out: Value)
    requires Writable(data, t) && ResultFits(t, result)
  {
    if t.IsView() then out.Tensor? && out.data == InsertView(data[t.storage], t.view, result.data) else out == result
  }

  ghost predicate AllRestore(data: Storages, ws: seq<Slot>, results: seq<Value>, outs: seq<Value>)
    requires AllWritable(data, ws) && ResultsFit(ws, results)
  {
    |ws| <= |outs| && forall k :: 0 <= k < |ws| ==> Restores(data, ws[k].t, results[k], outs[k])
  }

  lemma ExpectedRestores(t: TensorArg, result: Value, out: Value, mem: Mem)
    requires Held(t, mem) && t.hpu && ResultFits(t, result)
    requires out == if t.IsView() then InsertOf(BaseValue(t, mem), result, StridesOf(t.view), OffsetOf(t.view)) else result
    ensures Writable(mem.data, t) && Restores(mem.data, t, result, out)
  {
  }

  lemma AllExpectedRestore(ws: seq<Slot>, results: seq<Value>, outs: seq<Value>, mem: Mem)
    requires OutputsExpected(ws, results, outs, mem) && ResultsFit(ws, results)
    ensures AllWritable(mem.data, ws) && AllRestore(mem.data, ws, results, outs)
  {
    forall k | 0 <= k < |ws| ensures Writable(mem.data, ws[k].t) && Restores(mem.data, ws[k].t, results[k], outs[k]) {
      ExpectedRestores(ws[k].t, results[k], outs[k], mem);
    }
  }

  // --- position by position ---

  lemma {:induction false} LoweredLengths(data: Storages, ran: bool, ws: seq<Slot>, results: seq<Value>, outs: seq<Value>, n: nat, x: nat)
    requires AllWritable(data, ws) && ResultsFit(ws, results) && AllRestore(data, ws, results, outs)
    requires n <= |ws| && x in data
    ensures x in LoweredUpdate(data, ran, ws, outs, n) && |LoweredUpdate(data, ran, ws, outs, n)[x]| == |data[x]|
  {
    if n > 0 { LoweredLengths(data, ran, ws, results, outs, n - 1, x); }
  }

  /** The last view of storage x among the first n written tensors, or n. */
  ghost function LastView(ws: seq<Slot>, x: nat, n: nat): (j: nat)
    requires n <= |ws|
    ensures j <= n
    ensures j < n ==> ws[j].t.IsView() && ws[j].t.storage == x
    ensures forall i :: j < i < n ==> !(ws[i].t.IsView() && ws[i].t.storage == x)
    ensures j == n ==> forall i :: 0 <= i < n ==> !(ws[i].t.IsView() && ws[i].t.storage == x)
  {
    if n == 0 then 0
    else if ws[n - 1].t.IsView() && ws[n - 1].t.storage == x then n - 1
    else
      var j := LastView(ws, x, n - 1);
      if j == n - 1 then n else j
  }

  /** What position p of storage x holds after n writes: eager execution keeps what no tensor covers,
      and lowered execution has forgotten what was written before the last view. */
  ghost predicate Relates(data: Storages, lowered: Storages, eager: Storages, ws: seq<Slot>, x: nat, p: nat, n: nat)
    requires n <= |ws| && x in data && p < |data[x]|
  {
    && x in lowered && x in eager && |lowered[x]| == |eager[x]| == |data[x]|
    && (!CoveredFrom(ws, x, p, 0, n) ==> eager[x][p] == data[x][p])
    && var j := LastView(ws, x, n);
       lowered[x][p] == if j == n || CoveredFrom(ws, x, p, j, n) then eager[x][p] else data[x][p]
  }

  lemma EachRestores(data: Storages, ws: seq<Slot>, results: seq<Value>, outs: seq<Value>, k: nat)
    requires AllWritable(data, ws) && ResultsFit(ws, results) && AllRestore(data, ws, results, outs) && k < |ws|
    ensures Writable(data, ws[k].t) && ResultFits(ws[k].t, results[k]) && Restores(data, ws[k].t, results[k], outs[k])
  {
  }

  lemma UpdatesRelate(data: Storages, ran: bool, ws: seq<Slot>, results: seq<Value>, outs: seq<Value>, n: nat, x: nat, p: nat)
    requires PlainUpdated(ran, ws) && AllWritable(data, ws) && ResultsFit(ws, results) && AllRestore(data, ws, results, outs)
    requires n <= |ws| && x in data && p < |data[x]|
    ensures Relates(data, LoweredUpdate(data, ran, ws, outs, n), EagerUpdate(data, ws, results, n), ws, x, p, n)
  {
    UpdatesRelated(data, ran, ws, results, outs, n, x, p);
  }

  /** The pairs of memories that may stand after n writes. */
  ghost function RelatedMemories(data: Storages, ws: seq<Slot>, x: nat, p: nat, n: nat): iset<(Storages, Storages)>
    requires n <= |ws| && x in data && p < |data[x]|
  {
    iset both: (Storages, Storages) | Relates(data, both.0, both.1, ws, x, p, n)
  }

  lemma {:induction false} UpdatesRelated(data: Storages, ran: bool, ws: seq<Slot>, results: seq<Value>, outs: seq<Value>, n: nat, x: nat, p: nat)
    requires PlainUpdated(ran, ws) && AllWritable(data, ws) && ResultsFit(ws, results) && AllRestore(data, ws, results, outs)
    requires n <= |ws| && x in data && p < |data[x]|
    ensures (LoweredUpdate(data, ran, ws, outs, n), EagerUpdate(data, ws, results, n)) in RelatedMemories(data, ws, x, p, n)
  {
    if n > 0 {
      var k := n - 1;
      UpdatesRelated(data, ran, ws, results, outs, k, x, p);
      EachRestores(data, ws, results, outs, k);
      UpdateStep(data, ran, ws, results, outs, k, n);
      OneMoreRelated(data, ran, LoweredUpdate(data, ran, ws, outs, k), EagerUpdate(data, ws, results, k), ws, results[k], outs[k], x, p, k, n);
    }
  }

  lemma UpdateStep(data: Storages, ran: bool, ws: seq<Slot>, results: seq<Value>, outs: seq<Value>, k: nat, n: nat)
    requires n == k + 1 && n <= |ws| && |ws| <= |results| && |ws| <= |outs|
    ensures LoweredUpdate(data, ran, ws, outs, n) == BindOutput(LoweredUpdate(data, ran, ws, outs, k), ran, ws[k].t, outs[k])
    ensures EagerUpdate(data, ws, results, n) == WriteThrough(EagerUpdate(data, ws, results, k), ws[k].t, results[k])
  {
  }

  lemma OneMoreRelated(data: Storages, ran: bool, lowered: Storages, eager: Storages, ws: seq<Slot>, result: Value, out: Value, x: nat, p: nat, k: nat, n: nat)
    requires n == k + 1 && n <= |ws| && x in data && p < |data[x]| && (!ws[k].t.IsView() ==> ran)
    requires Writable(data, ws[k].t) && ResultFits(ws[k].t, result) && Restores(data, ws[k].t, result, out)
    requires (lowered, eager) in RelatedMemories(data, ws, x, p, k)
    ensures (BindOutput(lowered, ran, ws[k].t, out), WriteThrough(eager, ws[k].t, result)) in RelatedMemories(data, ws, x, p, n)
  {
    OneMoreWrite(data, ran, lowered, eager, ws, result, out, x, p, k, n);
  }

  lemma OneMoreWrite(data: Storages, ran: bool, lowered: Storages, eager: Storages, ws: seq<Slot>, result: Value, out: Value, x: nat, p: nat, k: nat, n: nat)
    requires n == k + 1 && n <= |ws| && x in data && p < |data[x]| && (!ws[k].t.IsView() ==> ran)
    requires Writable(data, ws[k].t) && ResultFits(ws[k].t, result) && Restores(data, ws[k].t, result, out)
    requires Relates(data, lowered, eager, ws, x, p, k)
    ensures Relates(data, BindOutput(lowered, ran, ws[k].t, out), WriteThrough(eager, ws[k].t, result), ws, x, p, n)
  {
    var t := ws[k].t;
    OneMoreCovered(ws, x, p, n);
    if t.storage == x {
      InsertAt(eager[x], data[x], t.view, result.data, p);
      InsertAt(eager[x], lowered[x], t.view, result.data, p);
      InsertAt(lowered[x], eager[x], t.view, result.data, p);
      InsertAt(data[x], eager[x], t.view, result.data, p);
    }
  }

  /** The coverage of one more write. */
  lemma OneMoreCovered(ws: seq<Slot>, x: nat, p: nat, n: nat)
    requires 0 < n <= |ws|
    ensures forall from: nat :: CoveredFrom(ws, x, p, from, n)
                                <==> CoveredFrom(ws, x, p, from, n - 1) || (from < n && CoversAt(ws[n - 1].t, x, p))
    ensures !CoveredFrom(ws, x, p, n - 1, n - 1)
  {
    forall from: nat
      ensures CoveredFrom(ws, x, p, from, n) <==> CoveredFrom(ws, x, p, from, n - 1) || (from < n && CoversAt(ws[n - 1].t, x, p))
    {
      if CoveredFrom(ws, x, p, from, n) {
        var k :| from <= k < n && k < |ws| && CoversAt(ws[k].t, x, p);
        assert k < n - 1 ==> CoveredFrom(ws, x, p, from, n - 1);
      }
      if CoveredFrom(ws, x, p, from, n - 1) {
        var k :| from <= k < n - 1 && k < |ws| && CoversAt(ws[k].t, x, p);
      }
    }
  }

  lemma {:induction false} SameStorages(data: Storages, ran: bool, ws: seq<Slot>, results: seq<Value>, outs: seq<Value>, n: nat)
    requires AllWritable(data, ws) && n <= |ws| <= |results| && |ws| <= |outs|
    ensures EagerUpdate(data, ws, results, n).Keys == LoweredUpdate(data, ran, ws, outs, n).Keys == data.Keys
  {
    if n > 0 {
      SameStorages(data, ran, ws, results, outs, n - 1);
      assert Writable(data, ws[n - 1].t);
    }
  }

  // --- when the two executions agree ---

  /** If the graph outputs are as the lowering theorem says, and no write is lost, both executions
      leave the same memory. */
  lemma SameMemory(data: Storages, ran: bool, ws: seq<Slot>, results: seq<Value>, outs: seq<Value>)
    requires PlainUpdated(ran, ws) && AllWritable(data, ws) && ResultsFit(ws, results) && AllRestore(data, ws, results, outs) && WritesSurvive(ws)
    ensures LoweredUpdate(data, ran, ws, outs, |ws|) == EagerUpdate(data, ws, results, |ws|)
  {
    var lowered, eager := LoweredUpdate(data, ran, ws, outs, |ws|), EagerUpdate(data, ws, results, |ws|);
    SameStorages(data, ran, ws, results, outs, |ws|);
    forall x | x in data ensures x in lowered && x in eager && lowered[x] == eager[x] {
      LoweredLengths(data, ran, ws, results, outs, |ws|, x);
      SameLengths(data, ws, results, |ws|, x);
      forall p: nat | p < |data[x]| ensures lowered[x][p] == eager[x][p] {
        UpdatesRelate(data, ran, ws, results, outs, |ws|, x, p);
        NothingForgotten(ws, x, p);
      }
    }
  }

  lemma NothingForgotten(ws: seq<Slot>, x: nat, p: nat)
    requires WritesSurvive(ws)
    ensures var j := LastView(ws, x, |ws|);
            j < |ws| && CoveredFrom(ws, x, p, 0, |ws|) ==> CoveredFrom(ws, x, p, j, |ws|)
  {
    var j := LastView(ws, x, |ws|);
    if j < |ws| && CoveredFrom(ws, x, p, 0, |ws|) {
      var k :| 0 <= k < |ws| && CoversAt(ws[k].t, x, p);
      if k < j { assert CoversAt(ws[k].t, ws[j].t.storage, p); }
    }
  }

  /** Results that write one number everywhere. */
  ghost predicate AllConstant(ws: seq<Slot>, results: seq<Value>, c: int) {
    |ws| <= |results| && forall k :: 0 <= k < |ws| ==> results[k] == ConstantResult(ws[k].t, c)
  }

  ghost function ConstantResult(t: TensorArg, c: int): (r: Value)
    ensures ResultFits(t, r) && forall i :: 0 <= i < |r.data| ==> r.data[i] == c
  {
    Tensor(t.dtype, t.view.sizes, seq(Numel(t.view.sizes), _ => c))
  }

  /** Such results, as many as the op has outputs. */
  ghost function ConstantResults(ws: seq<Slot>, c: int, m: nat): (r: seq<Value>)
    requires |ws| <= m
    ensures |r| == m && AllConstant(ws, r, c) && ResultsFit(ws, r)
  {
    seq(m, k requires 0 <= k < m => if k < |ws| then ConstantResult(ws[k].t, c) else Absent)
  }

  /** The graph outputs that go with some results. */
  ghost function OutputsFor(data: Storages, ws: seq<Slot>, results: seq<Value>): (outs: seq<Value>)
    requires AllWritable(data, ws) && ResultsFit(ws, results)
    ensures AllRestore(data, ws, results, outs)
  {
    seq(|ws|, k requires 0 <= k < |ws| => OutputFor(data, ws[k].t, results[k]))
  }

  ghost function OutputFor(data: Storages, t: TensorArg, result: Value): (out: Value)
    requires Writable(data, t) && ResultFits(t, result)
    ensures Restores(data, t, result, out)
  {
    if t.IsView() then Tensor(t.dtype, [|data[t.storage]|], InsertView(data[t.storage], t.view, result.data)) else result
  }

  lemma ConstantStep(before: Storages, t: TensorArg, c: int, x: nat, p: nat)
    requires x in before && p < |before[x]| && (t.storage == x ==> Fits(t.view, |before[x]|))
    ensures var after := WriteThrough(before, t, ConstantResult(t, c));
            x in after && |after[x]| == |before[x]| && after[x][p] == if CoversAt(t, x, p) then c else before[x][p]
  {
    if t.storage == x {
      var src := ConstantResult(t, c).data;
      if CoversAt(t, x, p) { InsertConstant(before[x], t.view, src, p, c); } else { InsertFrame(before[x], t.view, src, p); }
    }
  }

  lemma {:induction false} ConstantWritten(data: Storages, ws: seq<Slot>, results: seq<Value>, c: int, n: nat, x: nat, p: nat)
    requires AllWritable(data, ws) && AllConstant(ws, results, c)
    requires n <= |ws| && x in data && p < |data[x]| && CoveredFrom(ws, x, p, 0, n)
    ensures var eager := EagerUpdate(data, ws, results, n);
            x in eager && |eager[x]| == |data[x]| && eager[x][p] == c
  {
    var before := EagerUpdate(data, ws, results, n - 1);
    SameLengths(data, ws, results, n - 1, x);
    OneMoreCovered(ws, x, p, n);
    assert Writable(data, ws[n - 1].t);
    ConstantStep(before, ws[n - 1].t, c, x, p);
    if !CoversAt(ws[n - 1].t, x, p) { ConstantWritten(data, ws, results, c, n - 1, x, p); }
  }

  /** A position that is written before a view of its storage and never again. */
  ghost predicate Lost(ws: seq<Slot>, i: nat, j: nat, p: nat) {
    && i < j < |ws| && ws[j].t.IsView() && CoversAt(ws[i].t, ws[j].t.storage, p)
    && !CoveredFrom(ws, ws[j].t.storage, p, j, |ws|)
  }

  /** It keeps its old element, where eager execution leaves the written one. */
  lemma LostWrite(data: Storages, ran: bool, ws: seq<Slot>, i: nat, j: nat, p: nat, c: int, results: seq<Value>, outs: seq<Value>)
    requires PlainUpdated(ran, ws) && AllWritable(data, ws) && Lost(ws, i, j, p)
    requires AllConstant(ws, results, c) && ResultsFit(ws, results) && AllRestore(data, ws, results, outs)
    requires c != OldElement(data, ws[j].t.storage, p)
    ensures LoweredUpdate(data, ran, ws, outs, |ws|) != EagerUpdate(data, ws, results, |ws|)
  {
    var x := ws[j].t.storage;
    assert Writable(data, ws[i].t);
    UpdatesRelate(data, ran, ws, results, outs, |ws|, x, p);
    ConstantWritten(data, ws, results, c, |ws|, x, p);
    var last := LastView(ws, x, |ws|);
    assert j <= last < |ws|;
  }

  function OldElement(data: Storages, x: nat, p: nat): int {
    if x in data && p < |data[x]| then data[x][p] else 0
  }

  /** Lowered execution leaves the eager memory for all results exactly when every position written
      before a view of the same storage is written again by that view or later. */
  lemma SameMemoryIff(data: Storages, ran: bool, ws: seq<Slot>)
    requires PlainUpdated(ran, ws) && AllWritable(data, ws)
    ensures (forall results: seq<Value>, outs: seq<Value> :: ResultsFit(ws, results) && AllRestore(data, ws, results, outs) ==>
               LoweredUpdate(data, ran, ws, outs, |ws|) == EagerUpdate(data, ws, results, |ws|))
            <==> WritesSurvive(ws)
  {
    if WritesSurvive(ws) {
      forall results: seq<Value>, outs: seq<Value> | ResultsFit(ws, results) && AllRestore(data, ws, results, outs)
        ensures LoweredUpdate(data, ran, ws, outs, |ws|) == EagerUpdate(data, ws, results, |ws|)
      {
        SameMemory(data, ran, ws, results, outs);
      }
    } else {
      var i, j, p := SomeLost(ws);
      var c := OldElement(data, ws[j].t.storage, p) + 1;
      var results := ConstantResults(ws, c, |ws|);
      LostWrite(data, ran, ws, i, j, p, c, results, OutputsFor(data, ws, results));
    }
  }

  lemma SomeLost(ws: seq<Slot>) returns (i: nat, j: nat, p: nat)
    requires !WritesSurvive(ws)
    ensures Lost(ws, i, j, p)
  {
    i, j, p :| 0 <= i < j < |ws| && ws[j].t.IsView() && CoversAt(ws[i].t, ws[j].t.storage, p)
               && !CoveredFrom(ws, ws[j].t.storage, p, j, |ws|);
  }

  /** Running a graph for the call on some inputs and binding its outputs leaves the memory of the eager op. */
  ghost predicate GraphLeavesEagerMemory(g: Graph, op: OpInfo, args: seq<Arg>, kernels: Kernels, env: Env, mem: Mem)
    requires AllHeld(args, mem)
  {
    var ws, outs, results := WrittenSlots(Context(op, args), AllSlots(args)), Run(MakeSem(kernels), g, env), EagerResults(op, kernels, args, mem);
    && |ws| <= |outs| && |ws| <= |results|
    && LoweredUpdate(mem.data, Runs(g, op.symbol), ws, outs, |ws|) == EagerUpdate(mem.data, ws, results, |ws|)
  }

  ghost predicate LeavesEagerMemory(op: OpInfo, args: seq<Arg>, m: nat, params: ParamMap, kernels: Kernels, env: Env, mem: Mem)
    requires Accepted(op, args, m) && AllHeld(args, mem)
  {
    GraphLeavesEagerMemory(LoweredGraph(op, args, m, params), op, args, kernels, env, mem)
  }

  /** The pass never leaves a plain written tensor to the twin. */
  lemma LoweredPlainUpdated(op: OpInfo, args: seq<Arg>, m: nat, params: ParamMap)
    requires Accepted(op, args, m) && Consistent(op) && OutsAreTensors(op, args)
    ensures PlainUpdated(Runs(LoweredGraph(op, args, m, params), op.symbol), WrittenSlots(Context(op, args), AllSlots(args)))
  {
    var ws := WrittenSlots(Context(op, args), AllSlots(args));
    forall k | 0 <= k < |ws| && !ws[k].t.IsView() ensures Runs(LoweredGraph(op, args, m, params), op.symbol) {
      PlainWrittenByOp(op, args, m, params, k);
    }
  }

  /** End to end: the lowered graph, run on the base buffers and bound back to them,
      leaves every storage as the eager op would. */
  lemma LoweredMemoryIsEager(op: OpInfo, args: seq<Arg>, m: nat, params: ParamMap, kernels: Kernels, env: Env, mem: Mem)
    requires Accepted(op, args, m) && Consistent(op) && OutsAreTensors(op, args)
    requires AllHeld(args, mem) && Bound(args, 0, env, mem)
    requires OpLaws(op, args, m, kernels, mem)
    requires ResultsFit(WrittenSlots(Context(op, args), AllSlots(args)), EagerResults(op, kernels, args, mem))
    requires WritesSurvive(WrittenSlots(Context(op, args), AllSlots(args)))
    ensures LeavesEagerMemory(op, args, m, params, kernels, env, mem)
  {
    var ctx := Context(op, args);
    var ws := WrittenSlots(ctx, AllSlots(args));
    var outs := Run(MakeSem(kernels), LoweredGraph(op, args, m, params), env);
    var results := EagerResults(op, kernels, args, mem);
    LoweredOutputsExpected(op, args, m, params, kernels, env, mem);
    AllExpectedRestore(ws, results, outs, mem);
    LoweredPlainUpdated(op, args, m, params);
    SameMemory(mem.data, Runs(LoweredGraph(op, args, m, params), op.symbol), ws, results, outs);
  }

  lemma LoweredOutputsExpected(op: OpInfo, args: seq<Arg>, m: nat, params: ParamMap, kernels: Kernels, env: Env, mem: Mem)
    requires Accepted(op, args, m) && Consistent(op)
    requires AllHeld(args, mem) && Bound(args, 0, env, mem)
    requires OpLaws(op, args, m, kernels, mem)
    ensures OutputsExpected(WrittenSlots(Context(op, args), AllSlots(args)), EagerResults(op, kernels, args, mem),
                            Run(MakeSem(kernels), LoweredGraph(op, args, m, params), env), mem)
  {
    var ctx := Context(op, args);
    var ws := WrittenSlots(ctx, AllSlots(args));
    var outs := Run(MakeSem(kernels), LoweredGraph(op, args, m, params), env);
    LoweredRun(op, args, m, params, MakeSem(kernels), env);
    assert |outs| == m;
    assert |kernels.op(op.symbol, EagerValues(args, mem))| == m;
    forall k: nat | k < |ws|
      ensures Held(ws[k].t, mem) && ws[k].t.hpu
      ensures outs[k] == ExpectedOutput(ws, k, EagerResults(op, kernels, args, mem)[k], mem)
    {
      ViewLoweringPreservesMeaning(op, args, m, params, kernels, env, mem, k);
      var i := WrittenIsSlot(ctx, AllSlots(args), k);
    }
  }

  /** Kernels that compute the same numbers whatever they are given. */
  function ConstantKernels(results: seq<Value>): Kernels {
    Kernels((name: string, a: seq<Value>) => results, (dtype: nat, v: Value) => v, (dtype: nat, sizes: seq<nat>, i: nat) => 0)
  }

  lemma ConstantKernelsObeyLaws(op: OpInfo, args: seq<Arg>, m: nat, mem: Mem, results: seq<Value>)
    requires AllHeld(args, mem) && |results| == m
    ensures OpLaws(op, args, m, ConstantKernels(results), mem)
  {
  }

  /** A call that loses a write, as a call: some kernels that obey the laws leave another memory. */
  lemma CallLosesAWrite(op: OpInfo, args: seq<Arg>, m: nat, params: ParamMap, env: Env, mem: Mem) returns (kernels: Kernels)
    requires Accepted(op, args, m) && Consistent(op) && OutsAreTensors(op, args) && AllHeld(args, mem) && Bound(args, 0, env, mem)
    requires !WritesSurvive(WrittenSlots(Context(op, args), AllSlots(args)))
    ensures OpLaws(op, args, m, kernels, mem)
    ensures ResultsFit(WrittenSlots(Context(op, args), AllSlots(args)), EagerResults(op, kernels, args, mem))
    ensures !LeavesEagerMemory(op, args, m, params, kernels, env, mem)
  {
    var ws := WrittenSlots(Context(op, args), AllSlots(args));
    var i, j, p := SomeLost(ws);
    var c := OldElement(mem.data, ws[j].t.storage, p) + 1;
    var results := ConstantResults(ws, c, m);
    kernels := ConstantKernels(results);
    ConstantKernelsObeyLaws(op, args, m, mem, results);
    var outs := Run(MakeSem(kernels), LoweredGraph(op, args, m, params), env);
    LoweredOutputsExpected(op, args, m, params, kernels, env, mem);
    AllExpectedRestore(ws, results, outs, mem);
    LoweredPlainUpdated(op, args, m, params);
    LostWrite(mem.data, Runs(LoweredGraph(op, args, m, params), op.symbol), ws, i, j, p, c, results, outs);
  }

  /** For a call on given memory: the lowered graph leaves the eager memory under all kernels that obey
      the laws if and only if no write is lost. */
  lemma LoweredMemoryIsEagerIff(op: OpInfo, args: seq<Arg>, m: nat, params: ParamMap, env: Env, mem: Mem)
    requires Accepted(op, args, m) && Consistent(op) && OutsAreTensors(op, args) && AllHeld(args, mem) && Bound(args, 0, env, mem)
    ensures (forall kernels: Kernels ::
               OpLaws(op, args, m, kernels, mem) && ResultsFit(WrittenSlots(Context(op, args), AllSlots(args)), EagerResults(op, kernels, args, mem)) ==>
               LeavesEagerMemory(op, args, m, params, kernels, env, mem))
            <==> WritesSurvive(WrittenSlots(Context(op, args), AllSlots(args)))
  {
    var ws := WrittenSlots(Context(op, args), AllSlots(args));
    if WritesSurvive(ws) {
      forall kernels: Kernels | OpLaws(op, args, m, kernels, mem) && ResultsFit(ws, EagerResults(op, kernels, args, mem))
        ensures LeavesEagerMemory(op, args, m, params, kernels, env, mem)
      {
        LoweredMemoryIsEager(op, args, m, params, kernels, env, mem);
      }
    } else {
      var kernels := CallLosesAWrite(op, args, m, params, env, mem);
      assert !LeavesEagerMemory(op, args, m, params, kernels, env, mem);
    }
  }

  function Half(offset: nat): TensorArg { TensorArg(7, View([1], [1], offset), 0, true, true, true) }

  /** A call that loses a write: an in-place op on a list of the two halves of one buffer. Each output
      rebuilds the whole buffer from its old contents, and the later one wins. */
  lemma SharedStorageLosesAWrite(x: int, y: int, params: ParamMap) returns (op: OpInfo, args: seq<Arg>, kernels: Kernels, env: Env, mem: Mem)
    ensures op == DescribeOp("aten::_foreach_add_", OpMeta(Inplace, "aten::_foreach_add", "_foreach_add", {0}, 0))
    ensures args == [Many([Half(0), Half(1)]), Scalar(Int(1))] && mem == Mem(map[7 := [x, y]], map[7 := [2]])
    ensures Accepted(op, args, 2) && AllHeld(args, mem) && Bound(args, 0, env, mem) && OpLaws(op, args, 2, kernels, mem)
    ensures !LeavesEagerMemory(op, args, 2, params, kernels, env, mem)
  {
    op := DescribeOp("aten::_foreach_add_", OpMeta(Inplace, "aten::_foreach_add", "_foreach_add", {0}, 0));
    args := [Many([Half(0), Half(1)]), Scalar(Int(1))];
    mem := Mem(map[7 := [x, y]], map[7 := [2]]);
    var base := Tensor(0, [2], [x, y]);
    env := map[0 := base, 1 := base, 3 := Const(Int(1))];
    HalvesHeld(args, env, mem);
    HalvesWritten(op, args);
    HalvesLost();
    kernels := CallLosesAWrite(op, args, 2, params, env, mem);
  }

  lemma HalvesHeld(args: seq<Arg>, env: Env, mem: Mem)
    requires args == [Many([Half(0), Half(1)]), Scalar(Int(1))]
    requires 7 in mem.data && |mem.data[7]| == 2 && mem.sizes == map[7 := [2]]
    requires var base := Tensor(0, [2], mem.data[7]); env == map[0 := base, 1 := base, 3 := Const(Int(1))]
    ensures AllHeld(args, mem) && Bound(args, 0, env, mem)
  {
    HalfCovers(0);
    HalfCovers(1);
    assert ArgHeld(args[0], mem) && ArgHeld(args[1], mem);
    assert args[1..] == [Scalar(Int(1))] && args[1..][1..] == [];
    assert Bound(args[1..], 3, env, mem);
  }

  lemma HalvesWritten(op: OpInfo, args: seq<Arg>)
    requires op.kind == Inplace && op.outIndices == {0} && op.numOut == 0 && !op.needsCast
    requires args == [Many([Half(0), Half(1)]), Scalar(Int(1))]
    ensures AllSlots(args) == [Slot(Half(0), 2, 0, 0, 0), Slot(Half(1), 2, 1, 0, 1)]
    ensures WrittenSlots(Context(op, args), AllSlots(args)) == AllSlots(args) && Accepted(op, args, 2)
  {
    var slots := [Slot(Half(0), 2, 0, 0, 0), Slot(Half(1), 2, 1, 0, 1)];
    assert args[1..] == [Scalar(Int(1))] && args[1..][1..] == [];
    assert TotalWidth(args[1..]) == 1 && TotalWidth(args) == 4;
    assert Slots(args[1..], 1, 3, 4) == [];
    assert AllSlots(args) == slots;
    assert slots[1..] == [slots[1]] && slots[1..][1..] == [];
    assert WrittenSlots(Context(op, args), slots[1..]) == [slots[1]];
  }

  lemma HalvesLost()
    ensures !WritesSurvive([Slot(Half(0), 2, 0, 0, 0), Slot(Half(1), 2, 1, 0, 1)])
  {
    var ws := [Slot(Half(0), 2, 0, 0, 0), Slot(Half(1), 2, 1, 0, 1)];
    HalfCovers(0);
    HalfCovers(1);
    assert CoversAt(ws[0].t, ws[1].t.storage, 0);
    assert !CoveredFrom(ws, ws[1].t.storage, 0, 1, 2);
  }

  lemma HalfCovers(offset: nat)
    requires offset < 2
    ensures Fits(Half(offset).view, 2) && forall p :: Covers(Half(offset).view, p) <==> p == offset
  {
    OneElementPos(offset);
    assert Covers(Half(offset).view, offset);
  }

  lemma OneElementPos(offset: nat)
    ensures Numel([1]) == 1 && Pos(View([1], [1], offset), 0) == offset
    ensures Fits(View([1], [1], offset), offset + 1)
  {
    assert Numel([1]) == 1;
    assert Unrank(0, [1]) == [0];
    assert Dot([0], [1]) == 0;
  }
}
