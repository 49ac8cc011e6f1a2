/**
 find_duplicate_in_stack and the two prunings that follow it: one on the runtime stack,
 one on the graph inputs, and why the pruned graph on the pruned stack means the same.
 */
module DuplicateInputs {
  import opened IndexSpace
  import opened StridedViews
  import opened JitGraph
  import opened ViewLowering

  /** An entry of the flattened stack: a number, or a tensor and whether it has a storage. */
  datatype Item = Number(c: IValue) | Ten(t: TensorArg, hasStorage: bool)

  /** The marker for "no parent" (the maximum of the index type). */
  const UNIQUE_ID: nat := 0x7fff_ffff_ffff_ffff

  /** The address of a tensor's first element; an empty tensor has none. Storages are named by their base address. */
  function DataPtr(t: TensorArg, size: nat -> nat): nat {
    if Numel(t.view.sizes) == 0 then 0 else t.storage + t.view.offset * size(t.dtype)
  }

  function Ptr(s: Item, size: nat -> nat): nat {
    if s.Ten? then DataPtr(s.t, size) else 0
  }

  predicate SameWindow(a: Item, b: Item) {
    a.Ten? && b.Ten? && a.t.view.sizes == b.t.view.sizes && a.t.view.strides == b.t.view.strides
  }

  ghost predicate FirstAt(stack: seq<Item>, size: nat -> nat, p: nat, i: nat) {
    && p < i < |stack| && Ptr(stack[i], size) != 0 && Ptr(stack[p], size) == Ptr(stack[i], size)
    && forall j :: 0 <= j < p ==> Ptr(stack[j], size) != Ptr(stack[i], size)
  }

  /** Entry i has parent p: the first entry at its address, with its shape and strides. */
  ghost predicate IsParent(stack: seq<Item>, size: nat -> nat, p: nat, i: nat) {
    FirstAt(stack, size, p, i) && SameWindow(stack[p], stack[i])
  }

  predicate AllHaveStorage(stack: seq<Item>) {
    forall i :: 0 <= i < |stack| && stack[i].Ten? ==> stack[i].hasStorage
  }

  /** The parent vector is right at entry i. */
  ghost predicate ParentAt(stack: seq<Item>, size: nat -> nat, parent: seq<nat>, i: nat)
    requires i < |parent|
  {
    if parent[i] == UNIQUE_ID then forall p: nat :: !IsParent(stack, size, p, i)
    else IsParent(stack, size, parent[i], i)
  }

  ghost predicate ParentVector(stack: seq<Item>, size: nat -> nat, parent: seq<nat>) {
    && |parent| == |stack|
    && if AllHaveStorage(stack) then forall i :: 0 <= i < |stack| ==> ParentAt(stack, size, parent, i)
       else forall i :: 0 <= i < |stack| ==> parent[i] == UNIQUE_ID
  }

  method HasAllStorages(stack: seq<Item>) returns (all: bool)
    ensures all == AllHaveStorage(stack)
  {
    for i := 0 to |stack|
      invariant forall j :: 0 <= j < i && stack[j].Ten? ==> stack[j].hasStorage
    {
      if stack[i].Ten? && !stack[i].hasStorage {
        return false;
      }
    }
    return true;
  }

  /** input_addr_map after the first i entries: each address seen, with its first entry. */
  ghost predicate FirstEntries(stack: seq<Item>, size: nat -> nat, firstAt: map<nat, nat>, i: nat)
    requires i <= |stack|
  {
    && (forall a :: a in firstAt && a != 0 ==>
          firstAt[a] < i && Ptr(stack[firstAt[a]], size) == a && forall j :: 0 <= j < firstAt[a] ==> Ptr(stack[j], size) != a)
    && (forall j :: 0 <= j < i && Ptr(stack[j], size) != 0 ==> Ptr(stack[j], size) in firstAt)
  }

  /** One round of the second loop: the parent of entry i, and the address map with entry i in it. */
  method ParentOf(stack: seq<Item>, size: nat -> nat, firstAt: map<nat, nat>, i: nat) returns (p: nat, seen: map<nat, nat>)
    requires i < |stack| < UNIQUE_ID && FirstEntries(stack, size, firstAt, i)
    ensures FirstEntries(stack, size, seen, i + 1)
    ensures ParentAt(stack, size, seq(i, _ => UNIQUE_ID) + [p], i)
  {
    p, seen := UNIQUE_ID, firstAt;
    var address := Ptr(stack[i], size);
    if stack[i].Ten? {
      if address == 0 || address !in firstAt {
        seen := firstAt[address := i];
      } else {
        FirstIsUnique(stack, size, firstAt[address], i);
        if SameWindow(stack[firstAt[address]], stack[i]) {
          p := firstAt[address];
        }
      }
    }
  }

  method FindDuplicateInStack(stack: seq<Item>, size: nat -> nat) returns (parent: seq<nat>)
    requires |stack| < UNIQUE_ID
    ensures ParentVector(stack, size, parent)
  {
    parent := seq(|stack|, _ => UNIQUE_ID);
    var stored := HasAllStorages(stack);
    if !stored {
      return;
    }
    var firstAt: map<nat, nat> := map[];
    for i := 0 to |stack|
      invariant |parent| == |stack|
      invariant FirstEntries(stack, size, firstAt, i)
      invariant forall j :: 0 <= j < i ==> ParentAt(stack, size, parent, j)
    {
      ghost var before := parent;
      var p;
      p, firstAt := ParentOf(stack, size, firstAt, i);
      parent := parent[i := p];
      forall j | 0 <= j < i ensures ParentAt(stack, size, parent, j) {
        assert ParentAt(stack, size, before, j);
      }
    }
  }

  lemma FirstIsUnique(stack: seq<Item>, size: nat -> nat, p: nat, i: nat)
    requires FirstAt(stack, size, p, i)
    ensures forall q: nat :: FirstAt(stack, size, q, i) ==> q == p
  {
  }

  /** A parent is an earlier entry, and is itself unique. */
  lemma ParentsAreUnique(stack: seq<Item>, size: nat -> nat, parent: seq<nat>, i: nat)
    requires ParentVector(stack, size, parent) && i < |stack| < UNIQUE_ID && parent[i] != UNIQUE_ID
    ensures parent[i] < i && parent[parent[i]] == UNIQUE_ID && IsParent(stack, size, parent[i], i)
  {
    assert ParentAt(stack, size, parent, i);
    assert ParentAt(stack, size, parent, parent[i]);
  }

  // --- one address means one window ---

  /** Storages of one dtype each, which do not overlap in memory. */
  ghost predicate StoragesDisjoint(data: map<nat, seq<int>>, dtypes: map<nat, nat>, size: nat -> nat) {
    && data.Keys <= dtypes.Keys
    && forall a, b :: a in data && b in data && a < b ==> a + Bytes(data, dtypes, size, a) <= b
  }

  ghost function Bytes(data: map<nat, seq<int>>, dtypes: map<nat, nat>, size: nat -> nat, a: nat): nat
    requires a in data && a in dtypes
  {
    |data[a]| * size(dtypes[a])
  }

  ghost predicate Resident(t: TensorArg, data: map<nat, seq<int>>, dtypes: map<nat, nat>) {
    && t.storage in data && t.storage in dtypes && t.storage != 0 && t.dtype == dtypes[t.storage]
    && Fits(t.view, |data[t.storage]|)
  }

  lemma FirstElementInside(t: TensorArg, data: map<nat, seq<int>>, dtypes: map<nat, nat>, size: nat -> nat)
    requires Resident(t, data, dtypes) && Numel(t.view.sizes) > 0 && size(t.dtype) > 0
    ensures t.storage <= DataPtr(t, size) < t.storage + Bytes(data, dtypes, size, t.storage)
  {
    assert Pos(t.view, 0) < |data[t.storage]|;
    MulMono(t.view.offset + 1, |data[t.storage]|, size(t.dtype));
  }

  /** Two tensors with one address, shape and strides are the same window of the same storage. */
  lemma SameAddressSameView(a: TensorArg, b: TensorArg, data: map<nat, seq<int>>, dtypes: map<nat, nat>, size: nat -> nat)
    requires Resident(a, data, dtypes) && Resident(b, data, dtypes) && StoragesDisjoint(data, dtypes, size)
    requires size(a.dtype) > 0 && size(b.dtype) > 0
    requires DataPtr(a, size) == DataPtr(b, size) != 0
    requires a.view.sizes == b.view.sizes && a.view.strides == b.view.strides
    ensures a.storage == b.storage && a.view == b.view && a.dtype == b.dtype
  {
    FirstElementInside(a, data, dtypes, size);
    FirstElementInside(b, data, dtypes, size);
    assert a.storage == b.storage;
    MulCancel(a.view.offset, b.view.offset, size(a.dtype));
  }

  lemma MulCancel(x: nat, y: nat, n: nat)
    requires x * n == y * n && n > 0
    ensures x == y
  {
    if x < y { MulStrict(x, y, n); }
    if y < x { MulStrict(y, x, n); }
  }

  lemma MulStrict(x: nat, y: nat, n: nat)
    requires x < y && n > 0
    ensures x * n < y * n
  {
    MulMono(x + 1, y, n);
  }

  // --- erasing duplicates, back to front ---

  /** The entries that have no parent, in order. */
  function Survivors<T>(s: seq<T>, parent: seq<nat>): (r: seq<T>)
    requires |s| == |parent|
    decreases |s|
  {
    if s == [] then []
    else (if parent[0] == UNIQUE_ID then [s[0]] else []) + Survivors(s[1..], parent[1..])
  }

  /** prune_duplicate_stack_inputs, and the erasing half of prune_duplicate_graph_inputs. */
  method EraseDuplicates<T>(s: seq<T>, parent: seq<nat>) returns (r: seq<T>)
    requires |s| == |parent|
    ensures r == Survivors(s, parent)
  {
    r := s;
    var j := |parent|;
    assert Survivors(s[j..], parent[j..]) == [];
    while j > 0
      invariant 0 <= j <= |parent| && j <= |r|
      invariant r == s[..j] + Survivors(s[j..], parent[j..])
    {
      j := j - 1;
      assert s[j..][1..] == s[j + 1..] && parent[j..][1..] == parent[j + 1..];
      assert s[..j + 1] == s[..j] + [s[j]];
      if parent[j] != UNIQUE_ID {
        r := r[..j] + r[j + 1..];
      }
    }
    assert s[0..] == s && parent[0..] == parent;
  }

  // --- pruning the graph ---

  ghost predicate ParentsValid(parent: seq<nat>) {
    forall i :: 0 <= i < |parent| && parent[i] != UNIQUE_ID ==> parent[i] < i && parent[parent[i]] == UNIQUE_ID
  }

  /** The forward loop of prune_duplicate_graph_inputs: each duplicate's uses move to its parent. */
  function MergeUpTo(g: Graph, parent: seq<nat>, n: nat): (r: Graph)
    requires n <= |parent| == |g.inputs| && ParentsValid(parent)
    ensures r.inputs == g.inputs && r.next == g.next
  {
    if n == 0 then g
    else
      var h := MergeUpTo(g, parent, n - 1);
      if parent[n - 1] == UNIQUE_ID then h
      else
        var d, v := g.inputs[n - 1], g.inputs[parent[n - 1]];
        h.(nodes := RenameNodes(h.nodes, d, v), outputs := RenameIds(h.outputs, d, v))
  }

  function PrunedGraph(g: Graph, parent: seq<nat>): Graph
    requires |parent| == |g.inputs| && ParentsValid(parent)
  {
    MergeUpTo(g, parent, |parent|).(inputs := Survivors(g.inputs, parent))
  }

  /** prune_duplicate_graph_inputs. */
  method PruneDuplicateGraphInputs(g: Graph, parent: seq<nat>) returns (r: Graph)
    requires |parent| == |g.inputs| && ParentsValid(parent)
    ensures r == PrunedGraph(g, parent)
  {
    r := g;
    for i := 0 to |parent|
      invariant r == MergeUpTo(g, parent, i)
    {
      if parent[i] != UNIQUE_ID {
        var d, v := g.inputs[i], g.inputs[parent[i]];
        r := r.(nodes := RenameNodes(r.nodes, d, v), outputs := RenameIds(r.outputs, d, v));
      }
    }
    var kept := EraseDuplicates(r.inputs, parent);
    r := r.(inputs := kept);
  }

  function BindInputs(ids: seq<Id>, vals: seq<Value>): Env {
    Bind(map[], ids, vals)
  }

  lemma RenameWellFormed(g: Graph, d: Id, v: Id)
    requires WellFormed(g) && v in g.inputs
    ensures WellFormed(g.(nodes := RenameNodes(g.nodes, d, v), outputs := RenameIds(g.outputs, d, v)))
  {
    var r := RenameNodes(g.nodes, d, v);
    forall i | 0 <= i < |r| ensures NodeBelow(r[i], g.next) && r[i].outputs == g.nodes[i].outputs && r[i].id == g.nodes[i].id {
      assert NodeBelow(g.nodes[i], g.next);
    }
  }

  /** Moving uses between inputs that hold the same value changes nothing. */
  lemma {:induction false} MergeKeepsMeaning(sem: Sem, g: Graph, parent: seq<nat>, n: nat, env: Env)
    requires WellFormed(g) && n <= |parent| == |g.inputs| && ParentsValid(parent) && Distinct(g.inputs)
    requires forall i :: 0 <= i < n && parent[i] != UNIQUE_ID ==> Lookup(env, g.inputs[i]) == Lookup(env, g.inputs[parent[i]])
    ensures WellFormed(MergeUpTo(g, parent, n))
    ensures Run(sem, MergeUpTo(g, parent, n), env) == Run(sem, g, env)
  {
    if n > 0 {
      MergeKeepsMeaning(sem, g, parent, n - 1, env);
      if parent[n - 1] != UNIQUE_ID {
        var h, d, v := MergeUpTo(g, parent, n - 1), g.inputs[n - 1], g.inputs[parent[n - 1]];
        RenameWellFormed(h, d, v);
        MergeMeaning(sem, h, d, v, env);
      }
    }
  }

  ghost predicate Unused(g: Graph, x: Id) {
    NeverUses(g.nodes, x) && x !in g.outputs
  }

  /** After the forward loop no duplicate is read any more. */
  lemma {:induction false} MergedUnused(g: Graph, parent: seq<nat>, n: nat, i: nat)
    requires i < n <= |parent| == |g.inputs| && ParentsValid(parent) && Distinct(g.inputs) && parent[i] != UNIQUE_ID
    ensures Unused(MergeUpTo(g, parent, n), g.inputs[i])
  {
    var x := g.inputs[i];
    var h := MergeUpTo(g, parent, n - 1);
    if i < n - 1 { MergedUnused(g, parent, n - 1, i); }
    if parent[n - 1] != UNIQUE_ID {
      var d, v := g.inputs[n - 1], g.inputs[parent[n - 1]];
      assert v != x;
      UnusedAfterRename(h, d, v, x);
    }
  }

  lemma UnusedAfterRename(h: Graph, d: Id, v: Id, x: Id)
    requires v != x && (x == d || Unused(h, x))
    ensures Unused(h.(nodes := RenameNodes(h.nodes, d, v), outputs := RenameIds(h.outputs, d, v)), x)
  {
    var r := RenameNodes(h.nodes, d, v);
    forall i, k | 0 <= i < |r| && 0 <= k < |r[i].inputs| ensures r[i].inputs[k] != x {
      if x != d { assert h.nodes[i].inputs[k] != x; }
    }
  }

  lemma {:induction false} EvalIgnoresAll(sem: Sem, nodes: seq<Node>, e1: Env, e2: Env, skip: set<Id>)
    requires forall x: Id :: x !in skip ==> Lookup(e1, x) == Lookup(e2, x)
    requires forall x :: x in skip ==> NeverUses(nodes, x)
    ensures forall x: Id :: x !in skip ==> Lookup(Eval(sem, nodes, e1), x) == Lookup(Eval(sem, nodes, e2), x)
    decreases |nodes|
  {
    if nodes != [] {
      var d := nodes[0];
      forall x | x in skip ensures x !in d.inputs { assert NeverUses(nodes, x); }
      assert Args(e1, d.inputs) == Args(e2, d.inputs);
      forall x | x in skip ensures NeverUses(nodes[1..], x) { assert NeverUses(nodes, x); }
      EvalIgnoresAll(sem, nodes[1..], Step(sem, d, e1), Step(sem, d, e2), skip);
    }
  }

  lemma {:induction false} SurvivorValue(ids: seq<Id>, vals: seq<Value>, parent: seq<nat>, i: nat)
    requires |ids| == |vals| == |parent| && Distinct(ids) && i < |ids|
    ensures |Survivors(ids, parent)| == |Survivors(vals, parent)|
    ensures forall x :: x in Survivors(ids, parent) ==> x in ids
    ensures parent[i] != UNIQUE_ID ==> ids[i] !in Survivors(ids, parent)
    ensures parent[i] == UNIQUE_ID ==>
              ids[i] in Survivors(ids, parent)
              && Survivors(vals, parent)[IndexOf(Survivors(ids, parent), ids[i])] == vals[i]
    decreases |ids|
  {
    if |ids| > 1 {
      SurvivorValue(ids[1..], vals[1..], parent[1..], if i == 0 then 0 else i - 1);
    }
    var keptIds, keptVals := Survivors(ids[1..], parent[1..]), Survivors(vals[1..], parent[1..]);
    if parent[0] == UNIQUE_ID {
      assert Survivors(ids, parent)[1..] == keptIds && Survivors(vals, parent)[1..] == keptVals;
      assert i > 0 ==> ids[0] != ids[i];
    } else {
      assert Survivors(ids, parent) == keptIds && Survivors(vals, parent) == keptVals;
    }
  }

  /** Pruning preserves meaning: the pruned graph on the pruned stack computes what the
      original graph computes on the original stack, when duplicates carry their parents' values. */
  lemma PruningPreservesMeaning(sem: Sem, g: Graph, parent: seq<nat>, vals: seq<Value>)
    requires WellFormed(g) && |vals| == |parent| == |g.inputs| && ParentsValid(parent) && Distinct(g.inputs)
    requires forall i :: 0 <= i < |parent| && parent[i] != UNIQUE_ID ==> vals[i] == vals[parent[i]]
    ensures Run(sem, PrunedGraph(g, parent), BindInputs(Survivors(g.inputs, parent), Survivors(vals, parent)))
            == Run(sem, g, BindInputs(g.inputs, vals))
  {
    var ids := g.inputs;
    var full := BindInputs(ids, vals);
    forall i | 0 <= i < |parent| ensures Lookup(full, ids[i]) == vals[i] { IndexOfDistinct(ids, i); }
    MergeKeepsMeaning(sem, g, parent, |parent|, full);
    ErasedInputsUnread(sem, g, parent, vals);
  }

  lemma ErasedInputsUnread(sem: Sem, g: Graph, parent: seq<nat>, vals: seq<Value>)
    requires |vals| == |parent| == |g.inputs| && ParentsValid(parent) && Distinct(g.inputs)
    ensures Run(sem, PrunedGraph(g, parent), BindInputs(Survivors(g.inputs, parent), Survivors(vals, parent)))
            == Run(sem, MergeUpTo(g, parent, |parent|), BindInputs(g.inputs, vals))
  {
    var ids, h := g.inputs, MergeUpTo(g, parent, |parent|);
    var full, kept := BindInputs(ids, vals), BindInputs(Survivors(ids, parent), Survivors(vals, parent));
    var skip := set i | 0 <= i < |parent| && parent[i] != UNIQUE_ID :: ids[i];
    forall x | x in skip ensures Unused(h, x) {
      var i :| 0 <= i < |parent| && parent[i] != UNIQUE_ID && ids[i] == x;
      MergedUnused(g, parent, |parent|, i);
    }
    forall x: Id | x !in skip ensures Lookup(kept, x) == Lookup(full, x) { KeptLookup(ids, vals, parent, x); }
    EvalIgnoresAll(sem, h.nodes, kept, full, skip);
    RunsAgree(sem, h, kept, full, skip);
  }

  lemma RunsAgree(sem: Sem, h: Graph, e1: Env, e2: Env, skip: set<Id>)
    requires forall x :: x in skip ==> x !in h.outputs
    requires forall x: Id :: x !in skip ==> Lookup(Eval(sem, h.nodes, e1), x) == Lookup(Eval(sem, h.nodes, e2), x)
    ensures Run(sem, h, e1) == Run(sem, h, e2)
  {
  }

  lemma KeptLookup(ids: seq<Id>, vals: seq<Value>, parent: seq<nat>, x: Id)
    requires |ids| == |vals| == |parent| && Distinct(ids)
    requires forall i :: 0 <= i < |ids| && parent[i] != UNIQUE_ID ==> ids[i] != x
    ensures Lookup(BindInputs(Survivors(ids, parent), Survivors(vals, parent)), x) == Lookup(BindInputs(ids, vals), x)
  {
    if x in ids {
      var i := IndexOf(ids, x);
      SurvivorValue(ids, vals, parent, i);
    } else if ids != [] {
      SurvivorValue(ids, vals, parent, 0);
    }
  }

  lemma {:induction false} IndexOfDistinct(ids: seq<Id>, i: nat)
    requires Distinct(ids) && i < |ids|
    ensures ids[i] in ids && IndexOf(ids, ids[i]) == i
  {
    if i > 0 {
      assert ids[0] != ids[i];
      IndexOfDistinct(ids[1..], i - 1);
    }
  }
}
