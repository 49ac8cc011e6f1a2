/**
 The JIT IR as a list of SSA nodes, a denotation for it over arbitrary operator
 semantics, and what the two list edits of the eager passes do to the denotation:
 redirecting the uses of a value behind an inserted block, and merging inputs.
 */
module JitGraph {
  import opened IndexSpace
  import opened StridedViews

  /** Value names and node names come from one counter. */
  type Id = nat

  datatype IValue =
    | None
    | Bool(b: bool)
    | Int(i: int)
    | Str(s: string)
    | IntList(ints: seq<int>)
    | BoolList(bools: seq<bool>)

  datatype Kind =
    | Constant(c: IValue)
    | ListConstruct
    | AsStrided(meta: bool)
    | StridedInsert
    | ToCopy
    | Aten(name: string)

  datatype Node = Node(id: Id, kind: Kind, inputs: seq<Id>, outputs: seq<Id>)

  datatype Graph = Graph(inputs: seq<Id>, nodes: seq<Node>, outputs: seq<Id>, next: Id)

  // --- denotation ---

  datatype Value =
    | Absent
    | Const(c: IValue)
    | Tensor(dtype: nat, sizes: seq<nat>, data: seq<int>)
    | List(items: seq<Value>)

  /** How nodes compute. Operators and casts stay uninterpreted; MakeSem gives the two strided nodes. */
  datatype Sem = Sem(
    op: (string, seq<Value>) -> seq<Value>,
    cast: (nat, Value) -> Value,
    view: (bool, Value, Value, Value, Value) -> Value,
    insert: (Value, Value, Value, Value) -> Value)

  type Env = map<Id, Value>

  function Lookup(env: Env, id: Id): Value {
    if id in env then env[id] else Absent
  }

  function Args(env: Env, ids: seq<Id>): (r: seq<Value>)
    ensures |r| == |ids| && forall i :: 0 <= i < |ids| ==> r[i] == Lookup(env, ids[i])
  {
    seq(|ids|, i requires 0 <= i < |ids| => Lookup(env, ids[i]))
  }

  predicate AllNat(s: seq<int>) { forall i :: 0 <= i < |s| ==> s[i] >= 0 }

  /** A tensor nobody has written: it has a dtype and sizes, and any elements. */
  function Unwritten(junk: (nat, seq<nat>, nat) -> int, dtype: nat, sizes: seq<nat>): (r: Value)
    ensures r.Tensor? && r.dtype == dtype && r.sizes == sizes && |r.data| == Numel(sizes)
  {
    Tensor(dtype, sizes, seq(Numel(sizes), i requires 0 <= i < Numel(sizes) => junk(dtype, sizes, i)))
  }

  /** aten::as_strided on a base buffer; a view marked as metadata-only is a tensor nobody has written. */
  ghost function ViewOf(junk: (nat, seq<nat>, nat) -> int, meta: bool,
                        base: Value, sizes: Value, strides: Value, offset: Value): Value {
    match (base, sizes, strides, offset)
    case (Tensor(d, _, data), Const(IntList(sz)), Const(IntList(st)), Const(Int(off))) =>
      if AllNat(sz) && AllNat(st) && off >= 0 && Fits(View(sz, st, off), |data|) then
        if meta then Unwritten(junk, d, sz) else Tensor(d, sz, ReadView(data, View(sz, st, off)))
      else Absent
    case _ => Absent
  }

  /** hpu::strided_insert: the view has the sizes of the inserted tensor. */
  ghost function InsertOf(base: Value, src: Value, strides: Value, offset: Value): Value {
    match (base, src, strides, offset)
    case (Tensor(d, baseSizes, data), Tensor(_, sz, items), Const(IntList(st)), Const(Int(off))) =>
      if AllNat(st) && off >= 0 && |items| == Numel(sz) && Fits(View(sz, st, off), |data|) then
        Tensor(d, baseSizes, InsertView(data, View(sz, st, off), items))
      else Absent
    case _ => Absent
  }

  /** The uninterpreted part of a device: operators, casts, and what an unwritten view holds. */
  datatype Kernels = Kernels(
    op: (string, seq<Value>) -> seq<Value>,
    cast: (nat, Value) -> Value,
    junk: (nat, seq<nat>, nat) -> int)

  ghost function MakeSem(k: Kernels): Sem {
    var junk := k.junk;
    Sem(k.op, k.cast,
        (meta: bool, base: Value, sizes: Value, strides: Value, offset: Value) => ViewOf(junk, meta, base, sizes, strides, offset),
        (base: Value, src: Value, strides: Value, offset: Value) => InsertOf(base, src, strides, offset))
  }

  ghost function CastOf(sem: Sem, a: seq<Value>): Value {
    if |a| >= 2 && a[1].Const? && a[1].c.Int? && a[1].c.i >= 0 then sem.cast(a[1].c.i, a[0]) else Absent
  }

  ghost function EvalNode(sem: Sem, kind: Kind, a: seq<Value>): seq<Value> {
    match kind
    case Constant(c) => [Const(c)]
    case ListConstruct => [List(a)]
    case AsStrided(meta) => [if |a| == 4 then sem.view(meta, a[0], a[1], a[2], a[3]) else Absent]
    case StridedInsert => [if |a| == 4 then sem.insert(a[0], a[1], a[2], a[3]) else Absent]
    case ToCopy => [CastOf(sem, a)]
    case Aten(name) => sem.op(name, a)
  }

  function IndexOf(s: seq<Id>, x: Id): (i: nat)
    requires x in s
    ensures i < |s| && s[i] == x
  {
    if s[0] == x then 0 else 1 + IndexOf(s[1..], x)
  }

  /** The value an operator result list gives to one of its output names. */
  function Output(outs: seq<Id>, vals: seq<Value>, id: Id): Value
    requires id in outs
  {
    if IndexOf(outs, id) < |vals| then vals[IndexOf(outs, id)] else Absent
  }

  function Bind(env: Env, outs: seq<Id>, vals: seq<Value>): (r: Env)
    ensures forall x: Id :: Lookup(r, x) == if x in outs then Output(outs, vals, x) else Lookup(env, x)
  {
    env + (map id | id in outs :: Output(outs, vals, id))
  }

  ghost function Step(sem: Sem, n: Node, env: Env): Env {
    Bind(env, n.outputs, EvalNode(sem, n.kind, Args(env, n.inputs)))
  }

  ghost function Eval(sem: Sem, nodes: seq<Node>, env: Env): Env
    decreases |nodes|
  {
    if nodes == [] then env else Eval(sem, nodes[1..], Step(sem, nodes[0], env))
  }

  /** The values of the graph outputs when the inputs are as in env. */
  ghost function Run(sem: Sem, g: Graph, env: Env): seq<Value> {
    Args(Eval(sem, g.nodes, env), g.outputs)
  }

  // --- edits ---

  function RenameIds(s: seq<Id>, v: Id, w: Id): (r: seq<Id>)
    ensures |r| == |s| && forall i :: 0 <= i < |s| ==> r[i] == if s[i] == v then w else s[i]
  {
    seq(|s|, i requires 0 <= i < |s| => if s[i] == v then w else s[i])
  }

  function RenameNodes(nodes: seq<Node>, v: Id, w: Id): (r: seq<Node>)
    ensures |r| == |nodes|
    ensures forall i :: 0 <= i < |nodes| ==> r[i] == nodes[i].(inputs := RenameIds(nodes[i].inputs, v, w))
  {
    seq(|nodes|, i requires 0 <= i < |nodes| => nodes[i].(inputs := RenameIds(nodes[i].inputs, v, w)))
  }

  /** Insert a block before position p and let every later use of v, the graph
      outputs included, read w instead (replaceAllUsesAfterNodeWith). */
  function Redirect(g: Graph, p: nat, block: seq<Node>, v: Id, w: Id, next: Id): Graph
    requires p <= |g.nodes|
  {
    Graph(g.inputs, g.nodes[..p] + block + RenameNodes(g.nodes[p..], v, w), RenameIds(g.outputs, v, w), next)
  }

  ghost predicate HasNode(nodes: seq<Node>, id: Id) { exists i :: 0 <= i < |nodes| && nodes[i].id == id }

  ghost function NodeIndex(nodes: seq<Node>, id: Id): (i: nat)
    requires HasNode(nodes, id)
    ensures i < |nodes| && nodes[i].id == id
  {
    var i :| 0 <= i < |nodes| && nodes[i].id == id; i
  }

  ghost function NodeAt(g: Graph, id: Id): (n: Node)
    requires HasNode(g.nodes, id)
    ensures n in g.nodes && n.id == id
  {
    g.nodes[NodeIndex(g.nodes, id)]
  }

  // --- well-formed lists ---

  ghost predicate AllBelow(s: seq<Id>, n: Id) { forall i :: 0 <= i < |s| ==> s[i] < n }

  ghost predicate NodeBelow(n: Node, next: Id) {
    n.id < next && AllBelow(n.inputs, next) && AllBelow(n.outputs, next)
  }

  ghost predicate Distinct(s: seq<Id>) { forall i, j :: 0 <= i < j < |s| ==> s[i] != s[j] }

  /** Names are below the counter, inputs are never redefined, nodes have distinct names. */
  ghost predicate WellFormed(g: Graph) {
    && AllBelow(g.inputs, g.next)
    && AllBelow(g.outputs, g.next)
    && (forall i :: 0 <= i < |g.nodes| ==> NodeBelow(g.nodes[i], g.next))
    && (forall i, x :: 0 <= i < |g.nodes| && x in g.nodes[i].outputs ==> x !in g.inputs)
    && (forall i, j :: 0 <= i < j < |g.nodes| ==> g.nodes[i].id != g.nodes[j].id)
  }

  ghost predicate NeverDefines(nodes: seq<Node>, v: Id) {
    forall i :: 0 <= i < |nodes| ==> v !in nodes[i].outputs
  }

  ghost predicate NeverUses(nodes: seq<Node>, v: Id) {
    forall i :: 0 <= i < |nodes| ==> v !in nodes[i].inputs
  }

  // --- evaluation lemmas ---

  lemma {:induction false} EvalConcat(sem: Sem, a: seq<Node>, b: seq<Node>, env: Env)
    ensures Eval(sem, a + b, env) == Eval(sem, b, Eval(sem, a, env))
    decreases |a|
  {
    if a == [] {
      assert a + b == b;
    } else {
      assert (a + b)[1..] == a[1..] + b;
      EvalConcat(sem, a[1..], b, Step(sem, a[0], env));
    }
  }

  lemma {:induction false} EvalKeeps(sem: Sem, nodes: seq<Node>, env: Env, v: Id)
    requires NeverDefines(nodes, v)
    ensures Lookup(Eval(sem, nodes, env), v) == Lookup(env, v)
    decreases |nodes|
  {
    if nodes != [] {
      assert v !in nodes[0].outputs;
      EvalKeeps(sem, nodes[1..], Step(sem, nodes[0], env), v);
    }
  }

  ghost predicate AgreeOff(e1: Env, e2: Env, v: Id) {
    forall x: Id :: x != v ==> Lookup(e1, x) == Lookup(e2, x)
  }

  /** Nodes that never mention v compute the same whatever v holds. */
  lemma {:induction false} EvalIgnores(sem: Sem, nodes: seq<Node>, e1: Env, e2: Env, v: Id)
    requires AgreeOff(e1, e2, v) && NeverUses(nodes, v)
    ensures AgreeOff(Eval(sem, nodes, e1), Eval(sem, nodes, e2), v)
    decreases |nodes|
  {
    if nodes != [] {
      var n := nodes[0];
      assert v !in n.inputs;
      assert Args(e1, n.inputs) == Args(e2, n.inputs);
      EvalIgnores(sem, nodes[1..], Step(sem, n, e1), Step(sem, n, e2), v);
    }
  }

  /** e2 carries under w what e1 carries under v, and they agree on the other old names. */
  ghost predicate Tracks(e1: Env, e2: Env, v: Id, w: Id, bound: Id) {
    Lookup(e2, w) == Lookup(e1, v) && forall x: Id :: x < bound && x != v ==> Lookup(e1, x) == Lookup(e2, x)
  }

  lemma {:induction false} EvalTracks(sem: Sem, nodes: seq<Node>, e1: Env, e2: Env, v: Id, w: Id, bound: Id)
    requires Tracks(e1, e2, v, w, bound) && v != w
    requires forall i :: 0 <= i < |nodes| ==> AllBelow(nodes[i].inputs, bound)
    requires NeverDefines(nodes, v) && NeverDefines(nodes, w)
    ensures Tracks(Eval(sem, nodes, e1), Eval(sem, RenameNodes(nodes, v, w), e2), v, w, bound)
    decreases |nodes|
  {
    if nodes != [] {
      var n := nodes[0];
      var renamed := RenameNodes(nodes, v, w);
      assert v !in n.outputs && w !in n.outputs && AllBelow(n.inputs, bound);
      assert Args(e1, n.inputs) == Args(e2, renamed[0].inputs);
      assert renamed[1..] == RenameNodes(nodes[1..], v, w);
      EvalTracks(sem, nodes[1..], Step(sem, n, e1), Step(sem, renamed[0], e2), v, w, bound);
    }
  }

  /** What a redirect denotes: the original graph with v replaced, from position p on,
      by the value the inserted block computes under w. */
  lemma RedirectMeaning(sem: Sem, g: Graph, p: nat, block: seq<Node>, v: Id, w: Id, next: Id, env: Env, x: Value)
    requires WellFormed(g) && p <= |g.nodes| && v < g.next <= w
    requires NeverDefines(g.nodes[p..], v)
    requires forall y: Id :: y < g.next ==> NeverDefines(block, y)
    requires Lookup(Eval(sem, block, Eval(sem, g.nodes[..p], env)), w) == x
    ensures Run(sem, Redirect(g, p, block, v, w, next), env)
            == Args(Eval(sem, g.nodes[p..], Eval(sem, g.nodes[..p], env)[v := x]), g.outputs)
  {
    var a, b := g.nodes[..p], g.nodes[p..];
    var e1 := Eval(sem, a, env);
    var e2 := Eval(sem, block, e1);
    var e3 := e1[v := x];
    forall y: Id | y < g.next ensures Lookup(e2, y) == Lookup(e1, y) {
      EvalKeeps(sem, block, e1, y);
    }
    assert Tracks(e3, e2, v, w, g.next);
    forall i | 0 <= i < |b| ensures AllBelow(b[i].inputs, g.next) && w !in b[i].outputs {
      assert b[i] == g.nodes[p + i];
      assert NodeBelow(g.nodes[p + i], g.next);
    }
    EvalTracks(sem, b, e3, e2, v, w, g.next);
    EvalConcat(sem, a + block, RenameNodes(b, v, w), env);
    EvalConcat(sem, a, block, env);
  }

  /** The same, when v is a graph input that nothing before p reads. */
  lemma RedirectInputMeaning(sem: Sem, g: Graph, p: nat, block: seq<Node>, v: Id, w: Id, next: Id, env: Env, x: Value)
    requires WellFormed(g) && p <= |g.nodes| && g.next <= w
    requires v in g.inputs && NeverUses(g.nodes[..p], v)
    requires forall y: Id :: y < g.next ==> NeverDefines(block, y)
    requires Lookup(Eval(sem, block, Eval(sem, g.nodes[..p], env)), w) == x
    ensures Run(sem, Redirect(g, p, block, v, w, next), env) == Run(sem, g, env[v := x])
  {
    InputNeverDefined(g, p, v);
    RedirectMeaning(sem, g, p, block, v, w, next, env, x);
    OverrideEarly(sem, g.nodes[..p], g.nodes[p..], v, env, x);
    assert g.nodes[..p] + g.nodes[p..] == g.nodes;
  }

  lemma InputNeverDefined(g: Graph, p: nat, v: Id)
    requires WellFormed(g) && p <= |g.nodes| && v in g.inputs
    ensures NeverDefines(g.nodes[..p], v) && NeverDefines(g.nodes[p..], v) && v < g.next
  {
  }

  lemma OverrideEarly(sem: Sem, a: seq<Node>, b: seq<Node>, v: Id, env: Env, x: Value)
    requires NeverUses(a, v) && NeverDefines(a, v)
    ensures SameEnv(Eval(sem, b, Eval(sem, a, env)[v := x]), Eval(sem, a + b, env[v := x]))
  {
    EvalIgnores(sem, a, env, env[v := x], v);
    EvalKeeps(sem, a, env[v := x], v);
    SameLookups(sem, b, Eval(sem, a, env)[v := x], Eval(sem, a, env[v := x]));
    EvalConcat(sem, a, b, env[v := x]);
  }

  ghost predicate SameEnv(e1: Env, e2: Env) { forall x: Id :: Lookup(e1, x) == Lookup(e2, x) }

  /** Evaluation depends on an environment only through its lookups. */
  lemma {:induction false} SameLookups(sem: Sem, nodes: seq<Node>, e1: Env, e2: Env)
    requires SameEnv(e1, e2)
    ensures SameEnv(Eval(sem, nodes, e1), Eval(sem, nodes, e2))
    decreases |nodes|
  {
    if nodes != [] {
      assert Args(e1, nodes[0].inputs) == Args(e2, nodes[0].inputs);
      SameLookups(sem, nodes[1..], Step(sem, nodes[0], e1), Step(sem, nodes[0], e2));
    }
  }

  /** Merging input d into input v: replaceAllUsesWith on the whole graph. */
  lemma MergeMeaning(sem: Sem, g: Graph, d: Id, v: Id, env: Env)
    requires WellFormed(g) && d in g.inputs && v in g.inputs && d != v
    requires Lookup(env, d) == Lookup(env, v)
    ensures Args(Eval(sem, RenameNodes(g.nodes, d, v), env), RenameIds(g.outputs, d, v)) == Run(sem, g, env)
  {
    forall i | 0 <= i < |g.nodes|
      ensures d !in g.nodes[i].outputs && v !in g.nodes[i].outputs && AllBelow(g.nodes[i].inputs, g.next)
    {
      assert NodeBelow(g.nodes[i], g.next);
    }
    EvalTracks(sem, g.nodes, env, env, d, v, g.next);
  }

  // --- what a redirect keeps ---

  /** Only the node named c reads v. */
  ghost predicate OnlyUsedBy(nodes: seq<Node>, v: Id, c: Id) {
    forall i :: 0 <= i < |nodes| && v in nodes[i].inputs ==> nodes[i].id == c
  }

  /** A block whose names are all new, in the range [from, next). */
  ghost predicate FreshBlock(block: seq<Node>, from: Id, next: Id) {
    && from <= next
    && (forall i :: 0 <= i < |block| ==> NodeBelow(block[i], next) && from <= block[i].id)
    && (forall i, x :: 0 <= i < |block| && x in block[i].outputs ==> from <= x)
    && (forall i, j :: 0 <= i < j < |block| ==> block[i].id != block[j].id)
  }

  lemma UniqueIndex(g: Graph, i: nat)
    requires WellFormed(g) && i < |g.nodes|
    ensures HasNode(g.nodes, g.nodes[i].id) && NodeIndex(g.nodes, g.nodes[i].id) == i
    ensures NodeAt(g, g.nodes[i].id) == g.nodes[i]
  {
  }

  lemma RedirectWellFormed(g: Graph, p: nat, block: seq<Node>, v: Id, w: Id, next: Id)
    requires WellFormed(g) && p <= |g.nodes|
    requires FreshBlock(block, g.next, next) && g.next <= w < next
    ensures WellFormed(Redirect(g, p, block, v, w, next))
  {
    var r := Redirect(g, p, block, v, w, next);
    var n := |block|;
    forall i | 0 <= i < |r.nodes|
      ensures NodeBelow(r.nodes[i], next) && (forall x :: x in r.nodes[i].outputs ==> x !in g.inputs)
      ensures r.nodes[i].id == if i < p then g.nodes[i].id else if i < p + n then block[i - p].id else g.nodes[i - n].id
    {
      if i < p {
        assert r.nodes[i] == g.nodes[i] && NodeBelow(g.nodes[i], g.next);
      } else if i < p + n {
        assert r.nodes[i] == block[i - p] && NodeBelow(block[i - p], next);
      } else {
        assert r.nodes[i].outputs == g.nodes[i - n].outputs && NodeBelow(g.nodes[i - n], g.next);
      }
    }
    forall i, j | 0 <= i < j < |r.nodes| ensures r.nodes[i].id != r.nodes[j].id {
      if i < p && p <= j < p + n { assert NodeBelow(g.nodes[i], g.next); }
      if p <= i < p + n && p + n <= j { assert NodeBelow(g.nodes[j - n], g.next); }
    }
  }

  /** Every old node is still there, with the same kind and outputs; an input changes only if it was v. */
  lemma RedirectKeepsNode(g: Graph, p: nat, block: seq<Node>, v: Id, w: Id, next: Id, id: Id)
    requires WellFormed(g) && p <= |g.nodes| && HasNode(g.nodes, id)
    requires FreshBlock(block, g.next, next) && g.next <= w < next
    ensures var r := Redirect(g, p, block, v, w, next);
            && HasNode(r.nodes, id)
            && NodeAt(r, id).kind == NodeAt(g, id).kind
            && NodeAt(r, id).outputs == NodeAt(g, id).outputs
            && |NodeAt(r, id).inputs| == |NodeAt(g, id).inputs|
            && (forall i :: 0 <= i < |NodeAt(g, id).inputs| && NodeAt(g, id).inputs[i] != v ==>
                  NodeAt(r, id).inputs[i] == NodeAt(g, id).inputs[i])
  {
    var r := Redirect(g, p, block, v, w, next);
    RedirectWellFormed(g, p, block, v, w, next);
    var i := NodeIndex(g.nodes, id);
    var j := if i < p then i else i + |block|;
    assert r.nodes[j].id == id;
    UniqueIndex(r, j);
  }

  lemma RedirectKeepsReader(g: Graph, p: nat, block: seq<Node>, v: Id, w: Id, next: Id, u: Id, c: Id)
    requires WellFormed(g) && p <= |g.nodes| && OnlyUsedBy(g.nodes, u, c)
    requires u != w && NeverUses(block, u)
    ensures OnlyUsedBy(Redirect(g, p, block, v, w, next).nodes, u, c)
  {
    var r := Redirect(g, p, block, v, w, next);
    assert forall i :: p <= i < p + |block| ==> r.nodes[i] == block[i - p];
    forall i | 0 <= i < |r.nodes| && u in r.nodes[i].inputs ensures r.nodes[i].id == c {
      if i < p {
        assert r.nodes[i] == g.nodes[i];
      } else if i >= p + |block| {
        var before := g.nodes[i - |block|];
        var k :| 0 <= k < |r.nodes[i].inputs| && r.nodes[i].inputs[k] == u;
        assert before.inputs[k] == u;
      }
    }
  }
}
