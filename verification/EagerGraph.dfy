/**
 create_eager_graph: the one-op graph of an eager call, with its constants, list nodes
 and inputs numbered in argument order, and the denotation it starts with.
 */
module EagerGraph {
  import opened JitGraph
  import opened ViewLowering

  datatype Arg = Meta(c: IValue) | Scalar(c: IValue) | One(t: TensorArg) | Many(ts: seq<TensorArg>)

  function Width(a: Arg): nat {
    if a.Many? then |a.ts| + 1 else 1
  }

  function TotalWidth(args: seq<Arg>): nat {
    if args == [] then 0 else Width(args[0]) + TotalWidth(args[1..])
  }

  function Range(n: Id, count: nat): (r: seq<Id>)
    ensures |r| == count && forall i :: 0 <= i < count ==> r[i] == n + i
  {
    seq(count, i requires 0 <= i < count => n + i)
  }

  /** The graph inputs an argument adds. */
  function ArgInputs(a: Arg, n: Id): seq<Id> {
    match a
    case Meta(_) => []
    case Many(ts) => Range(n, |ts|)
    case _ => [n]
  }

  /** The node an argument adds: a constant, or the list of its tensors. */
  function ArgNodes(a: Arg, n: Id): seq<Node> {
    match a
    case Meta(c) => [Node(n, Constant(c), [], [n])]
    case Many(ts) => [Node(n + |ts|, ListConstruct, Range(n, |ts|), [n + |ts|])]
    case _ => []
  }

  /** The value the op node reads for an argument. */
  function ArgId(a: Arg, n: Id): Id {
    if a.Many? then n + |a.ts| else n
  }

  function ArgSlots(a: Arg, idx: nat, n: Id, opId: Id): seq<Slot> {
    match a
    case One(t) => [Slot(t, opId, idx, idx, n)]
    case Many(ts) => seq(|ts|, j requires 0 <= j < |ts| => Slot(ts[j], n + |ts|, j, idx, n + j))
    case _ => []
  }

  function Inputs(args: seq<Arg>, n: Id): seq<Id>
    decreases |args|
  {
    if args == [] then [] else ArgInputs(args[0], n) + Inputs(args[1..], n + Width(args[0]))
  }

  function Nodes(args: seq<Arg>, n: Id): seq<Node>
    decreases |args|
  {
    if args == [] then [] else ArgNodes(args[0], n) + Nodes(args[1..], n + Width(args[0]))
  }

  function NodeInputs(args: seq<Arg>, n: Id): (r: seq<Id>)
    ensures |r| == |args|
    decreases |args|
  {
    if args == [] then [] else [ArgId(args[0], n)] + NodeInputs(args[1..], n + Width(args[0]))
  }

  function Slots(args: seq<Arg>, idx: nat, n: Id, opId: Id): seq<Slot>
    decreases |args|
  {
    if args == [] then [] else ArgSlots(args[0], idx, n, opId) + Slots(args[1..], idx + 1, n + Width(args[0]), opId)
  }

  lemma SlotsOfCons(args: seq<Arg>, rest: seq<Arg>, idx: nat, n: Id, m: Id, opId: Id)
    requires args != [] && rest == args[1..] && m == n + Width(args[0])
    ensures Slots(args, idx, n, opId) == ArgSlots(args[0], idx, n, opId) + Slots(rest, idx + 1, m, opId)
  {
  }

  lemma SlotLater(all: seq<Slot>, first: seq<Slot>, later: seq<Slot>, i: nat, j: nat)
    requires all == first + later && i == |first| + j && i < |all|
    ensures j < |later| && all[i] == later[j]
  {
  }

  function OpNode(symbol: string, args: seq<Arg>, m: nat): Node {
    Node(TotalWidth(args), Aten(symbol), NodeInputs(args, 0), Range(TotalWidth(args) + 1, m))
  }

  function Created(symbol: string, args: seq<Arg>, m: nat): Graph {
    var n := TotalWidth(args);
    Graph(Inputs(args, 0), Nodes(args, 0) + [OpNode(symbol, args, m)], Range(n + 1, m), n + 1 + m)
  }

  // --- the numbering ---

  ghost predicate Between(x: Id, lo: Id, hi: Id) { lo <= x < hi }

  /** A prologue node of the block [lo, hi): defines its own name, reads only names of its block. */
  ghost predicate PrologueNode(d: Node, lo: Id, hi: Id) {
    && Between(d.id, lo, hi) && d.outputs == [d.id] && !d.kind.Aten?
    && forall k :: 0 <= k < |d.inputs| ==> Between(d.inputs[k], lo, d.id)
  }

  lemma {:induction false} Numbering(args: seq<Arg>, n: Id)
    ensures forall i :: 0 <= i < |Nodes(args, n)| ==> PrologueNode(Nodes(args, n)[i], n, n + TotalWidth(args))
    ensures forall i, j :: 0 <= i < j < |Nodes(args, n)| ==> Nodes(args, n)[i].id < Nodes(args, n)[j].id
    ensures forall i :: 0 <= i < |Inputs(args, n)| ==> Between(Inputs(args, n)[i], n, n + TotalWidth(args))
    ensures forall i, j :: 0 <= i < |Nodes(args, n)| && 0 <= j < |Inputs(args, n)| ==> Nodes(args, n)[i].id != Inputs(args, n)[j]
    decreases |args|
  {
    if args != [] {
      Numbering(args[1..], n + Width(args[0]));
    }
  }

  lemma {:induction false} InputsIncrease(args: seq<Arg>, n: Id)
    ensures forall i, j :: 0 <= i < j < |Inputs(args, n)| ==> Inputs(args, n)[i] < Inputs(args, n)[j]
    decreases |args|
  {
    if args != [] {
      Numbering(args[1..], n + Width(args[0]));
      InputsIncrease(args[1..], n + Width(args[0]));
    }
  }

  lemma {:induction false} NodeInputsBelow(args: seq<Arg>, n: Id)
    ensures forall i :: 0 <= i < |args| ==> Between(NodeInputs(args, n)[i], n, n + TotalWidth(args))
    decreases |args|
  {
    if args != [] { NodeInputsBelow(args[1..], n + Width(args[0])); }
  }

  lemma CreatedWellFormed(symbol: string, args: seq<Arg>, m: nat)
    ensures WellFormed(Created(symbol, args, m))
    ensures HasNode(Created(symbol, args, m).nodes, TotalWidth(args))
    ensures NodeAt(Created(symbol, args, m), TotalWidth(args)) == OpNode(symbol, args, m)
  {
    var g := Created(symbol, args, m);
    var n, p := TotalWidth(args), |Nodes(args, 0)|;
    Numbering(args, 0);
    NodeInputsBelow(args, 0);
    forall i | 0 <= i < |g.nodes| ensures NodeBelow(g.nodes[i], g.next) && (i < p ==> g.nodes[i].id < n) {
      if i < p { assert PrologueNode(g.nodes[i], 0, n); }
    }
    forall i, x | 0 <= i < |g.nodes| && x in g.nodes[i].outputs ensures x !in g.inputs {
      if i < p { assert PrologueNode(g.nodes[i], 0, n); }
    }
    assert g.nodes[p] == OpNode(symbol, args, m);
    UniqueIndex(g, p);
  }

  /** Where a tensor's value is read: by the op itself, or by the one list that holds it. */
  ghost predicate Placed(args: seq<Arg>, idx: nat, n: Id, opId: Id, s: Slot) {
    && Between(s.v, n, n + TotalWidth(args)) && s.v in Inputs(args, n)
    && idx <= s.argIdx < idx + |args|
    && (s.reader == opId ==> s.readerIdx == s.argIdx && NodeInputs(args, n)[s.argIdx - idx] == s.v)
    && (s.reader != opId ==>
          s.v !in NodeInputs(args, n)
          && SomeReadsAt(Nodes(args, n), s))
    && OnlyUsedBy(Nodes(args, n), s.v, s.reader)
  }

  ghost predicate SomeReadsAt(nodes: seq<Node>, s: Slot) {
    exists i :: 0 <= i < |nodes| && ReadsAt(nodes[i], s)
  }

  ghost predicate ReadsAt(d: Node, s: Slot) {
    d.id == s.reader && s.readerIdx < |d.inputs| && d.inputs[s.readerIdx] == s.v
  }

  lemma UsersOfFirst(args: seq<Arg>, n: Id, v: Id, c: Id)
    requires args != [] && v < n + Width(args[0]) && OnlyUsedBy(ArgNodes(args[0], n), v, c)
    ensures OnlyUsedBy(Nodes(args, n), v, c)
  {
    var m := n + Width(args[0]);
    LaterNeverUses(args[1..], m, v);
    UsersConcat(ArgNodes(args[0], n), Nodes(args[1..], m), v, c);
  }

  lemma LaterNeverUses(args: seq<Arg>, n: Id, v: Id)
    requires v < n
    ensures NeverUses(Nodes(args, n), v)
  {
    var nodes := Nodes(args, n);
    Numbering(args, n);
    forall i | 0 <= i < |nodes| ensures v !in nodes[i].inputs {
      assert PrologueNode(nodes[i], n, n + TotalWidth(args));
    }
  }

  lemma UsersConcat(a: seq<Node>, b: seq<Node>, v: Id, c: Id)
    requires OnlyUsedBy(a, v, c) && OnlyUsedBy(b, v, c)
    ensures OnlyUsedBy(a + b, v, c)
  {
  }

  lemma UsersOfLater(args: seq<Arg>, rest: seq<Arg>, n: Id, m: Id, v: Id, c: Id)
    requires args != [] && rest == args[1..] && m == n + Width(args[0]) && v >= m && OnlyUsedBy(Nodes(rest, m), v, c)
    ensures OnlyUsedBy(Nodes(args, n), v, c)
  {
    FirstNeverUses(args[0], n, v);
    UsersConcat(ArgNodes(args[0], n), Nodes(rest, m), v, c);
  }

  lemma FirstNeverUses(a: Arg, n: Id, v: Id)
    requires v >= n + Width(a)
    ensures NeverUses(ArgNodes(a, n), v)
  {
  }

  lemma ListElementNotAnArg(args: seq<Arg>, n: Id, v: Id)
    requires args != [] && args[0].Many? && n <= v < n + |args[0].ts|
    ensures v !in NodeInputs(args, n)
  {
    var m := n + Width(args[0]);
    NodeInputsBelow(args[1..], m);
    forall k | 0 <= k < |args| ensures NodeInputs(args, n)[k] != v {
      if k > 0 { assert Between(NodeInputs(args[1..], m)[k - 1], m, m + TotalWidth(args[1..])); }
    }
  }

  lemma PlacedFirst(args: seq<Arg>, idx: nat, n: Id, opId: Id, j: nat)
    requires args != [] && opId >= n + TotalWidth(args) && j < |ArgSlots(args[0], idx, n, opId)|
    ensures Placed(args, idx, n, opId, ArgSlots(args[0], idx, n, opId)[j])
  {
    var a := args[0];
    var s := ArgSlots(a, idx, n, opId)[j];
    assert ArgInputs(a, n)[j] == s.v;
    assert Inputs(args, n)[j] == s.v;
    UsersOfFirst(args, n, s.v, s.reader);
    if a.Many? {
      ListElementNotAnArg(args, n, s.v);
      assert ReadsAt(Nodes(args, n)[0], s);
    }
  }

  lemma PlacedLater(args: seq<Arg>, rest: seq<Arg>, idx: nat, n: Id, m: Id, opId: Id, s: Slot)
    requires args != [] && rest == args[1..] && m == n + Width(args[0]) && opId >= n + TotalWidth(args)
    requires Placed(rest, idx + 1, m, opId, s)
    ensures Placed(args, idx, n, opId, s)
  {
    UsersOfLater(args, rest, n, m, s.v, s.reader);
    LaterInput(args, rest, n, m, s.v);
    LaterArgument(args, rest, n, m, s.v, s.argIdx - idx);
    if s.reader != opId {
      ReaderLater(args, rest, n, m, s);
    }
  }

  lemma LaterInput(args: seq<Arg>, rest: seq<Arg>, n: Id, m: Id, v: Id)
    requires args != [] && rest == args[1..] && m == n + Width(args[0]) && v in Inputs(rest, m)
    ensures v in Inputs(args, n)
  {
    assert Inputs(args, n) == ArgInputs(args[0], n) + Inputs(rest, m);
  }

  lemma LaterArgument(args: seq<Arg>, rest: seq<Arg>, n: Id, m: Id, v: Id, k: nat)
    requires args != [] && rest == args[1..] && m == n + Width(args[0]) && 0 < k < |args| && v >= m
    ensures NodeInputs(args, n)[k] == NodeInputs(rest, m)[k - 1]
    ensures v !in NodeInputs(rest, m) ==> v !in NodeInputs(args, n)
  {
    assert NodeInputs(args, n) == [ArgId(args[0], n)] + NodeInputs(rest, m);
  }

  lemma ReaderLater(args: seq<Arg>, rest: seq<Arg>, n: Id, m: Id, s: Slot)
    requires args != [] && rest == args[1..] && m == n + Width(args[0]) && SomeReadsAt(Nodes(rest, m), s)
    ensures SomeReadsAt(Nodes(args, n), s)
  {
    var later := Nodes(rest, m);
    var i :| 0 <= i < |later| && ReadsAt(later[i], s);
    assert Nodes(args, n)[|ArgNodes(args[0], n)| + i] == later[i];
  }

  lemma {:induction false} SlotPlaced(args: seq<Arg>, idx: nat, n: Id, opId: Id, i: nat)
    requires opId >= n + TotalWidth(args) && i < |Slots(args, idx, n, opId)|
    ensures Placed(args, idx, n, opId, Slots(args, idx, n, opId)[i])
    decreases |args|
  {
    var first := ArgSlots(args[0], idx, n, opId);
    if i < |first| {
      PlacedFirst(args, idx, n, opId, i);
    } else {
      var rest, m, j := args[1..], n + Width(args[0]), i - |first|;
      SlotsOfCons(args, rest, idx, n, m, opId);
      SlotLater(Slots(args, idx, n, opId), first, Slots(rest, idx + 1, m, opId), i, j);
      SlotPlaced(rest, idx + 1, m, opId, j);
      PlacedLater(args, rest, idx, n, m, opId, Slots(args, idx, n, opId)[i]);
    }
  }

  lemma {:induction false} SlotsIncrease(args: seq<Arg>, idx: nat, n: Id, opId: Id)
    ensures forall i :: 0 <= i < |Slots(args, idx, n, opId)| ==> Slots(args, idx, n, opId)[i].v >= n
    ensures forall i, j :: 0 <= i < j < |Slots(args, idx, n, opId)| ==>
              Slots(args, idx, n, opId)[i].v < Slots(args, idx, n, opId)[j].v
    decreases |args|
  {
    if args != [] {
      SlotsIncrease(args[1..], idx + 1, n + Width(args[0]), opId);
      var first := ArgSlots(args[0], idx, n, opId);
      assert forall i :: 0 <= i < |first| ==> first[i].v == n + i && i < Width(args[0]);
    }
  }

  /** The pass over the fresh graph. */
  function InitialState(g: Graph, params: ParamMap): State { State(g, 0, 0, 0, 0, params) }

  function Context(op: OpInfo, args: seq<Arg>): Ctx { Ctx(op, TotalWidth(args), |args|) }

  function AllSlots(args: seq<Arg>): seq<Slot> { Slots(args, 0, 0, TotalWidth(args)) }

  /** What the caller of the pass guarantees: out arguments and written arguments are
      among the arguments and outputs, and ops in the cast table have one output. */
  predicate Accepted(op: OpInfo, args: seq<Arg>, m: nat) {
    && op.numOut < |args|
    && CountWrites(Context(op, args), AllSlots(args)) <= m
    && (op.needsCast ==> m == 1)
  }

  lemma PlacedIsReady(symbol: string, args: seq<Arg>, m: nat, s: Slot)
    requires Placed(args, 0, 0, TotalWidth(args), s)
    ensures SlotReady(Created(symbol, args, m), s)
  {
    var g, n, p := Created(symbol, args, m), TotalWidth(args), |Nodes(args, 0)|;
    CreatedWellFormed(symbol, args, m);
    Numbering(args, 0);
    assert g.nodes[p] == OpNode(symbol, args, m);
    if s.reader != n {
      var i :| 0 <= i < |Nodes(args, 0)| && ReadsAt(Nodes(args, 0)[i], s);
      assert g.nodes[i] == Nodes(args, 0)[i];
      UniqueIndex(g, i);
    }
    PlacedIsUnique(symbol, args, m, s);
  }

  lemma PlacedIsUnique(symbol: string, args: seq<Arg>, m: nat, s: Slot)
    requires Placed(args, 0, 0, TotalWidth(args), s)
    ensures var g := Created(symbol, args, m); forall i :: 0 <= i < |g.nodes| && s.v in g.nodes[i].inputs ==> g.nodes[i].id == s.reader
  {
    var g := Created(symbol, args, m);
    forall i | 0 <= i < |g.nodes| && s.v in g.nodes[i].inputs ensures g.nodes[i].id == s.reader {
      if i < |Nodes(args, 0)| { assert g.nodes[i] == Nodes(args, 0)[i]; }
    }
  }

  lemma CreatedReady(op: OpInfo, args: seq<Arg>, m: nat, params: ParamMap)
    requires Accepted(op, args, m)
    ensures Ready(Context(op, args), InitialState(Created(op.symbol, args, m), params),
                  Range(TotalWidth(args) + 1, m), AllSlots(args))
  {
    CreatedGraphReady(op, args, m);
    SlotsReady(op.symbol, args, m);
  }

  lemma CreatedGraphReady(op: OpInfo, args: seq<Arg>, m: nat)
    ensures GraphReady(Context(op, args), Created(op.symbol, args, m), Range(TotalWidth(args) + 1, m), 0)
  {
    CreatedWellFormed(op.symbol, args, m);
  }

  lemma SlotsReady(symbol: string, args: seq<Arg>, m: nat)
    ensures var slots := AllSlots(args);
            && (forall i :: 0 <= i < |slots| ==> SlotReady(Created(symbol, args, m), slots[i]))
            && (forall i, j :: 0 <= i < j < |slots| ==> slots[i].v != slots[j].v)
  {
    var slots := AllSlots(args);
    SlotsIncrease(args, 0, 0, TotalWidth(args));
    forall i | 0 <= i < |slots| ensures SlotReady(Created(symbol, args, m), slots[i]) {
      SlotPlaced(args, 0, 0, TotalWidth(args), i);
      PlacedIsReady(symbol, args, m, slots[i]);
    }
  }

  // --- what the fresh graph computes ---

  ghost function ArgValue(a: Arg, n: Id, env: Env): Value {
    match a
    case Meta(c) => Const(c)
    case Many(ts) => List(Args(env, Range(n, |ts|)))
    case _ => Lookup(env, n)
  }

  ghost function ArgValues(args: seq<Arg>, n: Id, env: Env): (r: seq<Value>)
    ensures |r| == |args|
    decreases |args|
  {
    if args == [] then [] else [ArgValue(args[0], n, env)] + ArgValues(args[1..], n + Width(args[0]), env)
  }

  lemma StepsKeep(sem: Sem, args: seq<Arg>, n: Id, env: Env, x: Id)
    requires x < n || x >= n + TotalWidth(args) || x in Inputs(args, n)
    ensures Lookup(Eval(sem, Nodes(args, n), env), x) == Lookup(env, x)
  {
    Numbering(args, n);
    var nodes := Nodes(args, n);
    forall i | 0 <= i < |nodes| ensures x !in nodes[i].outputs {
      assert PrologueNode(nodes[i], n, n + TotalWidth(args));
      if x in Inputs(args, n) {
        var j :| 0 <= j < |Inputs(args, n)| && Inputs(args, n)[j] == x;
      }
    }
    EvalKeeps(sem, nodes, env, x);
  }

  lemma ArgNodeValue(sem: Sem, a: Arg, n: Id, env: Env)
    ensures Lookup(Eval(sem, ArgNodes(a, n), env), ArgId(a, n)) == ArgValue(a, n, env)
    ensures forall x: Id :: x < n || x >= n + Width(a) || x in ArgInputs(a, n) ==>
              Lookup(Eval(sem, ArgNodes(a, n), env), x) == Lookup(env, x)
  {
    if a.Meta? || a.Many? {
      var d := ArgNodes(a, n)[0];
      StepOne(sem, d, env);
      EvalCons(sem, d, [], env);
      assert ArgNodes(a, n) == [d] + [];
    }
  }

  lemma {:induction false} ArgValuesSame(args: seq<Arg>, n: Id, e1: Env, e2: Env)
    requires forall x: Id :: x >= n ==> Lookup(e1, x) == Lookup(e2, x)
    ensures ArgValues(args, n, e1) == ArgValues(args, n, e2)
    decreases |args|
  {
    if args != [] {
      if args[0].Many? {
        assert Args(e1, Range(n, |args[0].ts|)) == Args(e2, Range(n, |args[0].ts|));
      }
      ArgValuesSame(args[1..], n + Width(args[0]), e1, e2);
    }
  }

  /** After the constants and lists, the op's inputs hold the argument values. */
  lemma {:induction false} PrologueValues(sem: Sem, args: seq<Arg>, n: Id, env: Env)
    ensures Args(Eval(sem, Nodes(args, n), env), NodeInputs(args, n)) == ArgValues(args, n, env)
    decreases |args|
  {
    if args != [] {
      var rest, m := args[1..], n + Width(args[0]);
      var e1 := Eval(sem, ArgNodes(args[0], n), env);
      PrologueValues(sem, rest, m, e1);
      PrologueStep(sem, args, rest, n, m, env, e1);
    }
  }

  lemma PrologueStep(sem: Sem, args: seq<Arg>, rest: seq<Arg>, n: Id, m: Id, env: Env, e1: Env)
    requires args != [] && rest == args[1..] && m == n + Width(args[0]) && e1 == Eval(sem, ArgNodes(args[0], n), env)
    requires Args(Eval(sem, Nodes(rest, m), e1), NodeInputs(rest, m)) == ArgValues(rest, m, e1)
    ensures Args(Eval(sem, Nodes(args, n), env), NodeInputs(args, n)) == ArgValues(args, n, env)
  {
    FirstArgValue(sem, args, rest, n, m, env, e1);
    LaterArgValues(sem, args, rest, n, m, env, e1);
    ArgsCons(Eval(sem, Nodes(args, n), env), args, rest, n, m, env);
  }

  lemma ArgsCons(e: Env, args: seq<Arg>, rest: seq<Arg>, n: Id, m: Id, env: Env)
    requires args != [] && rest == args[1..] && m == n + Width(args[0])
    requires Lookup(e, ArgId(args[0], n)) == ArgValue(args[0], n, env)
    requires Args(e, NodeInputs(rest, m)) == ArgValues(rest, m, env)
    ensures Args(e, NodeInputs(args, n)) == ArgValues(args, n, env)
  {
    FirstIdAndValue(args, rest, n, m, env);
    LookupCons(e, ArgId(args[0], n), NodeInputs(rest, m));
  }

  lemma FirstIdAndValue(args: seq<Arg>, rest: seq<Arg>, n: Id, m: Id, env: Env)
    requires args != [] && rest == args[1..] && m == n + Width(args[0])
    ensures NodeInputs(args, n) == [ArgId(args[0], n)] + NodeInputs(rest, m)
    ensures ArgValues(args, n, env) == [ArgValue(args[0], n, env)] + ArgValues(rest, m, env)
  {
  }

  lemma LookupCons(e: Env, x: Id, ids: seq<Id>)
    ensures Args(e, [x] + ids) == [Lookup(e, x)] + Args(e, ids)
  {
  }

  lemma EvalSplit(sem: Sem, args: seq<Arg>, rest: seq<Arg>, n: Id, m: Id, env: Env, e1: Env)
    requires args != [] && rest == args[1..] && m == n + Width(args[0]) && e1 == Eval(sem, ArgNodes(args[0], n), env)
    ensures Eval(sem, Nodes(args, n), env) == Eval(sem, Nodes(rest, m), e1)
  {
    assert Nodes(args, n) == ArgNodes(args[0], n) + Nodes(rest, m);
    EvalConcat(sem, ArgNodes(args[0], n), Nodes(rest, m), env);
  }

  lemma FirstArgValue(sem: Sem, args: seq<Arg>, rest: seq<Arg>, n: Id, m: Id, env: Env, e1: Env)
    requires args != [] && rest == args[1..] && m == n + Width(args[0]) && e1 == Eval(sem, ArgNodes(args[0], n), env)
    ensures Eval(sem, Nodes(args, n), env) == Eval(sem, Nodes(rest, m), e1)
    ensures Lookup(Eval(sem, Nodes(args, n), env), ArgId(args[0], n)) == ArgValue(args[0], n, env)
  {
    EvalSplit(sem, args, rest, n, m, env, e1);
    ArgNodeValue(sem, args[0], n, env);
    StepsKeep(sem, rest, m, e1, ArgId(args[0], n));
  }

  lemma LaterArgValues(sem: Sem, args: seq<Arg>, rest: seq<Arg>, n: Id, m: Id, env: Env, e1: Env)
    requires args != [] && rest == args[1..] && m == n + Width(args[0]) && e1 == Eval(sem, ArgNodes(args[0], n), env)
    ensures ArgValues(rest, m, e1) == ArgValues(rest, m, env)
  {
    ArgNodeValue(sem, args[0], n, env);
    ArgValuesSame(rest, m, e1, env);
  }

  function Outputs(vals: seq<Value>, m: nat): (r: seq<Value>)
    ensures |r| == m
  {
    seq(m, k requires 0 <= k < m => if k < |vals| then vals[k] else Absent)
  }

  lemma IndexOfRange(n: Id, m: nat, k: nat)
    requires k < m
    ensures n + k in Range(n, m) && IndexOf(Range(n, m), n + k) == k
  {
    assert Range(n, m)[k] == n + k;
  }

  /** The fresh graph applies the op to its argument values. */
  lemma CreatedMeaning(sem: Sem, symbol: string, args: seq<Arg>, m: nat, env: Env)
    ensures Run(sem, Created(symbol, args, m), env) == Outputs(sem.op(symbol, ArgValues(args, 0, env)), m)
  {
    var g, d := Created(symbol, args, m), OpNode(symbol, args, m);
    var e := Eval(sem, Nodes(args, 0), env);
    RunLast(sem, g, Nodes(args, 0), d, env);
    PrologueValues(sem, args, 0, env);
    LastNodeOutputs(sem, d, e, TotalWidth(args) + 1, m, sem.op(symbol, ArgValues(args, 0, env)));
  }

  lemma RunLast(sem: Sem, g: Graph, prologue: seq<Node>, last: Node, env: Env)
    requires g.nodes == prologue + [last]
    ensures Run(sem, g, env) == Args(Eval(sem, [last], Eval(sem, prologue, env)), g.outputs)
  {
    EvalConcat(sem, prologue, [last], env);
  }

  lemma LastNodeOutputs(sem: Sem, d: Node, e: Env, n: Id, m: nat, vals: seq<Value>)
    requires d.outputs == Range(n, m) && vals == EvalNode(sem, d.kind, Args(e, d.inputs))
    ensures Args(Eval(sem, [d], e), Range(n, m)) == Outputs(vals, m)
  {
    EvalCons(sem, d, [], e);
    assert [d] + [] == [d];
    BoundOutputs(e, n, m, vals);
  }

  lemma BoundOutputs(e: Env, n: Id, m: nat, vals: seq<Value>)
    ensures Args(Bind(e, Range(n, m), vals), Range(n, m)) == Outputs(vals, m)
  {
    forall k | 0 <= k < m ensures Lookup(Bind(e, Range(n, m), vals), n + k) == Outputs(vals, m)[k] {
      IndexOfRange(n, m, k);
    }
  }
}
