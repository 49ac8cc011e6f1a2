/**
 HandleOutputInsert: a device copy into a view becomes a single strided_insert into the view's
 base, reading its source through as_strided where the source is a view too.
 */
module CopyInsert {
  import opened IndexSpace
  import opened StridedViews
  import opened JitGraph
  import opened ViewLowering
  import opened EagerGraph
  import opened LoweringMeaning
  import opened StorageUpdate
  import opened EagerPass
  import opened CachePatch
  import opened OperatorKey

  const COPY: string := "hpu::_copy_from"

  function CopyArgs(src: TensorArg, dst: TensorArg): seq<Arg> { [One(src), One(dst)] }

  /** The caller's choice of this form of copy: the destination is not contiguous, or is an empty
      one-dimensional tensor that is lowered as a view. */
  predicate CopiesByInsert(dst: TensorArg) { !dst.contiguous || (IsZst(dst) && dst.viewLowering) }

  /** replace_copy_with_strided_insert: the copy at position p gives way to an insert of its
      input 0 into its input 1, and the insert's result takes over the uses of the copy's. */
  function ReplaceCopy(g: Graph, p: nat, view: View): Graph
    requires p < |g.nodes| && |g.nodes[p].inputs| == 2 && |g.nodes[p].outputs| == 1
  {
    var d := g.nodes[p];
    Redirect(Graph(g.inputs, g.nodes[..p] + g.nodes[p + 1..], g.outputs, g.next),
             p, InsertBlock(g.next, d.inputs[1], d.inputs[0], view), d.outputs[0], g.next + 2, g.next + 3)
  }

  /** The copy graph after the pass; a source view is lowered before the insert at position 2. */
  function CopyGraph(src: TensorArg, dst: TensorArg): Graph {
    var g := Created(COPY, CopyArgs(src, dst), 1);
    CreatedCopy(src, dst);
    if !dst.IsView() then g
    else
      var inserted := Inserted(src, dst);
      if src.IsView() then ViewEdit(inserted, 2, 0, src.view, false).Apply(inserted) else inserted
  }

  function Inserted(src: TensorArg, dst: TensorArg): (g: Graph)
    ensures |g.nodes| == 3
  {
    CreatedCopy(src, dst);
    ReplaceCopy(Created(COPY, CopyArgs(src, dst), 1), 0, dst.view)
  }

  /** The parameter map, keyed by the constants of the two blocks. */
  function CopyParams(src: TensorArg, dst: TensorArg, params: ParamMap): ParamMap {
    var n: Id := 4;
    if !dst.IsView() then params
    else
      var inserted := InsertParams(params, n, Slot(dst, 2, 1, 1, 1));
      if src.IsView() then ViewParams(inserted, n + 3, Slot(src, n + 2, 0, 0, 0)) else inserted
  }

  lemma CreatedCopy(src: TensorArg, dst: TensorArg)
    ensures Created(COPY, CopyArgs(src, dst), 1) == Graph([0, 1], [Node(2, Aten(COPY), [0, 1], [3])], [3], 4)
  {
    var a := CopyArgs(src, dst);
    assert a[1..] == [One(dst)] && a[1..][1..] == [];
    assert TotalWidth(a[1..]) == 1 && TotalWidth(a) == 2;
    assert Inputs(a[1..], 1) == [1] && Inputs(a, 0) == [0, 1];
    assert Nodes(a[1..], 1) == [];
    assert ArgNodes(a[0], 0) == [];
    assert Nodes(a, 0) == [];
    assert NodeInputs(a[1..], 1) == [1] && NodeInputs(a, 0) == [0, 1];
    assert Range(3, 1) == [3];
  }

  lemma InsertedCopy(src: TensorArg, dst: TensorArg)
    ensures Inserted(src, dst) == Graph([0, 1], InsertBlock(4, 1, 0, dst.view), [6], 7)
  {
    CreatedCopy(src, dst);
    var g := Created(COPY, CopyArgs(src, dst), 1);
    assert RenameIds([3], 3, 6) == [6];
    assert RenameNodes([], 3, 6) == [];
    assert g.nodes[..0] + g.nodes[1..] == [];
  }

  // --- the pass, in place ---

  /** The scan for the only node that is neither a constant nor a list. */
  method FindOperator(pass: Pass) returns (found: bool, p: nat)
    ensures found ==> p < |pass.nodes| && IsOperator(pass.nodes[p])
    ensures found <==> exists i :: OnlyOperator(pass.nodes, i)
    ensures found ==> OnlyOperator(pass.nodes, p)
  {
    var seen := false;
    p := 0;
    for i := 0 to |pass.nodes|
      invariant seen ==> p < i && IsOperator(pass.nodes[p])
      invariant forall j :: 0 <= j < i && IsOperator(pass.nodes[j]) ==> seen && j == p
    {
      if IsOperator(pass.nodes[i]) {
        if seen {
          return false, 0;
        }
        seen, p := true, i;
      }
    }
    found := seen;
    assert seen ==> OnlyOperator(pass.nodes, p);
  }

  predicate IsOperator(d: Node) { !d.kind.Constant? && !d.kind.ListConstruct? }

  ghost predicate OnlyOperator(nodes: seq<Node>, i: int) {
    0 <= i < |nodes| && IsOperator(nodes[i]) && forall j :: 0 <= j < |nodes| && IsOperator(nodes[j]) ==> j == i
  }

  /** replace_copy_with_strided_insert, and the insert's two constants in the parameter map. */
  method ReplaceCopyNode(pass: Pass, p: nat, dst: TensorArg)
    requires p < |pass.nodes| && |pass.nodes[p].inputs| == 2 && |pass.nodes[p].outputs| == 1
    modifies pass
    ensures pass.G() == ReplaceCopy(old(pass.G()), p, dst.view)
    ensures pass.params == InsertParams(old(pass.params), old(pass.next), Slot(dst, 2, 1, 1, 1))
  {
    var d, n := pass.nodes[p], pass.next;
    pass.params := InsertParams(pass.params, n, Slot(dst, d.id, 1, 1, d.inputs[1]));
    pass.nodes := pass.nodes[..p] + pass.nodes[p + 1..];
    pass.Splice(Edit(p, InsertBlock(n, d.inputs[1], d.inputs[0], dst.view), d.outputs[0], n + 2));
  }

  /** insert_strided_view_node in front of the insert, and its three constants in the parameter map. */
  method LowerSource(pass: Pass, at: nat, src: TensorArg)
    requires at < |pass.nodes| && |pass.nodes[at].inputs| >= 2
    modifies pass
    ensures pass.G() == ViewEdit(old(pass.G()), at, old(pass.nodes[at].inputs[1]), src.view, false).Apply(old(pass.G()))
    ensures pass.params == ViewParams(old(pass.params), old(pass.next), Slot(src, 6, 0, 0, 0))
  {
    var si := pass.nodes[at];
    pass.params := ViewParams(pass.params, pass.next, Slot(src, si.id, 0, 0, si.inputs[1]));
    pass.Splice(ViewEdit(pass.G(), at, si.inputs[1], src.view, false));
  }

  /** HandleOutputInsert on the graph of a copy. It would follow a null node exactly when the source is
      a view and the destination is not; the caller's choice rules that out. */
  method HandleOutputInsert(pass: Pass, src: TensorArg, dst: TensorArg) returns (ok: bool)
    requires pass.G() == Created(COPY, CopyArgs(src, dst), 1)
    modifies pass
    ensures ok <==> (src.IsView() ==> dst.IsView())
    ensures CopiesByInsert(dst) ==> ok
    ensures ok ==> pass.G() == CopyGraph(src, dst) && pass.params == CopyParams(src, dst, old(pass.params))
  {
    CreatedCopy(src, dst);
    assert OnlyOperator(pass.nodes, 0);
    var found, p := FindOperator(pass);
    if !dst.IsView() {
      return !src.IsView();
    }
    ReplaceCopyNode(pass, p, dst);
    InsertedCopy(src, dst);
    assert pass.nodes[2] == InsertBlock(4, 1, 0, dst.view)[2];
    if src.IsView() {
      LowerSource(pass, p + 2, src);
    }
    return true;
  }

  // --- what the lowered copy computes ---

  lemma InsertedWellFormed(src: TensorArg, dst: TensorArg)
    ensures WellFormed(Inserted(src, dst))
  {
    var b := InsertBlock(4, 1, 0, dst.view);
    CreatedCopy(src, dst);
    InsertBlockNumbered(4, 1, 0, dst.view);
    NumberedIsFresh(b, 4, {1, 0});
    var empty := Graph([0, 1], [], [3], 4);
    assert WellFormed(empty);
    RedirectWellFormed(empty, 0, b, 3, 6, 7);
    var g := Created(COPY, CopyArgs(src, dst), 1);
    assert g.nodes[..0] + g.nodes[1..] == [];
  }

  lemma InsertedReady(src: TensorArg, dst: TensorArg)
    ensures var g := Inserted(src, dst);
            WellFormed(g) && SlotReady(g, Slot(src, 6, 1, 0, 0)) && NodeIndex(g.nodes, 6) == 2
  {
    InsertedWellFormed(src, dst);
    InsertedCopy(src, dst);
    var g := Inserted(src, dst);
    assert g.nodes[2].id == 6 && g.nodes[2].inputs == [1, 0, 4, 5];
    UniqueIndex(g, 2);
    assert g.nodes[0].inputs == [] && g.nodes[1].inputs == [];
  }

  lemma InsertedRun(src: TensorArg, dst: TensorArg, sem: Sem, env: Env)
    ensures Run(sem, Inserted(src, dst), env)
            == [sem.insert(Lookup(env, 1), Lookup(env, 0), StridesOf(dst.view), OffsetOf(dst.view))]
  {
    InsertedCopy(src, dst);
    InsertBlockValue(sem, 4, 1, 0, dst.view, env);
  }

  /** Run on base buffers, the lowered copy returns the destination's old base with exactly the
      view's positions replaced by the source's elements. */
  lemma CopyMeaning(src: TensorArg, dst: TensorArg, kernels: Kernels, env: Env, mem: Mem)
    requires dst.IsView() && dst.hpu && src.hpu && src.view.sizes == dst.view.sizes
    requires Held(src, mem) && Held(dst, mem)
    requires Lookup(env, 0) == BaseValue(src, mem) && Lookup(env, 1) == BaseValue(dst, mem)
    ensures Run(MakeSem(kernels), CopyGraph(src, dst), env)
            == [Tensor(dst.dtype, mem.sizes[dst.storage],
                       InsertView(mem.data[dst.storage], dst.view, ReadView(mem.data[src.storage], src.view)))]
  {
    StoredCopy(src, dst, kernels, mem);
    if src.IsView() {
      ViewedRun(src, dst, kernels, env, mem);
      InsertedRun(src, dst, MakeSem(kernels), env[0 := TensorValue(src, mem)]);
    } else {
      InsertedRun(src, dst, MakeSem(kernels), env);
    }
  }

  /** With the source lowered, the insert finds its elements. */
  lemma ViewedRun(src: TensorArg, dst: TensorArg, kernels: Kernels, env: Env, mem: Mem)
    requires src.IsView() && dst.IsView() && src.hpu && Held(src, mem) && Lookup(env, 0) == BaseValue(src, mem)
    ensures Run(MakeSem(kernels), CopyGraph(src, dst), env)
            == Run(MakeSem(kernels), Inserted(src, dst), env[0 := TensorValue(src, mem)])
  {
    InsertedReady(src, dst);
    AddViewMeaning(MakeSem(kernels), Inserted(src, dst), Slot(src, 6, 1, 0, 0), false, env);
    SourceSeen(src, kernels, mem);
  }

  lemma SourceSeen(src: TensorArg, kernels: Kernels, mem: Mem)
    requires src.IsView() && src.hpu && Held(src, mem)
    ensures MakeSem(kernels).view(false, BaseValue(src, mem), SizesOf(src.view), StridesOf(src.view), OffsetOf(src.view))
            == TensorValue(src, mem)
  {
  }

  lemma StoredCopy(src: TensorArg, dst: TensorArg, kernels: Kernels, mem: Mem)
    requires dst.IsView() && dst.hpu && src.view.sizes == dst.view.sizes && Held(src, mem) && Held(dst, mem)
    ensures MakeSem(kernels).insert(BaseValue(dst, mem), TensorValue(src, mem), StridesOf(dst.view), OffsetOf(dst.view))
            == Tensor(dst.dtype, mem.sizes[dst.storage],
                      InsertView(mem.data[dst.storage], dst.view, ReadView(mem.data[src.storage], src.view)))
  {
  }

  /** The storages after a copy: those of the eager copy, which writes the source's elements through
      the destination. Reading the destination back gives the source, and nothing outside the
      destination moves, even where the two share a storage. */
  lemma CopyLeavesEagerMemory(src: TensorArg, dst: TensorArg, kernels: Kernels, env: Env, mem: Mem)
    requires dst.IsView() && dst.hpu && src.hpu && src.view.sizes == dst.view.sizes
    requires Held(src, mem) && Held(dst, mem) && Injective(dst.view)
    requires Lookup(env, 0) == BaseValue(src, mem) && Lookup(env, 1) == BaseValue(dst, mem)
    ensures var outs := Run(MakeSem(kernels), CopyGraph(src, dst), env);
            && |outs| == 1
            && BindOutput(mem.data, false, dst, outs[0]) == WriteThrough(mem.data, dst, TensorValue(src, mem))
            && outs[0].Tensor? && |outs[0].data| == |mem.data[dst.storage]|
            && ReadView(outs[0].data, dst.view) == ReadView(mem.data[src.storage], src.view)
            && forall p: nat :: p < |outs[0].data| && !Covers(dst.view, p) ==> outs[0].data[p] == mem.data[dst.storage][p]
  {
    CopyMeaning(src, dst, kernels, env, mem);
    var base, items := mem.data[dst.storage], ReadView(mem.data[src.storage], src.view);
    InsertThenView(base, dst.view, items);
    forall p: nat | p < |base| && !Covers(dst.view, p) ensures InsertView(base, dst.view, items)[p] == base[p] {
      InsertFrame(base, dst.view, items, p);
    }
  }

  // --- cached copies ---

  lemma ViewedCopy(src: TensorArg, dst: TensorArg)
    requires dst.IsView() && src.IsView()
    ensures var b := InsertBlock(4, 1, 0, dst.view);
            CopyGraph(src, dst)
            == Graph([0, 1], [b[0], b[1]] + ViewBlock(7, 0, src.view, false) + [b[2].(inputs := [1, 10, 4, 5])], [6], 11)
  {
    InsertedCopy(src, dst);
    var b := InsertBlock(4, 1, 0, dst.view);
    assert b[..2] == [b[0], b[1]] && b[2..] == [b[2]];
    assert RenameIds([1, 0, 4, 5], 0, 10) == [1, 10, 4, 5];
    assert RenameNodes([b[2]], 0, 10) == [b[2].(inputs := [1, 10, 4, 5])];
    assert RenameIds([6], 0, 10) == [6];
  }

  /** The recomputed constants of the two blocks. */
  ghost predicate FixesCopy(fix: map<Id, IValue>, src: TensorArg, dst: TensorArg) {
    && 4 in fix && fix[4] == IntList(dst.view.strides) && 5 in fix && fix[5] == Int(dst.view.offset)
    && (src.IsView() ==>
          && 7 in fix && fix[7] == IntList(src.view.sizes)
          && 8 in fix && fix[8] == IntList(src.view.strides) && 9 in fix && fix[9] == Int(src.view.offset))
  }

  lemma CopyFixes(src: TensorArg, dst: TensorArg, src': TensorArg, dst': TensorArg)
    requires dst.IsView() && src.IsView() == src'.IsView()
    ensures ParamsFit(CopyParams(src, dst, map[]), CopyArgs(src', dst'))
    ensures FixesCopy(NewValues(CopyParams(src, dst, map[]), CopyArgs(src', dst')), src', dst')
  {
    var params, args := CopyParams(src, dst, map[]), CopyArgs(src', dst');
    assert params[4] == Param(VIEW_STRIDES, 1, 1) && params[5] == Param(VIEW_OFFSET, 1, 1);
    if src.IsView() {
      assert params[7] == Param(VIEW_SIZES, 0, 0) && params[8] == Param(VIEW_STRIDES, 0, 0) && params[9] == Param(VIEW_OFFSET, 0, 0);
    }
  }

  lemma InsertPatchedAs(fix: map<Id, IValue>, src: TensorArg, dst: TensorArg, view: View, x: Id)
    requires FixesCopy(fix, src, dst)
    ensures var b, c := InsertBlock(4, 1, 0, view), InsertBlock(4, 1, 0, dst.view);
            && PatchNodes(b, fix) == c
            && PatchNodes([b[0], b[1]], fix) == [c[0], c[1]]
            && PatchNodes([b[2].(inputs := [1, x, 4, 5])], fix) == [c[2].(inputs := [1, x, 4, 5])]
  {
  }

  lemma ViewPatchedAs(fix: map<Id, IValue>, src: TensorArg, dst: TensorArg, view: View)
    requires FixesCopy(fix, src, dst) && src.IsView()
    ensures PatchNodes(ViewBlock(7, 0, view, false), fix) == ViewBlock(7, 0, src.view, false)
  {
  }

  lemma ViewedCopyPatched(src: TensorArg, dst: TensorArg, src': TensorArg, dst': TensorArg, fix: map<Id, IValue>)
    requires src.IsView() && src'.IsView() && dst.IsView() && dst'.IsView() && FixesCopy(fix, src', dst')
    ensures Patch(CopyGraph(src, dst), fix) == CopyGraph(src', dst')
  {
    var b := InsertBlock(4, 1, 0, dst.view);
    ViewedCopy(src, dst);
    ViewedCopy(src', dst');
    InsertPatchedAs(fix, src', dst', dst.view, 10);
    ViewPatchedAs(fix, src', dst', src.view);
    PatchConcat([b[0], b[1]] + ViewBlock(7, 0, src.view, false), [b[2].(inputs := [1, 10, 4, 5])], fix);
    PatchConcat([b[0], b[1]], ViewBlock(7, 0, src.view, false), fix);
  }

  /** A copy graph built for one pair of tensors and patched for another pair with the same
      view decisions is the graph built for the other pair. */
  lemma CopyPatched(src: TensorArg, dst: TensorArg, src': TensorArg, dst': TensorArg)
    requires src.IsView() == src'.IsView() && dst.IsView() == dst'.IsView()
    ensures ParamsFit(CopyParams(src, dst, map[]), CopyArgs(src', dst'))
    ensures Patch(CopyGraph(src, dst), NewValues(CopyParams(src, dst, map[]), CopyArgs(src', dst'))) == CopyGraph(src', dst')
  {
    var fix := NewValues(CopyParams(src, dst, map[]), CopyArgs(src', dst'));
    if !dst.IsView() {
      CreatedCopy(src, dst);
      CreatedCopy(src', dst');
    } else {
      CopyFixes(src, dst, src', dst');
      if src.IsView() {
        ViewedCopyPatched(src, dst, src', dst', fix);
      } else {
        InsertedCopy(src, dst);
        InsertedCopy(src', dst');
        InsertPatchedAs(fix, src', dst', dst.view, 0);
      }
    }
  }

  lemma TwoInputsOfCopy(src: TensorArg, dst: TensorArg)
    ensures Flatten(CopyArgs(src, dst)) == [TensorInput(src), TensorInput(dst)]
  {
    var args := CopyArgs(src, dst);
    assert args[1..] == [One(dst)] && args[1..][1..] == [];
    assert Flatten([One(dst)]) == FlattenArg(One(dst)) + Flatten([]);
  }

  /** What equal keys of two copies fix. */
  lemma CopyKeys(src: TensorArg, dst: TensorArg, src': TensorArg, dst': TensorArg,
                 det: bool, parent: seq<nat>, det': bool, parent': seq<nat>, caching: bool)
    requires KeyOf(COPY, 1, det, parent, CopyArgs(src, dst), caching) == KeyOf(COPY, 1, det', parent', CopyArgs(src', dst'), caching)
    ensures src.IsView() == src'.IsView() && dst.IsView() == dst'.IsView() && CopiesByInsert(dst) == CopiesByInsert(dst')
  {
    var xs, ys := Flatten(CopyArgs(src, dst)), Flatten(CopyArgs(src', dst'));
    KeysGiveEntries(CopyArgs(src, dst), CopyArgs(src', dst'), COPY, caching);
    TwoInputsOfCopy(src, dst);
    TwoInputsOfCopy(src', dst');
    assert SameEntry(xs[0], ys[0], COPY, caching) && SameEntry(xs[1], ys[1], COPY, caching);
  }

  /** The operator key separates the copies this pass rewrites from the others: equal keys mean equal
      view decisions and the same form of copy, so the hit is fresh in either form. */
  lemma CopyHitIsFresh(src: TensorArg, dst: TensorArg, src': TensorArg, dst': TensorArg,
                       det: bool, parent: seq<nat>, det': bool, parent': seq<nat>, caching: bool)
    requires KeyOf(COPY, 1, det, parent, CopyArgs(src, dst), caching) == KeyOf(COPY, 1, det', parent', CopyArgs(src', dst'), caching)
    ensures CopiesByInsert(dst) == CopiesByInsert(dst')
    ensures ParamsFit(CopyParams(src, dst, map[]), CopyArgs(src', dst'))
    ensures Patch(CopyGraph(src, dst), NewValues(CopyParams(src, dst, map[]), CopyArgs(src', dst'))) == CopyGraph(src', dst')
  {
    CopyKeys(src, dst, src', dst', det, parent, det', parent', caching);
    CopyPatched(src, dst, src', dst');
  }
}
