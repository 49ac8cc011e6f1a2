/**
 PermuteWeightTensor: the nested loops that rewrite a convolution weight from its
 K,C,(Q),R,S strides to RSCK / QRSCK memory order, through a temporary buffer.
 */
module WeightRelayout {
  import opened IndexSpace
  import opened StridedViews

  /** K,C,(Q),R,S entries reordered to (Q),R,S,C,K. */
  function KernelLast(s: seq<nat>): (r: seq<nat>)
    requires |s| >= 2
    ensures |r| == |s|
  {
    s[2..] + [s[1], s[0]]
  }

  function KernelFirst(s: seq<nat>): (r: seq<nat>)
    requires |s| >= 2
    ensures |r| == |s|
  {
    [s[|s| - 1], s[|s| - 2]] + s[..|s| - 2]
  }

  /** The strides under which the rewritten buffer is the weight again. */
  function RelaidStrides(sizes: seq<nat>): (r: seq<nat>)
    requires |sizes| >= 2
    ensures |r| == |sizes|
  {
    KernelFirst(ContiguousStrides(KernelLast(sizes)))
  }

  /** Position j of the new buffer takes the element the old strides gave it. */
  ghost predicate Filled(temp: seq<int>, before: seq<int>, sizes: seq<nat>, strides: seq<nat>, n: nat)
    requires |sizes| == |strides| >= 2
  {
    && n <= |temp|
    && n <= Numel(KernelLast(sizes))
    && forall j: nat :: j < n ==> SourceOf(j, sizes, strides) < |before| && temp[j] == before[SourceOf(j, sizes, strides)]
  }

  /** Where the old strides keep the element that the new order puts at position j. */
  ghost function SourceOf(j: nat, sizes: seq<nat>, strides: seq<nat>): nat
    requires |sizes| == |strides| >= 2 && j < Numel(KernelLast(sizes))
  {
    Dot(Unrank(j, KernelLast(sizes)), KernelLast(strides))
  }

  /** What the source asks of its tensor: reads and the copy back stay inside the buffer. */
  ghost predicate InBuffer(sizes: seq<nat>, strides: seq<nat>, length: nat)
  {
    && |sizes| == |strides| >= 2
    && Numel(sizes) <= length
    && forall idx :: InShape(idx, sizes) ==> Dot(idx, strides) < length
  }

  /** Where the four-dimensional loops read. */
  function OffsetOfFour(k: nat, c: nat, r: nat, s: nat, strides: seq<nat>): nat
    requires |strides| == 4
  {
    k * strides[0] + c * strides[1] + r * strides[2] + s * strides[3]
  }

  lemma FilledStepOfFour(temp: seq<int>, before: seq<int>, k: nat, c: nat, r: nat, s: nat, sizes: seq<nat>, strides: seq<nat>, n: nat)
    requires |sizes| == |strides| == 4 && InBuffer(sizes, strides, |before|)
    requires k < sizes[0] && c < sizes[1] && r < sizes[2] && s < sizes[3]
    requires n == Before([r] + [s] + [c] + [k], KernelLast(sizes))
    requires Filled(temp, before, sizes, strides, n) && |temp| == Numel(KernelLast(sizes))
    ensures var at := OffsetOfFour(k, c, r, s, strides);
            at < |before| && n < |temp| && Filled(temp[n := before[at]], before, sizes, strides, n + 1)
  {
    DotOfFour([k, c, r, s], strides);
    FilledStep(temp, before, [k, c, r, s], [r] + [s] + [c] + [k], sizes, strides, n);
  }

  /** The two inner loops of the four-dimensional relayout, over channels and kernels. */
  method FillKernels2D(temp: array<int>, ptr: array<int>, sizes: seq<nat>, strides: seq<nat>, r: nat, s: nat,
                       counter0: nat, ghost before: seq<int>) returns (counter: nat)
    requires |sizes| == 4 && InBuffer(sizes, strides, ptr.Length) && temp != ptr && ptr[..] == before
    requires temp.Length == Numel(KernelLast(sizes)) && r < sizes[2] && s < sizes[3]
    requires counter0 == Before([r] + [s] + [0], KernelLast(sizes))
    requires Filled(temp[..], before, sizes, strides, counter0)
    modifies temp
    ensures counter == Before([r] + [s] + [sizes[1]], KernelLast(sizes))
    ensures Filled(temp[..], before, sizes, strides, counter)
  {
    ghost var t := KernelLast(sizes);
    counter := counter0;
    for c := 0 to sizes[1]
      invariant counter == Before([r] + [s] + [c], t)
      invariant Filled(temp[..], before, sizes, strides, counter)
    {
      Open([r] + [s] + [c], t);
      for k := 0 to sizes[0]
        invariant counter == Before([r] + [s] + [c] + [k], t)
        invariant Filled(temp[..], before, sizes, strides, counter)
      {
        FilledStepOfFour(temp[..], before, k, c, r, s, sizes, strides, counter);
        temp[counter] := ptr[OffsetOfFour(k, c, r, s, strides)];
        Next([r] + [s] + [c], k, t);
        counter := counter + 1;
      }
      Close([r] + [s], c, t);
    }
  }

  method PermuteDataToRSCK(ptr: array<int>, sizes: seq<nat>, strides: seq<nat>)
    requires |sizes| == 4 && InBuffer(sizes, strides, ptr.Length)
    modifies ptr
    ensures Filled(ptr[..], old(ptr[..]), sizes, strides, Numel(sizes))
    ensures ptr[Numel(sizes)..] == old(ptr[Numel(sizes)..])
  {
    ghost var before, t := ptr[..], KernelLast(sizes);
    NumelKernelLast(sizes);
    var numel := CountElements(sizes);
    var temp := new int[numel](_ => 0);
    var counter: nat := 0;
    Start(t);
    for r := 0 to sizes[2]
      invariant counter == Before([r], t)
      invariant Filled(temp[..], before, sizes, strides, counter) && ptr[..] == before
    {
      Open([r], t);
      for s := 0 to sizes[3]
        invariant counter == Before([r] + [s], t)
        invariant Filled(temp[..], before, sizes, strides, counter) && ptr[..] == before
      {
        Open([r] + [s], t);
        counter := FillKernels2D(temp, ptr, sizes, strides, r, s, counter, before);
        Close([r], s, t);
      }
      CloseFirst(r, t);
    }
    Finish(t);
    CopyBack(temp, ptr);
    FilledPrefix(temp[..], ptr[..], before, sizes, strides);
  }

  /** Where the five-dimensional loops read. */
  function OffsetOfFive(k: nat, c: nat, r: nat, s: nat, q: nat, strides: seq<nat>): nat
    requires |strides| == 5
  {
    k * strides[0] + c * strides[1] + r * strides[3] + s * strides[4] + q * strides[2]
  }

  lemma FilledStepOfFive(temp: seq<int>, before: seq<int>, k: nat, c: nat, r: nat, s: nat, q: nat,
                         sizes: seq<nat>, strides: seq<nat>, n: nat)
    requires |sizes| == |strides| == 5 && InBuffer(sizes, strides, |before|)
    requires k < sizes[0] && c < sizes[1] && q < sizes[2] && r < sizes[3] && s < sizes[4]
    requires n == Before([q] + [r] + [s] + [c] + [k], KernelLast(sizes))
    requires Filled(temp, before, sizes, strides, n) && |temp| == Numel(KernelLast(sizes))
    ensures var at := OffsetOfFive(k, c, r, s, q, strides);
            at < |before| && n < |temp| && Filled(temp[n := before[at]], before, sizes, strides, n + 1)
  {
    DotOfFive([k, c, q, r, s], strides);
    FilledStep(temp, before, [k, c, q, r, s], [q] + [r] + [s] + [c] + [k], sizes, strides, n);
  }

  /** The two inner loops of the five-dimensional relayout, over channels and kernels. */
  method FillKernels3D(temp: array<int>, ptr: array<int>, sizes: seq<nat>, strides: seq<nat>, q: nat, r: nat, s: nat,
                     counter0: nat, ghost before: seq<int>) returns (counter: nat)
    requires |sizes| == 5 && InBuffer(sizes, strides, ptr.Length) && temp != ptr && ptr[..] == before
    requires temp.Length == Numel(KernelLast(sizes)) && q < sizes[2] && r < sizes[3] && s < sizes[4]
    requires counter0 == Before([q] + [r] + [s] + [0], KernelLast(sizes))
    requires Filled(temp[..], before, sizes, strides, counter0)
    modifies temp
    ensures counter == Before([q] + [r] + [s] + [sizes[1]], KernelLast(sizes))
    ensures Filled(temp[..], before, sizes, strides, counter)
  {
    ghost var t := KernelLast(sizes);
    counter := counter0;
    for c := 0 to sizes[1]
      invariant counter == Before([q] + [r] + [s] + [c], t)
      invariant Filled(temp[..], before, sizes, strides, counter)
    {
      Open([q] + [r] + [s] + [c], t);
      for k := 0 to sizes[0]
        invariant counter == Before([q] + [r] + [s] + [c] + [k], t)
        invariant Filled(temp[..], before, sizes, strides, counter)
      {
        FilledStepOfFive(temp[..], before, k, c, r, s, q, sizes, strides, counter);
        temp[counter] := ptr[OffsetOfFive(k, c, r, s, q, strides)];
        Next([q] + [r] + [s] + [c], k, t);
        counter := counter + 1;
      }
      Close([q] + [r] + [s], c, t);
    }
  }

  method PermuteDataToQRSCK(ptr: array<int>, sizes: seq<nat>, strides: seq<nat>)
    requires |sizes| == 5 && InBuffer(sizes, strides, ptr.Length)
    modifies ptr
    ensures Filled(ptr[..], old(ptr[..]), sizes, strides, Numel(sizes))
    ensures ptr[Numel(sizes)..] == old(ptr[Numel(sizes)..])
  {
    ghost var before, t := ptr[..], KernelLast(sizes);
    NumelKernelLast(sizes);
    var numel := CountElements(sizes);
    var temp := new int[numel](_ => 0);
    var counter: nat := 0;
    Start(t);
    for q := 0 to sizes[2]
      invariant counter == Before([q], t)
      invariant Filled(temp[..], before, sizes, strides, counter) && ptr[..] == before
    {
      Open([q], t);
      for r := 0 to sizes[3]
        invariant counter == Before([q] + [r], t)
        invariant Filled(temp[..], before, sizes, strides, counter) && ptr[..] == before
      {
        Open([q] + [r], t);
        for s := 0 to sizes[4]
          invariant counter == Before([q] + [r] + [s], t)
          invariant Filled(temp[..], before, sizes, strides, counter) && ptr[..] == before
        {
          Open([q] + [r] + [s], t);
          counter := FillKernels3D(temp, ptr, sizes, strides, q, r, s, counter, before);
          Close([q] + [r], s, t);
        }
        Close([q], r, t);
      }
      CloseFirst(q, t);
    }
    Finish(t);
    CopyBack(temp, ptr);
    FilledPrefix(temp[..], ptr[..], before, sizes, strides);
  }

  /** The memcpy over the tensor's own storage. */
  method CopyBack(temp: array<int>, ptr: array<int>)
    requires temp != ptr && temp.Length <= ptr.Length
    modifies ptr
    ensures ptr[..temp.Length] == temp[..] && ptr[temp.Length..] == old(ptr[temp.Length..])
  {
    for i := 0 to temp.Length
      invariant ptr[..i] == temp[..i] && ptr[i..] == old(ptr[i..])
    {
      ptr[i] := temp[i];
    }
    assert temp[..temp.Length] == temp[..];
  }

  lemma FilledPrefix(temp: seq<int>, after: seq<int>, before: seq<int>, sizes: seq<nat>, strides: seq<nat>)
    requires |sizes| == |strides| >= 2 && InBuffer(sizes, strides, |before|)
    requires |temp| <= |after| && after[..|temp|] == temp && |temp| == Numel(sizes)
    requires Filled(temp, before, sizes, strides, Numel(sizes))
    ensures Filled(after, before, sizes, strides, Numel(sizes))
  {
    forall i | 0 <= i < |temp| ensures after[i] == temp[i] { assert after[..|temp|][i] == temp[i]; }
  }

  method CountElements(sizes: seq<nat>) returns (n: nat)
    ensures n == Numel(sizes)
  {
    n := 1;
    for i := 0 to |sizes|
      invariant n == Numel(sizes[..i])
    {
      assert sizes[..i + 1] == sizes[..i] + [sizes[i]];
      NumelSnoc(sizes[..i], sizes[i]);
      n := n * sizes[i];
    }
    assert sizes[..|sizes|] == sizes;
  }

  // --- what the relayout preserves ---

  /** Read with the new strides, the new buffer is the same logical tensor. */
  lemma RelayoutKeepsTensor(before: seq<int>, after: seq<int>, sizes: seq<nat>, strides: seq<nat>)
    requires InBuffer(sizes, strides, |before|) && |after| == |before|
    requires Filled(after, before, sizes, strides, Numel(sizes))
    ensures Fits(View(sizes, strides, 0), |before|) && Fits(View(sizes, RelaidStrides(sizes), 0), |after|)
    ensures ReadView(after, View(sizes, RelaidStrides(sizes), 0)) == ReadView(before, View(sizes, strides, 0))
  {
    var v, w := View(sizes, strides, 0), View(sizes, RelaidStrides(sizes), 0);
    forall j: nat | j < Numel(sizes)
      ensures Pos(v, j) < |before| && Pos(w, j) < Numel(sizes) && after[Pos(w, j)] == before[Pos(v, j)]
    {
      var idx := Unrank(j, sizes);
      var moved := KernelLast(idx);
      KernelLastFacts(idx, sizes);
      DotKernelLast(idx, strides);
      DotKernelLast(idx, RelaidStrides(sizes));
      KernelLastFacts(RelaidStrides(sizes), sizes);
      KernelFirstFacts(ContiguousStrides(KernelLast(sizes)));
      DotContiguous(moved, KernelLast(sizes));
      UnrankRank(moved, KernelLast(sizes));
    }
  }

  /** For a dense weight the buffer holds the same elements, each as often as before. */
  lemma RelayoutKeepsElements(before: seq<int>, after: seq<int>, sizes: seq<nat>, strides: seq<nat>)
    requires |strides| == |sizes| >= 2 && Dense(sizes, strides)
    requires |before| == |after| == Numel(sizes)
    requires Filled(after, before, sizes, strides, Numel(sizes))
    ensures multiset(after) == multiset(before)
  {
    var n := Numel(sizes);
    KernelLastFacts(sizes, sizes);
    var f := seq(n, j requires 0 <= j < n => SourceOf(j, sizes, strides));
    forall j: nat | j < n ensures f[j] < n && after[j] == before[f[j]] {
      SourceOffset(j, sizes, strides);
    }
    forall i: nat, j: nat | i < j < n ensures f[i] != f[j] {
      SourceOffset(i, sizes, strides);
      SourceOffset(j, sizes, strides);
      RankUnrank(i, KernelLast(sizes));
      RankUnrank(j, KernelLast(sizes));
    }
    Rearranged(before, after, f);
  }

  lemma SourceOffset(j: nat, sizes: seq<nat>, strides: seq<nat>)
    requires |strides| == |sizes| >= 2
    requires Numel(KernelLast(sizes)) == Numel(sizes) && j < Numel(sizes)
    ensures var moved := Unrank(j, KernelLast(sizes));
            InShape(KernelFirst(moved), sizes)
            && KernelLast(KernelFirst(moved)) == moved
            && Dot(moved, KernelLast(strides)) == Dot(KernelFirst(moved), strides)
  {
    var moved := Unrank(j, KernelLast(sizes));
    KernelFirstFacts(moved);
    KernelLastFacts(KernelFirst(moved), sizes);
    DotKernelLast(KernelFirst(moved), strides);
  }

  /** A sequence read through distinct indices keeps its multiset. */
  lemma {:induction false} Rearranged(a: seq<int>, b: seq<int>, f: seq<nat>)
    requires |a| == |b| == |f|
    requires forall j :: 0 <= j < |f| ==> f[j] < |a| && b[j] == a[f[j]]
    requires forall i, j :: 0 <= i < j < |f| ==> f[i] != f[j]
    ensures multiset(b) == multiset(a)
  {
    var n := |a|;
    if n > 0 {
      var p := f[n - 1];
      var rest := a[..p] + a[p + 1..];
      var g := seq(n - 1, j requires 0 <= j < n - 1 => if f[j] < p then f[j] else f[j] - 1);
      forall j | 0 <= j < n - 1 ensures g[j] < |rest| && b[..n - 1][j] == rest[g[j]] { assert f[j] != f[n - 1]; }
      forall i, j | 0 <= i < j < n - 1 ensures g[i] != g[j] { assert f[i] != f[j] && f[i] != f[n - 1] && f[j] != f[n - 1]; }
      Rearranged(rest, b[..n - 1], g);
      TakenOut(a, p);
      assert b == b[..n - 1] + [b[n - 1]];
    }
  }

  lemma TakenOut(a: seq<int>, p: nat)
    requires p < |a|
    ensures multiset(a) == multiset(a[..p] + a[p + 1..]) + multiset{a[p]}
  {
    assert a == a[..p] + [a[p]] + a[p + 1..];
  }

  // --- index moves ---

  lemma KernelLastFacts(idx: seq<nat>, sizes: seq<nat>)
    requires |idx| == |sizes| >= 2
    ensures InShape(idx, sizes) <==> InShape(KernelLast(idx), KernelLast(sizes))
    ensures KernelFirst(KernelLast(idx)) == idx
    ensures Numel(KernelLast(sizes)) == Numel(sizes)
  {
    if InShape(idx, sizes) { MovedInShape(idx, sizes); }
    if InShape(KernelLast(idx), KernelLast(sizes)) { MovedBackInShape(idx, sizes); }
    NumelKernelLast(sizes);
  }

  lemma MovedInShape(idx: seq<nat>, sizes: seq<nat>)
    requires |idx| == |sizes| >= 2 && InShape(idx, sizes)
    ensures InShape(KernelLast(idx), KernelLast(sizes))
  {
  }

  lemma MovedBackInShape(idx: seq<nat>, sizes: seq<nat>)
    requires |idx| == |sizes| >= 2 && InShape(KernelLast(idx), KernelLast(sizes))
    ensures InShape(idx, sizes)
  {
    var n := |sizes|;
    forall d | 0 <= d < n ensures idx[d] < sizes[d] {
      var e := if d >= 2 then d - 2 else n - 1 - d;
      assert KernelLast(idx)[e] == idx[d] && KernelLast(sizes)[e] == sizes[d];
    }
  }

  lemma NumelKernelLast(sizes: seq<nat>)
    requires |sizes| >= 2
    ensures Numel(KernelLast(sizes)) == Numel(sizes)
  {
    NumelReversedPair(sizes[2..], sizes[1], sizes[0]);
    KernelSplit(sizes);
  }

  lemma KernelSplit(sizes: seq<nat>)
    requires |sizes| >= 2
    ensures KernelLast(sizes) == (sizes[2..] + [sizes[1]]) + [sizes[0]]
    ensures sizes == [sizes[0]] + ([sizes[1]] + sizes[2..])
  {
  }

  lemma NumelReversedPair(rest: seq<nat>, c: nat, k: nat)
    ensures Numel((rest + [c]) + [k]) == Numel([k] + ([c] + rest))
  {
    NumelTwoBack(rest, c, k);
    NumelTwoFront(rest, c, k);
    ReverseProduct(k, c, Numel(rest));
  }

  lemma NumelTwoBack(rest: seq<nat>, c: nat, k: nat)
    ensures Numel((rest + [c]) + [k]) == (Numel(rest) * c) * k
  {
    NumelSnoc(rest + [c], k);
    NumelSnoc(rest, c);
  }

  lemma NumelTwoFront(rest: seq<nat>, c: nat, k: nat)
    ensures Numel([k] + ([c] + rest)) == k * (c * Numel(rest))
  {
    NumelHead(k, [c] + rest);
    NumelHead(c, rest);
  }

  lemma NumelHead(n: nat, rest: seq<nat>)
    ensures Numel([n] + rest) == n * Numel(rest)
  {
    assert ([n] + rest)[1..] == rest;
  }

  lemma ReverseProduct(k: nat, c: nat, n: nat)
    ensures (n * c) * k == k * (c * n)
  {
  }

  lemma KernelFirstFacts(moved: seq<nat>)
    requires |moved| >= 2
    ensures KernelLast(KernelFirst(moved)) == moved
  {
  }

  lemma DotKernelLast(idx: seq<nat>, strides: seq<nat>)
    requires |idx| == |strides| >= 2
    ensures Dot(KernelLast(idx), KernelLast(strides)) == Dot(idx, strides)
  {
    DotConcat(idx[2..], [idx[1], idx[0]], strides[2..], [strides[1], strides[0]]);
    DotOfTwo(idx[1], idx[0], strides[1], strides[0]);
    DotOfTwo(idx[0], idx[1], strides[0], strides[1]);
    DotConcat([idx[0], idx[1]], idx[2..], [strides[0], strides[1]], strides[2..]);
    assert idx == [idx[0], idx[1]] + idx[2..] && strides == [strides[0], strides[1]] + strides[2..];
  }

  lemma DotOfTwo(a: nat, b: nat, s: nat, t: nat)
    ensures Dot([a, b], [s, t]) == a * s + b * t
  {
    assert [a, b][1..] == [b] && [s, t][1..] == [t];
    assert Dot([b], [t]) == b * t;
  }

  lemma DotOfFour(idx: seq<nat>, strides: seq<nat>)
    requires |strides| == |idx| == 4
    ensures Dot(idx, strides) == idx[0] * strides[0] + idx[1] * strides[1] + idx[2] * strides[2] + idx[3] * strides[3]
  {
    DotOfTwo(idx[0], idx[1], strides[0], strides[1]);
    DotOfTwo(idx[2], idx[3], strides[2], strides[3]);
    DotConcat([idx[0], idx[1]], [idx[2], idx[3]], [strides[0], strides[1]], [strides[2], strides[3]]);
    assert idx == [idx[0], idx[1]] + [idx[2], idx[3]];
    assert strides == [strides[0], strides[1]] + [strides[2], strides[3]];
  }

  lemma DotOfFive(idx: seq<nat>, strides: seq<nat>)
    requires |strides| == |idx| == 5
    ensures Dot(idx, strides) == idx[0] * strides[0] + idx[1] * strides[1] + idx[3] * strides[3]
                                 + idx[4] * strides[4] + idx[2] * strides[2]
  {
    DotOfFour(idx[..4], strides[..4]);
    DotConcat(idx[..4], [idx[4]], strides[..4], [strides[4]]);
    assert Dot([idx[4]], [strides[4]]) == idx[4] * strides[4];
    assert idx == idx[..4] + [idx[4]] && strides == strides[..4] + [strides[4]];
  }

  // --- the running counter: how many elements the loops visit before a prefix of indices ---

  ghost function Before(a: seq<nat>, t: seq<nat>): nat
    requires |a| <= |t|
  {
    Rank(a, t[..|a|]) * Numel(t[|a|..])
  }

  lemma Start(t: seq<nat>)
    requires t != []
    ensures Before([0], t) == 0
  {
    assert Rank([0], t[..1]) == 0 * Numel(t[..1][1..]) + Rank([0][1..], t[..1][1..]);
  }

  /** Entering the next inner loop visits nothing. */
  lemma Open(a: seq<nat>, t: seq<nat>)
    requires |a| < |t|
    ensures Before(a + [0], t) == Before(a, t)
  {
    PrefixStep(a, 0, t);
  }

  /** One pass of an inner loop visits the block of the dimensions inside it. */
  lemma Next(a: seq<nat>, i: nat, t: seq<nat>)
    requires |a| < |t|
    ensures Before(a + [i + 1], t) == Before(a + [i], t) + Numel(t[|a| + 1..])
  {
    PrefixStep(a, i, t);
    PrefixStep(a, i + 1, t);
    assert (i + 1) * Numel(t[|a| + 1..]) == i * Numel(t[|a| + 1..]) + Numel(t[|a| + 1..]);
  }

  /** A finished inner loop has visited one whole step of the loop around it. */
  lemma Close(a: seq<nat>, i: nat, t: seq<nat>)
    requires |a| + 1 < |t|
    ensures Before(a + [i] + [t[|a| + 1]], t) == Before(a + [i + 1], t)
  {
    PrefixStep(a + [i], t[|a| + 1], t);
    assert t[|a| + 1..][1..] == t[|a| + 2..];
    Next(a, i, t);
  }

  lemma CloseFirst(i: nat, t: seq<nat>)
    requires 1 < |t|
    ensures Before([i] + [t[1]], t) == Before([i + 1], t)
  {
    Close([], i, t);
    assert [] + [i] == [i] && [] + [i + 1] == [i + 1];
  }

  lemma Finish(t: seq<nat>)
    requires t != []
    ensures Before([t[0]], t) == Numel(t)
  {
    PrefixStep([], t[0], t);
    assert [] + [t[0]] == [t[0]];
  }

  lemma PrefixStep(a: seq<nat>, i: nat, t: seq<nat>)
    requires |a| < |t|
    ensures Before(a + [i], t) == Before(a, t) + i * Numel(t[|a| + 1..])
  {
    var m, inner, r := t[|a|], Numel(t[|a| + 1..]), Rank(a, t[..|a|]);
    assert t[..|a| + 1] == t[..|a|] + [m];
    assert t[|a|..][1..] == t[|a| + 1..];
    RankSnoc(a, i, t[..|a|], m);
    MulAssoc(r, m, inner);
    Spread(r * m, i, inner);
  }

  lemma Spread(x: nat, y: nat, n: nat)
    ensures (x + y) * n == x * n + y * n
  {
  }

  /** Horner's rule: a trailing dimension multiplies the rank so far. */
  lemma {:induction false} RankSnoc(a: seq<nat>, i: nat, s: seq<nat>, m: nat)
    requires |a| == |s|
    ensures Rank(a + [i], s + [m]) == Rank(a, s) * m + i
  {
    if a == [] {
      assert [] + [i] == [i] && [] + [m] == [m];
      assert Rank([i], [m]) == i * Numel([m][1..]) + Rank([i][1..], [m][1..]);
    } else {
      assert (a + [i])[1..] == a[1..] + [i] && (s + [m])[1..] == s[1..] + [m];
      RankSnoc(a[1..], i, s[1..], m);
      NumelSnoc(s[1..], m);
      MulAssoc(a[0], Numel(s[1..]), m);
      Spread(a[0] * Numel(s[1..]), Rank(a[1..], s[1..]), m);
    }
  }

  lemma FilledStep(temp: seq<int>, before: seq<int>, idx: seq<nat>, moved: seq<nat>,
                   sizes: seq<nat>, strides: seq<nat>, n: nat)
    requires |sizes| == |strides| == |idx| >= 2 && InBuffer(sizes, strides, |before|) && InShape(idx, sizes)
    requires moved == KernelLast(idx) && n == Before(moved, KernelLast(sizes))
    requires Filled(temp, before, sizes, strides, n) && |temp| == Numel(KernelLast(sizes))
    ensures Dot(idx, strides) < |before| && n < |temp|
    ensures Filled(temp[n := before[Dot(idx, strides)]], before, sizes, strides, n + 1)
  {
    SourceIs(idx, moved, sizes, strides, n);
    OneMoreFilled(temp, before, sizes, strides, n, before[Dot(idx, strides)]);
  }

  /** The running counter is the position of the index, and the old strides give its offset. */
  lemma SourceIs(idx: seq<nat>, moved: seq<nat>, sizes: seq<nat>, strides: seq<nat>, n: nat)
    requires |sizes| == |strides| == |idx| >= 2 && InShape(idx, sizes)
    requires moved == KernelLast(idx) && n == Before(moved, KernelLast(sizes))
    ensures n < Numel(KernelLast(sizes)) && SourceOf(n, sizes, strides) == Dot(idx, strides)
  {
    var t := KernelLast(sizes);
    MovedInShape(idx, sizes);
    BeforeAll(moved, t);
    UnrankRank(moved, t);
    DotKernelLast(idx, strides);
  }

  lemma BeforeAll(a: seq<nat>, t: seq<nat>)
    requires |a| == |t|
    ensures Before(a, t) == Rank(a, t)
  {
    assert t[..|a|] == t && t[|a|..] == [];
  }

  lemma OneMoreFilled(temp: seq<int>, before: seq<int>, sizes: seq<nat>, strides: seq<nat>, n: nat, x: int)
    requires |sizes| == |strides| >= 2 && InBuffer(sizes, strides, |before|)
    requires n < |temp| == Numel(KernelLast(sizes)) && Filled(temp, before, sizes, strides, n)
    requires SourceOf(n, sizes, strides) < |before| && x == before[SourceOf(n, sizes, strides)]
    ensures Filled(temp[n := x], before, sizes, strides, n + 1)
  {
  }
}
