/**
 A tensor as a strided window on a flat storage, the two device operations that
 read and write through such a window, and the laws that make them a lens.
 */
module StridedViews {
  import opened IndexSpace

  /** The three view parameters that the graph carries as constants. */
  datatype View = View(sizes: seq<nat>, strides: seq<nat>, offset: nat) {
    ghost predicate WellFormed() { |sizes| == |strides| }
  }

  /** The storage position of element j, counted in row-major order of the view. */
  function Pos(v: View, j: nat): nat
    requires |v.sizes| == |v.strides| && j < Numel(v.sizes)
  {
    v.offset + Dot(Unrank(j, v.sizes), v.strides)
  }

  /** Every element of the view lies inside a storage of n elements. */
  ghost predicate Fits(v: View, n: nat) {
    |v.sizes| == |v.strides| && forall j: nat :: j < Numel(v.sizes) ==> Pos(v, j) < n
  }

  /** No two elements of the view share a storage position. */
  ghost predicate Injective(v: View) {
    |v.sizes| == |v.strides| &&
    forall i: nat, j: nat :: i < Numel(v.sizes) && j < Numel(v.sizes) && Pos(v, i) == Pos(v, j) ==> i == j
  }

  ghost predicate Covers(v: View, p: nat) {
    |v.sizes| == |v.strides| && exists j: nat :: j < Numel(v.sizes) && Pos(v, j) == p
  }

  /** as_strided: the elements of the view, in row-major order. */
  ghost function ReadView(base: seq<int>, v: View): (r: seq<int>)
    requires Fits(v, |base|)
    ensures |r| == Numel(v.sizes)
    ensures forall j: nat :: j < |r| ==> r[j] == base[Pos(v, j)]
  {
    seq(Numel(v.sizes), j requires 0 <= j < Numel(v.sizes) => base[Pos(v, j)])
  }

  /** The storage after the first n elements of src were written through the view. */
  ghost function InsertUpTo(base: seq<int>, v: View, src: seq<int>, n: nat): (r: seq<int>)
    requires Fits(v, |base|) && |src| == Numel(v.sizes) && n <= |src|
    ensures |r| == |base|
  {
    if n == 0 then base else InsertUpTo(base, v, src, n - 1)[Pos(v, n - 1) := src[n - 1]]
  }

  /** strided_insert: a copy of the storage with src written through the view. */
  ghost function InsertView(base: seq<int>, v: View, src: seq<int>): (r: seq<int>)
    requires Fits(v, |base|) && |src| == Numel(v.sizes)
    ensures |r| == |base|
  {
    InsertUpTo(base, v, src, |src|)
  }

  // --- what a position holds after an insert ---

  lemma {:induction false} InsertUpToFrame(base: seq<int>, v: View, src: seq<int>, n: nat, p: nat)
    requires Fits(v, |base|) && |src| == Numel(v.sizes) && n <= |src| && p < |base|
    requires forall j: nat :: j < n ==> Pos(v, j) != p
    ensures InsertUpTo(base, v, src, n)[p] == base[p]
  {
    if n > 0 {
      InsertUpToFrame(base, v, src, n - 1, p);
      assert Pos(v, n - 1) != p;
    }
  }

  /** The last element written to a position is the one it keeps. */
  lemma {:induction false} InsertUpToLast(base: seq<int>, v: View, src: seq<int>, n: nat, k: nat)
    requires Fits(v, |base|) && |src| == Numel(v.sizes) && k < n <= |src|
    requires forall j: nat :: k < j < n ==> Pos(v, j) != Pos(v, k)
    ensures InsertUpTo(base, v, src, n)[Pos(v, k)] == src[k]
  {
    if n > k + 1 {
      InsertUpToLast(base, v, src, n - 1, k);
      assert Pos(v, n - 1) != Pos(v, k);
    }
  }

  /** Storage outside the view is untouched. */
  lemma InsertFrame(base: seq<int>, v: View, src: seq<int>, p: nat)
    requires Fits(v, |base|) && |src| == Numel(v.sizes) && p < |base| && !Covers(v, p)
    ensures InsertView(base, v, src)[p] == base[p]
  {
    InsertUpToFrame(base, v, src, |src|, p);
  }

  /** Put-get: reading back an insert yields the inserted data for every
      data and storage exactly when the index map is injective. */
  lemma InsertThenViewIffInjective(v: View, n: nat)
    requires Fits(v, n)
    ensures (forall base: seq<int>, src: seq<int> :: |base| == n && |src| == Numel(v.sizes) ==>
               ReadView(InsertView(base, v, src), v) == src)
            <==> Injective(v)
  {
    if Injective(v) {
      forall base: seq<int>, src: seq<int> | |base| == n && |src| == Numel(v.sizes)
        ensures ReadView(InsertView(base, v, src), v) == src
      {
        InsertThenView(base, v, src);
      }
    } else {
      var base, src := CollidingInsert(v, n);
    }
  }

  /** Two indices at one position: numbering the elements shows that one of them is lost. */
  lemma CollidingInsert(v: View, n: nat) returns (base: seq<int>, src: seq<int>)
    requires Fits(v, n) && !Injective(v)
    ensures |base| == n && |src| == Numel(v.sizes) && ReadView(InsertView(base, v, src), v) != src
  {
    var i: nat, j: nat :| i < Numel(v.sizes) && j < Numel(v.sizes) && Pos(v, i) == Pos(v, j) && i != j;
    base := seq(n, _ => 0);
    src := seq(Numel(v.sizes), k => k);
    var back := ReadView(InsertView(base, v, src), v);
    assert back[i] == back[j] && src[i] != src[j];
  }

  lemma InsertThenView(base: seq<int>, v: View, src: seq<int>)
    requires Fits(v, |base|) && |src| == Numel(v.sizes) && Injective(v)
    ensures ReadView(InsertView(base, v, src), v) == src
  {
    var out := InsertView(base, v, src);
    forall k: nat | k < |src| ensures ReadView(out, v)[k] == src[k] {
      InsertUpToLast(base, v, src, |src|, k);
    }
  }

  lemma SameUpdate(was: seq<int>, now: seq<int>, base: seq<int>, p: nat, x: int)
    requires was == base && p < |base| && now == was[p := x] && base[p] == x
    ensures now == base
  {
  }

  lemma InsertOne(base: seq<int>, v: View, src: seq<int>, k: nat, n: nat)
    requires Fits(v, |base|) && |src| == Numel(v.sizes) && n == k + 1 && n <= |src|
    ensures InsertUpTo(base, v, src, n) == InsertUpTo(base, v, src, k)[Pos(v, k) := src[k]]
  {
  }

  lemma {:induction false} InsertReadUpTo(base: seq<int>, v: View, src: seq<int>, n: nat)
    requires Fits(v, |base|) && src == ReadView(base, v) && n <= |src|
    ensures InsertUpTo(base, v, src, n) == base
  {
    if n > 0 {
      var k := n - 1;
      InsertReadUpTo(base, v, src, k);
      InsertOne(base, v, src, k, n);
      SameUpdate(InsertUpTo(base, v, src, k), InsertUpTo(base, v, src, n), base, Pos(v, k), src[k]);
    }
  }

  /** Get-put: writing back what was read changes nothing, injective or not. */
  lemma ViewThenInsert(base: seq<int>, v: View)
    requires Fits(v, |base|)
    ensures InsertView(base, v, ReadView(base, v)) == base
  {
    InsertReadUpTo(base, v, ReadView(base, v), Numel(v.sizes));
  }

  /** Put-put: the second of two inserts through one view wins everywhere. */
  lemma InsertTwice(base: seq<int>, v: View, a: seq<int>, b: seq<int>)
    requires Fits(v, |base|) && |a| == |b| == Numel(v.sizes)
    ensures InsertView(InsertView(base, v, a), v, b) == InsertView(base, v, b)
  {
    var mid := InsertView(base, v, a);
    forall p: nat | p < |base| ensures InsertView(mid, v, b)[p] == InsertView(base, v, b)[p] {
      if Covers(v, p) {
        var k := LastWriter(v, p, |b|);
        InsertUpToLast(mid, v, b, |b|, k);
        InsertUpToLast(base, v, b, |b|, k);
      } else {
        InsertFrame(mid, v, b, p);
        InsertFrame(base, v, b, p);
        InsertFrame(base, v, a, p);
      }
    }
  }

  lemma {:induction false} LastWriter(v: View, p: nat, n: nat) returns (k: nat)
    requires |v.sizes| == |v.strides| && n <= Numel(v.sizes)
    requires exists j: nat :: j < n && Pos(v, j) == p
    ensures k < n && Pos(v, k) == p
    ensures forall j: nat :: k < j < n ==> Pos(v, j) != p
  {
    if Pos(v, n - 1) == p { k := n - 1; } else { k := LastWriter(v, p, n - 1); }
  }

  /** A covered position holds the same whatever the storage held before; any other is kept. */
  lemma InsertAt(before: seq<int>, other: seq<int>, v: View, src: seq<int>, p: nat)
    requires Fits(v, |before|) && |other| == |before| && |src| == Numel(v.sizes) && p < |before|
    ensures InsertView(before, v, src)[p] == if Covers(v, p) then InsertView(other, v, src)[p] else before[p]
  {
    if Covers(v, p) {
      var k := LastWriter(v, p, |src|);
      InsertUpToLast(before, v, src, |src|, k);
      InsertUpToLast(other, v, src, |src|, k);
    } else {
      InsertFrame(before, v, src, p);
    }
  }

  /** Inserting one number everywhere leaves it at every covered position. */
  lemma InsertConstant(base: seq<int>, v: View, src: seq<int>, p: nat, c: int)
    requires Fits(v, |base|) && |src| == Numel(v.sizes) && p < |base| && Covers(v, p)
    requires forall k :: 0 <= k < |src| ==> src[k] == c
    ensures InsertView(base, v, src)[p] == c
  {
    var k := LastWriter(v, p, |src|);
    InsertUpToLast(base, v, src, |src|, k);
  }

  /** Inserts through views that share no position commute. */
  lemma InsertsCommute(base: seq<int>, v: View, a: seq<int>, w: View, b: seq<int>)
    requires Fits(v, |base|) && |a| == Numel(v.sizes)
    requires Fits(w, |base|) && |b| == Numel(w.sizes)
    requires forall p: nat :: !(Covers(v, p) && Covers(w, p))
    ensures InsertView(InsertView(base, v, a), w, b) == InsertView(InsertView(base, w, b), v, a)
  {
    var va, wb := InsertView(base, v, a), InsertView(base, w, b);
    forall p: nat | p < |base| ensures InsertView(va, w, b)[p] == InsertView(wb, v, a)[p] {
      if Covers(v, p) {
        var k := LastWriter(v, p, |a|);
        InsertUpToLast(base, v, a, |a|, k);
        InsertUpToLast(wb, v, a, |a|, k);
        InsertFrame(va, w, b, p);
      } else {
        InsertFrame(wb, v, a, p);
        InsertFrame(base, v, a, p);
        if Covers(w, p) {
          var k := LastWriter(w, p, |b|);
          InsertUpToLast(base, w, b, |b|, k);
          InsertUpToLast(va, w, b, |b|, k);
        } else {
          InsertFrame(va, w, b, p);
          InsertFrame(base, w, b, p);
        }
      }
    }
  }

  // --- the memory check of the strided kernels ---

  /** How far the last index of one dimension lies from its first. */
  function Reach(stride: nat, size: nat): nat {
    if size == 0 then 0 else stride * (size - 1)
  }

  /** The largest offset a non-empty view reaches beyond its own base offset. */
  function Span(sizes: seq<nat>, strides: seq<nat>): nat
    requires |sizes| == |strides|
  {
    if sizes == [] then 0
    else Reach(strides[0], sizes[0]) + Span(sizes[1..], strides[1..])
  }

  lemma {:induction false} DotWithinSpan(idx: seq<nat>, sizes: seq<nat>, strides: seq<nat>)
    requires InShape(idx, sizes) && |strides| == |sizes|
    ensures Dot(idx, strides) <= Span(sizes, strides)
  {
    if idx != [] {
      DotWithinSpan(idx[1..], sizes[1..], strides[1..]);
      WithinReach(idx[0], sizes[0], strides[0]);
      FirstDimension(idx, sizes, strides, idx[0] * strides[0]);
    }
  }

  lemma WithinReach(i: nat, size: nat, stride: nat)
    requires i < size
    ensures i * stride <= Reach(stride, size)
  {
    MulMono(i, size - 1, stride);
  }

  lemma FirstDimension(idx: seq<nat>, sizes: seq<nat>, strides: seq<nat>, first: nat)
    requires |idx| == |sizes| == |strides| > 0 && first == idx[0] * strides[0]
    ensures Dot(idx, strides) == first + Dot(idx[1..], strides[1..])
    ensures Span(sizes, strides) == Reach(strides[0], sizes[0]) + Span(sizes[1..], strides[1..])
  {
  }

  function LastIndex(sizes: seq<nat>): (idx: seq<nat>)
    ensures |idx| == |sizes|
  {
    if sizes == [] then [] else [if sizes[0] == 0 then 0 else sizes[0] - 1] + LastIndex(sizes[1..])
  }

  lemma {:induction false} LastIndexReachesSpan(sizes: seq<nat>, strides: seq<nat>)
    requires |strides| == |sizes| && Numel(sizes) > 0
    ensures InShape(LastIndex(sizes), sizes) && Dot(LastIndex(sizes), strides) == Span(sizes, strides)
  {
    if sizes != [] {
      assert Numel(sizes[1..]) > 0 && sizes[0] > 0;
      LastIndexReachesSpan(sizes[1..], strides[1..]);
      assert LastIndex(sizes)[1..] == LastIndex(sizes[1..]);
      InShapeCons(sizes[0] - 1, LastIndex(sizes[1..]), sizes);
    }
  }

  /** A view fits a storage iff it is empty or its last element does. */
  lemma FitsIffLastFits(v: View, n: nat)
    requires |v.sizes| == |v.strides|
    ensures Fits(v, n) <==> Numel(v.sizes) == 0 || v.offset + Span(v.sizes, v.strides) < n
  {
    forall j: nat | j < Numel(v.sizes) ensures Pos(v, j) <= v.offset + Span(v.sizes, v.strides) {
      DotWithinSpan(Unrank(j, v.sizes), v.sizes, v.strides);
    }
    if Numel(v.sizes) > 0 {
      LastIndexReachesSpan(v.sizes, v.strides);
      UnrankRank(LastIndex(v.sizes), v.sizes);
      assert Pos(v, Rank(LastIndex(v.sizes), v.sizes)) == v.offset + Span(v.sizes, v.strides);
    }
  }
}
