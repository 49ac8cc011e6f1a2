/**
 Row-major index arithmetic shared by the strided-view, layout and relayout models:
 shapes, linear indices, stride products, and the facts that tie them together.
 */
module IndexSpace {

  /** The number of elements of a shape. The empty shape has one element. */
  function Numel(sizes: seq<nat>): nat {
    if sizes == [] then 1 else sizes[0] * Numel(sizes[1..])
  }

  predicate InShape(idx: seq<nat>, sizes: seq<nat>) {
    |idx| == |sizes| && forall d :: 0 <= d < |sizes| ==> idx[d] < sizes[d]
  }

  /** The offset a multi-index denotes under a stride vector. */
  function Dot(idx: seq<nat>, strides: seq<nat>): nat
    requires |idx| == |strides|
  {
    if idx == [] then 0 else idx[0] * strides[0] + Dot(idx[1..], strides[1..])
  }

  /** The row-major position of a multi-index. */
  function Rank(idx: seq<nat>, sizes: seq<nat>): nat
    requires |idx| == |sizes|
  {
    if idx == [] then 0 else idx[0] * Numel(sizes[1..]) + Rank(idx[1..], sizes[1..])
  }

  /** The multi-index at a row-major position. */
  function Unrank(j: nat, sizes: seq<nat>): (idx: seq<nat>)
    requires j < Numel(sizes)
    ensures InShape(idx, sizes)
    decreases |sizes|
  {
    if sizes == [] then []
    else
      var n := Numel(sizes[1..]);
      DivBound(j, sizes[0], n);
      var rest := Unrank(j % n, sizes[1..]);
      InShapeCons(j / n, rest, sizes);
      [j / n] + rest
  }

  lemma InShapeCons(i: nat, rest: seq<nat>, sizes: seq<nat>)
    requires sizes != [] && i < sizes[0] && InShape(rest, sizes[1..])
    ensures InShape([i] + rest, sizes)
  {
    forall d | 0 <= d < |sizes| ensures ([i] + rest)[d] < sizes[d] {
      if d > 0 { assert rest[d - 1] < sizes[1..][d - 1]; }
    }
  }

  function ContiguousStrides(sizes: seq<nat>): (strides: seq<nat>)
    ensures |strides| == |sizes|
  {
    if sizes == [] then [] else [Numel(sizes[1..])] + ContiguousStrides(sizes[1..])
  }

  /** Strides whose offsets enumerate [0, Numel) without gap or overlap. */
  ghost predicate Dense(sizes: seq<nat>, strides: seq<nat>) {
    && |strides| == |sizes|
    && (forall idx :: InShape(idx, sizes) ==> Dot(idx, strides) < Numel(sizes))
    && (forall a, b :: InShape(a, sizes) && InShape(b, sizes) && Dot(a, strides) == Dot(b, strides) ==> a == b)
    && (forall j :: 0 <= j < Numel(sizes) ==> IsOffset(j, sizes, strides))
  }

  ghost predicate IsOffset(j: int, sizes: seq<nat>, strides: seq<nat>)
    requires |strides| == |sizes|
  {
    exists idx :: InShape(idx, sizes) && Dot(idx, strides) == j
  }

  // --- arithmetic ---

  lemma DivBound(j: nat, m: nat, n: nat)
    requires j < m * n
    ensures n > 0
    ensures j / n < m && j % n < n && j == (j / n) * n + j % n
  {
    if j / n >= m {
      assert (j / n) * n >= m * n by { MulMono(m, j / n, n); }
    }
  }

  lemma MulMono(a: nat, b: nat, n: nat)
    requires a <= b
    ensures a * n <= b * n
  {
  }

  /** Quotient and remainder by n are determined by the decomposition. */
  lemma DivModUnique(q: nat, r: nat, n: nat)
    requires r < n
    ensures (q * n + r) / n == q && (q * n + r) % n == r
  {
    var x := q * n + r;
    DivBound(x, q + 1, n);
    if x / n < q { MulMono(x / n + 1, q, n); }
    assert x / n == q;
  }

  // --- row-major ranks ---

  lemma {:induction false} RankBound(idx: seq<nat>, sizes: seq<nat>)
    requires InShape(idx, sizes)
    ensures Rank(idx, sizes) < Numel(sizes)
  {
    if idx != [] {
      var n := Numel(sizes[1..]);
      RankBound(idx[1..], sizes[1..]);
      MulMono(idx[0] + 1, sizes[0], n);
    }
  }

  lemma {:induction false} UnrankRank(idx: seq<nat>, sizes: seq<nat>)
    requires InShape(idx, sizes)
    ensures Rank(idx, sizes) < Numel(sizes)
    ensures Unrank(Rank(idx, sizes), sizes) == idx
  {
    RankBound(idx, sizes);
    if idx != [] {
      var n := Numel(sizes[1..]);
      UnrankRank(idx[1..], sizes[1..]);
      DivModUnique(idx[0], Rank(idx[1..], sizes[1..]), n);
      assert idx == [idx[0]] + idx[1..];
    }
  }

  lemma {:induction false} RankUnrank(j: nat, sizes: seq<nat>)
    requires j < Numel(sizes)
    ensures Rank(Unrank(j, sizes), sizes) == j
  {
    if sizes != [] {
      var n := Numel(sizes[1..]);
      DivBound(j, sizes[0], n);
      RankUnrank(j % n, sizes[1..]);
      assert Unrank(j, sizes)[1..] == Unrank(j % n, sizes[1..]);
    }
  }

  lemma {:induction false} DotContiguous(idx: seq<nat>, sizes: seq<nat>)
    requires |idx| == |sizes|
    ensures Dot(idx, ContiguousStrides(sizes)) == Rank(idx, sizes)
  {
    if idx != [] {
      DotContiguous(idx[1..], sizes[1..]);
      assert ContiguousStrides(sizes)[1..] == ContiguousStrides(sizes[1..]);
    }
  }

  /** Row-major strides enumerate the buffer exactly once, for every rank. */
  lemma ContiguousIsDense(sizes: seq<nat>)
    ensures Dense(sizes, ContiguousStrides(sizes))
  {
    var st := ContiguousStrides(sizes);
    forall idx | InShape(idx, sizes) ensures Dot(idx, st) < Numel(sizes) {
      DotContiguous(idx, sizes);
      RankBound(idx, sizes);
    }
    forall a, b | InShape(a, sizes) && InShape(b, sizes) && Dot(a, st) == Dot(b, st) ensures a == b {
      DotContiguous(a, sizes);
      DotContiguous(b, sizes);
      UnrankRank(a, sizes);
      UnrankRank(b, sizes);
    }
    forall j | 0 <= j < Numel(sizes) ensures IsOffset(j, sizes, st) {
      var idx := Unrank(j, sizes);
      RankUnrank(j, sizes);
      DotContiguous(idx, sizes);
    }
  }

  lemma {:induction false} ContiguousAt(sizes: seq<nat>, d: nat)
    requires d < |sizes|
    ensures ContiguousStrides(sizes)[d] == Numel(sizes[d + 1..])
  {
    if d > 0 {
      ContiguousAt(sizes[1..], d - 1);
      assert sizes[1..][d..] == sizes[d + 1..];
    }
  }

  lemma {:induction false} NumelZero(sizes: seq<nat>)
    ensures Numel(sizes) == 0 <==> exists d :: 0 <= d < |sizes| && sizes[d] == 0
  {
    if sizes != [] {
      NumelZero(sizes[1..]);
      if sizes[0] == 0 {
        assert Numel(sizes) == 0;
      } else if Numel(sizes[1..]) == 0 {
        var d :| 0 <= d < |sizes[1..]| && sizes[1..][d] == 0;
        assert sizes[d + 1] == 0;
      } else {
        forall d | 0 <= d < |sizes| ensures sizes[d] != 0 {
          if d > 0 { assert sizes[d] == sizes[1..][d - 1]; }
        }
      }
    }
  }

  lemma {:induction false} NumelSnoc(s: seq<nat>, x: nat)
    ensures Numel(s + [x]) == Numel(s) * x
  {
    if s == [] {
      assert [] + [x] == [x];
    } else {
      NumelSnoc(s[1..], x);
      assert (s + [x])[1..] == s[1..] + [x];
      MulAssoc(s[0], Numel(s[1..]), x);
    }
  }

  lemma MulAssoc(a: nat, b: nat, c: nat)
    ensures a * (b * c) == (a * b) * c
  {
  }

  lemma {:induction false} DotConcat(a: seq<nat>, b: seq<nat>, s: seq<nat>, t: seq<nat>)
    requires |a| == |s| && |b| == |t|
    ensures Dot(a + b, s + t) == Dot(a, s) + Dot(b, t)
  {
    if a == [] {
      assert a + b == b && s + t == t;
    } else {
      DotConcat(a[1..], b, s[1..], t);
      assert (a + b)[1..] == a[1..] + b && (s + t)[1..] == s[1..] + t;
    }
  }
}
