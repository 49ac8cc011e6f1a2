/**
 Chunked collectives: a reduction over the ranks issued slice by slice, in place, against one
 reduction of the whole buffers.
 */
module Collectives {
  import opened IndexSpace

  /** One buffer per rank, element by element; sender and receiver are the same buffer. */
  type Buffers = seq<seq<int>>

  /** Who receives: every rank, or one. */
  datatype Target = Everyone | OnlyRank(rank: nat) {
    predicate Receives(r: nat) { this == Everyone || rank == r }
  }

  ghost predicate SameLength(b: Buffers, n: nat) { forall r :: 0 <= r < |b| ==> |b[r]| == n }

  /** What every rank contributes at one position. */
  function Column(b: Buffers, n: nat, i: nat): (r: seq<int>)
    requires SameLength(b, n) && i < n
    ensures |r| == |b|
  {
    seq(|b|, k requires 0 <= k < |b| => b[k][i])
  }

  /** The library call on elements [lo, lo + count): the receivers get the combined column, all else is unchanged. */
  function ReduceSlice(b: Buffers, n: nat, combine: seq<int> -> int, target: Target, lo: nat, count: nat): (r: Buffers)
    requires SameLength(b, n) && lo + count <= n
    ensures |r| == |b| && SameLength(r, n)
  {
    seq(|b|, k requires 0 <= k < |b| => ReduceBuffer(b, n, combine, target, lo, count, k))
  }

  function ReduceBuffer(b: Buffers, n: nat, combine: seq<int> -> int, target: Target, lo: nat, count: nat, k: nat): (r: seq<int>)
    requires SameLength(b, n) && lo + count <= n && k < |b|
    ensures |r| == n
  {
    seq(n, i requires 0 <= i < n => if lo <= i < lo + count && target.Receives(k) then combine(Column(b, n, i)) else b[k][i])
  }

  /** A slice issued by the loop. */
  datatype Call = Call(start: nat, count: nat)

  /** The slices are non-empty, no longer than the chunk, in order, without gaps or overlaps, and end at `done`. */
  ghost predicate Tiles(calls: seq<Call>, chunk: nat, done: nat) {
    if calls == [] then done == 0
    else
      var last := calls[|calls| - 1];
      0 < last.count <= chunk && last.start + last.count == done && Tiles(calls[..|calls| - 1], chunk, last.start)
  }

  lemma AfterSlice(b: Buffers, n: nat, combine: seq<int> -> int, target: Target, done: nat, count: nat)
    requires SameLength(b, n) && done + count <= n
    ensures ReduceSlice(ReduceSlice(b, n, combine, target, 0, done), n, combine, target, done, count)
            == ReduceSlice(b, n, combine, target, 0, done + count)
  {
    var part := ReduceSlice(b, n, combine, target, 0, done);
    forall i | done <= i < n ensures Column(part, n, i) == Column(b, n, i) { ColumnKept(b, n, combine, target, done, i); }
    var left, right := ReduceSlice(part, n, combine, target, done, count), ReduceSlice(b, n, combine, target, 0, done + count);
    forall k | 0 <= k < |b| ensures left[k] == right[k] {
      forall i | 0 <= i < n ensures left[k][i] == right[k][i] {
        if i < done { assert part[k][i] == if target.Receives(k) then combine(Column(b, n, i)) else b[k][i]; }
      }
    }
  }

  /** Slices done earlier do not touch what a later slice reads, although the buffers are reduced in place. */
  lemma ColumnKept(b: Buffers, n: nat, combine: seq<int> -> int, target: Target, done: nat, i: nat)
    requires SameLength(b, n) && done <= i < n
    ensures Column(ReduceSlice(b, n, combine, target, 0, done), n, i) == Column(b, n, i)
  {
    var part := ReduceSlice(b, n, combine, target, 0, done);
    forall k | 0 <= k < |b| ensures part[k][i] == b[k][i] {}
  }

  /** RunCollective of all-reduce and reduce: the chunk loop, with its byte offset. Its slices tile the
      buffer and their combined effect is one reduction of everything. */
  method RunCollective(b0: Buffers, n: nat, combine: seq<int> -> int, target: Target, sliceBytes: nat, elementSize: nat)
    returns (b: Buffers, ghost calls: seq<Call>)
    requires SameLength(b0, n) && 0 < elementSize <= sliceBytes
    ensures SameLength(b, n) && b == ReduceSlice(b0, n, combine, target, 0, n)
    ensures Tiles(calls, sliceBytes / elementSize, n)
  {
    b, calls := b0, [];
    var remaining: nat, offset: nat := n, 0;
    var chunk := sliceBytes / elementSize;
    AtLeastOne(sliceBytes, elementSize);
    ghost var done: nat := 0;
    NothingReduced(b0, n, combine, target);
    while remaining > 0
      invariant done + remaining == n && offset == done * elementSize
      invariant SameLength(b, n) && b == ReduceSlice(b0, n, combine, target, 0, done)
      invariant Tiles(calls, chunk, done)
      decreases remaining
    {
      var count := if remaining > chunk then chunk else remaining;
      var start := offset / elementSize;
      DivModUnique(done, 0, elementSize);
      b := ReduceSlice(b, n, combine, target, start, count);
      AfterSlice(b0, n, combine, target, done, count);
      ghost var issued := calls + [Call(start, count)];
      assert issued[..|issued| - 1] == calls;
      calls := issued;
      NextOffset(done, count, elementSize);
      offset := offset + count * elementSize;
      done := done + count;
      remaining := remaining - count;
    }
  }

  lemma NothingReduced(b: Buffers, n: nat, combine: seq<int> -> int, target: Target)
    requires SameLength(b, n)
    ensures ReduceSlice(b, n, combine, target, 0, 0) == b
  {
    forall k | 0 <= k < |b| ensures ReduceBuffer(b, n, combine, target, 0, 0, k) == b[k] {}
  }

  lemma AtLeastOne(bytes: nat, size: nat)
    requires 0 < size <= bytes
    ensures bytes / size >= 1
  {
  }

  lemma NextOffset(done: nat, count: nat, size: nat)
    ensures done * size + count * size == (done + count) * size
  {
  }

  predicate Covers(c: Call, i: nat) { c.start <= i < c.start + c.count }

  lemma {:induction false} CallEndsBy(calls: seq<Call>, chunk: nat, done: nat, j: nat)
    requires Tiles(calls, chunk, done) && j < |calls|
    ensures calls[j].start + calls[j].count <= done
  {
    var n := |calls| - 1;
    if j < n { CallEndsBy(calls[..n], chunk, calls[n].start, j); }
  }

  /** The slices partition the buffer: every element is in exactly one of them. */
  lemma {:induction false} CoveredOnce(calls: seq<Call>, chunk: nat, done: nat, i: nat) returns (j: nat)
    requires Tiles(calls, chunk, done) && i < done
    ensures j < |calls| && Covers(calls[j], i)
    ensures forall k :: 0 <= k < |calls| && Covers(calls[k], i) ==> k == j
  {
    var n := |calls| - 1;
    if Covers(calls[n], i) {
      j := n;
      forall k | 0 <= k < n ensures !Covers(calls[k], i) { CallEndsBy(calls[..n], chunk, calls[n].start, k); }
    } else {
      j := CoveredOnce(calls[..n], chunk, calls[n].start, i);
      assert calls[..n][j] == calls[j];
      forall k | 0 <= k < |calls| && Covers(calls[k], i) ensures k == j { assert calls[..n][k] == calls[k]; }
    }
  }

  // --- termination ---

  /** Elements left after k rounds of the loop. */
  function Left(n: nat, chunk: nat, k: nat): nat {
    if k == 0 then n else var r := Left(n, chunk, k - 1); r - if r > chunk then chunk else r
  }

  lemma {:induction false} LeftShrinks(n: nat, chunk: nat, k: nat)
    requires chunk > 0
    ensures Left(n, chunk, k) + k <= n || Left(n, chunk, k) == 0
  {
    if k > 0 { LeftShrinks(n, chunk, k - 1); }
  }

  lemma {:induction false} LeftStuck(n: nat, k: nat)
    ensures Left(n, 0, k) == n
  {
    if k > 0 { LeftStuck(n, k - 1); }
  }

  ghost predicate Ends(n: nat, chunk: nat) { exists k: nat :: Left(n, chunk, k) == 0 }

  /** The loop ends if and only if a chunk holds at least one element, or there is nothing to do: with a
      slice size below the element size every round takes nothing. */
  lemma LoopEndsIff(n: nat, sliceBytes: nat, elementSize: nat)
    requires elementSize > 0
    ensures Ends(n, sliceBytes / elementSize) <==> sliceBytes >= elementSize || n == 0
  {
    var chunk := sliceBytes / elementSize;
    if sliceBytes >= elementSize {
      AtLeastOne(sliceBytes, elementSize);
      LeftShrinks(n, chunk, n + 1);
    } else {
      assert chunk == 0;
      forall k: nat ensures Left(n, chunk, k) == n { LeftStuck(n, k); }
      if n == 0 { assert Left(n, chunk, 0) == 0; }
    }
  }
}
