/**
 Slice arithmetic of slice_insert: clamping the bounds, validating a slice against its tensor,
 and the start values invented for the maximum pass of shape inference.
 */
module SliceInsert {
  datatype Outcome<T> = Ok(value: T) | Refused

  const INT64_MAX: int := 0x7fff_ffff_ffff_ffff

  datatype Slice = Slice(dim: nat, start: int, end: int)

  /** at::maybe_wrap_dim. */
  function WrapDim(dim: int, rank: nat): Outcome<nat> {
    if 0 <= dim < rank then Ok(dim) else if dim < 0 && 0 <= dim + rank then Ok((dim + rank) as nat) else Refused
  }

  /** FixSliceParams: reference parameters clamped in place. */
  method FixSliceParams(sizes: seq<nat>, dim0: int, start0: int, end0: int, step: int) returns (r: Outcome<Slice>)
    ensures r.Refused? <==> |sizes| == 0 || WrapDim(dim0, |sizes|).Refused? || step <= 0
    ensures r.Ok? ==> r.value.dim < |sizes| && Ok(r.value.dim) == WrapDim(dim0, |sizes|)
                      && r.value.start == ClampStart(start0, sizes[r.value.dim])
                      && r.value.end == ClampEnd(end0, r.value.start, sizes[r.value.dim])
  {
    if |sizes| == 0 {
      return Refused;
    }
    var wrapped := WrapDim(dim0, |sizes|);
    if wrapped.Refused? || step <= 0 {
      return Refused;
    }
    var dim, start, end := wrapped.value, start0, end0;
    if start == INT64_MAX {
      start := 0;
    }
    if start < 0 {
      start := start + sizes[dim];
    }
    if end < 0 {
      end := end + sizes[dim];
    }
    if start < 0 {
      start := 0;
    } else if start >= sizes[dim] {
      start := sizes[dim];
    }
    if end < start {
      end := start;
    } else if end >= sizes[dim] {
      end := sizes[dim];
    }
    r := Ok(Slice(dim, start, end));
  }

  function Clamp(x: int, lo: int, hi: int): int { if x < lo then lo else if x > hi then hi else x }

  function FromBack(x: int, size: nat): int { if x < 0 then x + size else x }

  /** The start bound; the largest integer stands for an absent one. */
  function ClampStart(start: int, size: nat): (r: nat)
    ensures r <= size
  {
    Clamp(FromBack(if start == INT64_MAX then 0 else start, size), 0, size)
  }

  function ClampEnd(end: int, start: nat, size: nat): (r: nat)
    requires start <= size
    ensures start <= r <= size
  {
    Clamp(FromBack(end, size), start, size)
  }

  // --- the indices of a slice ---

  /** Index i is selected by start, start + step, ... below end. */
  predicate Selected(i: int, start: int, end: int, step: int)
    requires step > 0
  {
    start <= i < end && (i - start) % step == 0
  }

  /** Index i lies at or behind a bound. A negative bound names the index counted from the back: i is also i - size. */
  predicate AtOrBehind(i: int, bound: int, size: nat) {
    if bound < 0 then i - size >= bound else i >= bound
  }

  /** The first index of the sequence at or behind the bound. */
  predicate FirstBehind(j: int, bound: int, size: nat) {
    0 <= j < size && AtOrBehind(j, bound, size) && (j > 0 ==> !AtOrBehind(j - 1, bound, size))
  }

  /** Python's slice: whole steps from the first index at or behind start, while in the sequence and before
      end. An absent start is the largest integer and means the first index. */
  ghost predicate PythonSelected(i: int, start: int, end: int, step: int, size: nat)
    requires step > 0
  {
    && 0 <= i < size && !AtOrBehind(i, end, size)
    && StepsFrom(i, if start == INT64_MAX then 0 else start, step, size)
  }

  /** Index i is some steps behind the first index at or behind the bound. */
  ghost predicate StepsFrom(i: int, bound: int, step: int, size: nat)
    requires step > 0
  {
    exists j :: FirstBehind(j, bound, size) && j <= i && (i - j) % step == 0
  }

  /** The fixed bounds are ordered and inside the tensor, and select exactly the indices Python selects. */
  lemma FixedSliceIsPython(start: int, end: int, step: int, size: nat, i: int)
    requires step > 0
    ensures var from := ClampStart(start, size);
            var to := ClampEnd(end, from, size);
            0 <= from <= to <= size && (Selected(i, from, to, step) <==> PythonSelected(i, start, end, step, size))
  {
    var from := ClampStart(start, size);
    var bound := if start == INT64_MAX then 0 else start;
    if from < size { assert FirstBehind(from, bound, size); }
    forall j | FirstBehind(j, bound, size) ensures j == from {}
  }

  /** How many indices a slice selects, rounding up. */
  function SliceLength(start: nat, end: nat, step: int): (n: nat)
    requires step > 0 && start <= end
  {
    (end - start + step - 1) / step
  }

  lemma MulLe(a: int, b: int, n: int)
    requires a <= b && n > 0
    ensures a * n <= b * n
  {
  }

  lemma DivFloor(x: int, n: int)
    requires n > 0
    ensures x / n * n <= x < (x / n + 1) * n
  {
  }

  /** The k-th index is inside the slice exactly for k below its length. */
  lemma LengthCounts(start: nat, end: nat, step: int, k: nat)
    requires step > 0 && start <= end
    ensures k < SliceLength(start, end, step) <==> start + k * step < end
  {
    var x := end - start + step - 1;
    var n := x / step;
    DivFloor(x, step);
    if k < n { MulLe(k + 1, n, step); } else { MulLe(n, k, step); }
  }

  // --- the validator ---

  /** The last element of a slice of `out` elements, plus one. */
  function EndOf(out: int, step: int, start: int): int { out * step + 1 - step + start }

  predicate Valid(inp: int, out: int, step: int, start: int) {
    (inp != 0 ==> start < inp) && EndOf(out, step, start) <= inp
  }

  /** ValidateSliceInsertInputs: dimension by dimension, refusing at the first violation. */
  method ValidateSliceInsertInputs(inp: seq<int>, out: seq<int>, step: seq<int>, start: seq<int>) returns (ok: bool)
    requires |inp| == |out| == |step| == |start|
    ensures ok <==> forall i :: 0 <= i < |inp| ==> Valid(inp[i], out[i], step[i], start[i])
  {
    for i := 0 to |inp|
      invariant forall j :: 0 <= j < i ==> Valid(inp[j], out[j], step[j], start[j])
    {
      if inp[i] != 0 && !(start[i] < inp[i]) {
        return false;
      }
      var end := out[i] * step[i] + 1 - step[i] + start[i];
      if !(end <= inp[i]) {
        return false;
      }
    }
    ok := true;
  }

  /** A slice with fixed bounds passes the validator exactly when it does not start at the end of a
      non-empty dimension; so every non-empty slice passes. */
  lemma FixedSliceValidates(start: int, end: int, step: int, size: nat)
    requires step > 0
    ensures var from := ClampStart(start, size);
            var to := ClampEnd(end, from, size);
            && (Valid(size, SliceLength(from, to, step), step, from) <==> size == 0 || from < size)
            && (from < to ==> Valid(size, SliceLength(from, to, step), step, from))
  {
    var from := ClampStart(start, size);
    var to := ClampEnd(end, from, size);
    var n := SliceLength(from, to, step);
    if n > 0 {
      LengthCounts(from, to, step, n - 1);
      assert (n - 1) * step == n * step - step;
    } else {
      LengthCounts(from, to, step, 0);
    }
  }

  // --- the maximum pass ---

  const DEFAULT_MAX_MULTIPLIER: int := 2

  /** Division as C++ does it. */
  function Truncated(x: int, n: int): int
    requires n > 0
  {
    if x >= 0 then x / n else -((-x) / n)
  }

  /** The bucket of a dimension: its minimum and maximum start, if there are buckets. */
  datatype Bucket = NoBucket | Bucket(lo: int, hi: int)

  function MaxOut(inp: int, out: int): int { if out < inp then out else inp }

  /** The bucket rule raises a start that was zero to half the bucket's maximum. */
  predicate Raised(inp: int, out: int, step: int, start: int, b: Bucket) {
    var o := MaxOut(inp, out);
    && o != 0 && start * step != inp - o * step && start * step == 0
    && b.Bucket? && b.lo != b.hi && inp - o * step < Truncated(b.hi, DEFAULT_MAX_MULTIPLIER)
  }

  function MaxStart(inp: int, out: int, step: int, start: int, b: Bucket): int {
    var o := MaxOut(inp, out);
    if o == 0 then start
    else if Raised(inp, out, step, start, b) then Truncated(b.hi, DEFAULT_MAX_MULTIPLIER)
    else inp - o * step
  }

  /** One dimension of UpdateMaxPassSliceInputs. */
  method UpdateDimension(inp: int, out0: int, step: int, start0: int, b: Bucket) returns (out: int, start: int)
    ensures out == MaxOut(inp, out0) && start == MaxStart(inp, out0, step, start0, b)
    ensures out <= inp && out <= out0 && (out == inp || out == out0)
  {
    out, start := out0, start0;
    if !(out < inp) {
      out := inp;
    }
    if out != 0 {
      var oldStart := start * step;
      start := inp - out * step;
      if oldStart != start {
        if b.Bucket? && b.lo != b.hi && oldStart == 0 {
          var current := Truncated(b.hi, DEFAULT_MAX_MULTIPLIER);
          if start < current {
            start := current;
          }
        }
      }
    }
  }

  /** Lexicographic comparison of vectors. */
  predicate LexLe(a: seq<int>, b: seq<int>) {
    if a == [] then true
    else if b == [] then false
    else a[0] < b[0] || (a[0] == b[0] && LexLe(a[1..], b[1..]))
  }

  /** The vectors agree up to place k, where a is smaller. */
  ghost predicate SmallerAt(a: seq<int>, b: seq<int>, k: nat) { k < |a| && k < |b| && a[..k] == b[..k] && a[k] < b[k] }

  /** One vector is at most the other exactly when it is its front or smaller at the first difference. */
  lemma {:induction false} LexLeIff(a: seq<int>, b: seq<int>)
    ensures LexLe(a, b) <==> a <= b || exists k: nat :: SmallerAt(a, b, k)
    decreases |a|
  {
    if a != [] && b != [] && a[0] == b[0] {
      LexLeIff(a[1..], b[1..]);
      if exists k: nat :: SmallerAt(a[1..], b[1..], k) {
        var k: nat :| SmallerAt(a[1..], b[1..], k);
        assert a[..k + 1] == [a[0]] + a[1..][..k] && b[..k + 1] == [b[0]] + b[1..][..k];
        assert SmallerAt(a, b, k + 1);
      }
      if exists k: nat :: SmallerAt(a, b, k) {
        var k: nat :| SmallerAt(a, b, k);
        assert a[1..][..k - 1] == a[..k][1..] && b[1..][..k - 1] == b[..k][1..];
        assert SmallerAt(a[1..], b[1..], k - 1);
      }
      assert a == [a[0]] + a[1..] && b == [b[0]] + b[1..];
    } else if a != [] && b != [] && a[0] < b[0] {
      assert SmallerAt(a, b, 0);
    } else if a != [] && b != [] {
      forall k: nat ensures !SmallerAt(a, b, k) { AgreesFirst(a, b, k); }
    }
  }

  lemma AgreesFirst(a: seq<int>, b: seq<int>, k: nat)
    requires a != [] && b != []
    ensures SmallerAt(a, b, k) ==> a[0] <= b[0]
  {
    if k > 0 && SmallerAt(a, b, k) { assert a[..k][0] == b[..k][0]; }
  }

  function BucketAt(lo: seq<int>, hi: seq<int>, i: nat): Bucket
    requires |lo| == |hi| && (lo != [] ==> i < |lo|)
  {
    if lo == [] then NoBucket else Bucket(lo[i], hi[i])
  }

  /** UpdateMaxPassSliceInputs: both vectors updated in place, and the minimum start checked at the end. */
  method UpdateMaxPassSliceInputs(inp: seq<int>, out0: seq<int>, step: seq<int>, start0: seq<int>, lo: seq<int>, hi: seq<int>)
    returns (out: seq<int>, start: seq<int>, ok: bool)
    requires |inp| == |out0| == |step| == |start0| && |lo| == |hi| && (lo == [] || |lo| == |inp|)
    ensures |out| == |start| == |inp|
    ensures forall i :: 0 <= i < |inp| ==> out[i] == MaxOut(inp[i], out0[i])
    ensures forall i :: 0 <= i < |inp| ==> start[i] == MaxStart(inp[i], out0[i], step[i], start0[i], BucketAt(lo, hi, i))
    ensures ok <==> LexLe(lo, start)
  {
    out, start := out0, start0;
    for i := 0 to |inp|
      invariant |out| == |start| == |inp|
      invariant forall j :: 0 <= j < i ==> out[j] == MaxOut(inp[j], out0[j])
      invariant forall j :: 0 <= j < i ==> start[j] == MaxStart(inp[j], out0[j], step[j], start0[j], BucketAt(lo, hi, j))
      invariant forall j :: i <= j < |inp| ==> out[j] == out0[j] && start[j] == start0[j]
    {
      var o, s := UpdateDimension(inp[i], out[i], step[i], start[i], BucketAt(lo, hi, i));
      out := out[i := o];
      start := start[i := s];
    }
    ok := LexLe(lo, start);
  }

  /** After the maximum pass a dimension that receives elements still validates, unless its start was
      raised too far: an invented start always fits, a raised one exactly when the slice from there does. */
  lemma MaxPassValidates(inp: nat, out: nat, step: int, start: int, b: Bucket)
    requires step > 0 && MaxOut(inp, out) > 0
    ensures var o, s := MaxOut(inp, out), MaxStart(inp, out, step, start, b);
            && (!Raised(inp, out, step, start, b) ==> Valid(inp, o, step, s))
            && (Raised(inp, out, step, start, b) ==>
                  (Valid(inp, o, step, s) <==> EndOf(o, step, Truncated(b.hi, DEFAULT_MAX_MULTIPLIER)) <= inp))
  {
    var o := MaxOut(inp, out);
    MulLe(1, o, step);
  }

  /** The invented start may lie before the tensor, which the validator does not see: it is non-negative
      exactly when the elements fit with their step. */
  lemma InventedStartInside(inp: nat, out: nat, step: int, start: int)
    requires step > 0 && MaxOut(inp, out) > 0
    ensures MaxStart(inp, out, step, start, NoBucket) >= 0 <==> MaxOut(inp, out) * step <= inp
    ensures Valid(inp, MaxOut(inp, out), step, MaxStart(inp, out, step, start, NoBucket))
  {
    MaxPassValidates(inp, out, step, start, NoBucket);
  }
}
