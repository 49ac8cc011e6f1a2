/**
 The bounds check of the strided view and strided insert kernels
 (verifyViewMemoryAccess), with the 32-bit product and the 64-bit sum it really computes.
 */
module MemoryCheck {
  import opened IndexSpace
  import opened StridedViews

  const TWO_32: nat := 0x1_0000_0000
  const TWO_31: nat := 0x8000_0000
  const TWO_63: nat := 0x8000_0000_0000_0000
  const TWO_64: nat := 0x1_0000_0000_0000_0000

  /** A 32-bit pattern read as int and then widened to uint64_t. */
  function SignExtend(bits: nat): nat
    requires bits < TWO_32
  {
    if bits < TWO_31 then bits else bits + (TWO_64 - TWO_32)
  }

  /** The element count the check works with. */
  function CountedElements(base: seq<nat>): nat {
    SignExtend(Numel(base) % TWO_32)
  }

  /** What the check answers. */
  ghost predicate Accepts(base: seq<nat>, v: View)
    requires v.WellFormed()
  {
    || CountedElements(base) == 0
    || Numel(v.sizes) == 0
    || Wrap64(v.offset + Span(v.sizes, v.strides)) < CountedElements(base)
  }

  /** std::multiplies<unsigned> on the running product. */
  function Multiply32(acc: nat, x: nat): nat {
    (acc * (x % TWO_32)) % TWO_32
  }

  /** A sum kept in uint64_t. */
  function Wrap64(x: nat): nat {
    x % TWO_64
  }

  /** std::accumulate over the base sizes, as an int. */
  method CountElements(base: seq<nat>) returns (n: nat)
    ensures n == CountedElements(base)
  {
    var acc: nat := 1;
    for i := 0 to |base|
      invariant acc == Numel(base[..i]) % TWO_32
    {
      assert base[..i + 1] == base[..i] + [base[i]];
      MultiplyStep(base[..i], base[i]);
      acc := Multiply32(acc, base[i]);
    }
    assert base[..|base|] == base;
    n := SignExtend(acc);
  }

  method VerifyViewMemoryAccess(base: seq<nat>, v: View) returns (ok: bool)
    requires v.WellFormed()
    ensures ok == Accepts(base, v)
    ensures 0 < Numel(base) < TWO_31 && v.offset + Span(v.sizes, v.strides) < TWO_64 ==>
              (ok <==> Fits(v, Numel(base)))
  {
    ExactBelowInt(base, v);
    NumelZero(v.sizes);
    var elements := CountElements(base);
    if elements == 0 {
      return true;
    }
    var last: nat := 0;
    ghost var total: nat := 0;
    for d := 0 to |v.sizes|
      invariant forall k :: 0 <= k < d ==> v.sizes[k] != 0
      invariant total == Span(v.sizes[..d], v.strides[..d])
      invariant last == Wrap64(total)
    {
      if v.sizes[d] == 0 {
        return true;
      }
      var reach := Reach(v.strides[d], v.sizes[d]);
      WrapSum(total, reach);
      last := Wrap64(last + reach);
      total := total + reach;
      assert v.sizes[..d + 1] == v.sizes[..d] + [v.sizes[d]];
      assert v.strides[..d + 1] == v.strides[..d] + [v.strides[d]];
      SpanSnoc(v.sizes[..d], v.strides[..d], v.sizes[d], v.strides[d]);
    }
    assert v.sizes[..|v.sizes|] == v.sizes && v.strides[..|v.strides|] == v.strides;
    WrapSum(total, v.offset);
    ok := Wrap64(last + v.offset) < elements;
  }

  lemma ExactBelowInt(base: seq<nat>, v: View)
    requires v.WellFormed()
    ensures 0 < Numel(base) < TWO_31 && v.offset + Span(v.sizes, v.strides) < TWO_64 ==>
              (Accepts(base, v) <==> Fits(v, Numel(base)))
  {
    var n, last := Numel(base), v.offset + Span(v.sizes, v.strides);
    FitsIffLastFits(v, n);
    if 0 < n < TWO_31 && last < TWO_64 {
      SmallNumbersUnchanged(n, last);
    }
  }

  lemma SmallNumbersUnchanged(n: nat, last: nat)
    requires n < TWO_31 && last < TWO_64
    ensures SignExtend(n % TWO_32) == n && Wrap64(last) == last
  {
  }

  /** Over a non-empty base, the check agrees with the definition of an in-bounds
      view for every view whose last offset fits in 64 bits exactly when the base
      has fewer than 2^31 elements: beyond that the 32-bit product misleads it. */
  lemma CheckExactIffCountFitsInt(base: seq<nat>)
    requires 0 < Numel(base) < TWO_63
    ensures (forall v: View :: v.WellFormed() && v.offset + Span(v.sizes, v.strides) < TWO_64 ==>
               (Accepts(base, v) <==> Fits(v, Numel(base))))
            <==> Numel(base) < TWO_31
  {
    var n := Numel(base);
    if n < TWO_31 {
      forall v: View | v.WellFormed() && v.offset + Span(v.sizes, v.strides) < TWO_64
        ensures Accepts(base, v) <==> Fits(v, n)
      {
        ExactBelowInt(base, v);
      }
    } else {
      MisledBeyondInt(base);
    }
  }

  /** A one-element view at the counted size if that is too small, else just past the base. */
  lemma MisledBeyondInt(base: seq<nat>)
    requires TWO_31 <= Numel(base) < TWO_63
    ensures exists v: View :: v.WellFormed() && v.offset + Span(v.sizes, v.strides) < TWO_64
                              && !(Accepts(base, v) <==> Fits(v, Numel(base)))
  {
    var n, m := Numel(base), CountedElements(base);
    CountMissesLargeBase(n);
    var v := View([1], [1], if 0 < m < n then m else n);
    assert Span([1], [1]) == 0;
    assert Numel([1]) == 1;
    FitsIffLastFits(v, n);
  }

  lemma CountMissesLargeBase(n: nat)
    requires TWO_31 <= n < TWO_63
    ensures SignExtend(n % TWO_32) != n && (n % TWO_32 >= TWO_31 ==> SignExtend(n % TWO_32) > n)
  {
  }

  lemma MultiplyStep(s: seq<nat>, x: nat)
    ensures Multiply32(Numel(s) % TWO_32, x) == Numel(s + [x]) % TWO_32
  {
    var p, m := Numel(s), TWO_32;
    NumelSnoc(s, x);
    ModMulLeft(p, x % m, m);
    assert p * (x % m) == (x % m) * p;
    ModMulLeft(x, p, m);
    assert x * p == p * x;
  }

  lemma WrapSum(a: nat, b: nat)
    ensures Wrap64(Wrap64(a) + b) == Wrap64(a + b)
  {
    ModAdd(a, b, TWO_64);
  }

  /** A base of 2^32 elements is counted as empty, so any view of it is accepted. */
  lemma CountWrapsToZero()
    ensures Accepts([0x1_0000, 0x1_0000], View([1], [1], 0x1_0000_0000))
    ensures !Fits(View([1], [1], 0x1_0000_0000), Numel([0x1_0000, 0x1_0000]))
  {
    var v := View([1], [1], 0x1_0000_0000);
    assert Numel([0x1_0000, 0x1_0000]) == 0x1_0000 * Numel([0x1_0000]);
    assert Numel([0x1_0000]) == 0x1_0000;
    assert Span([1], [1]) == 0;
    assert Numel([1]) == 1;
    FitsIffLastFits(v, 0x1_0000_0000);
  }

  // --- arithmetic of the two accumulators ---

  lemma {:induction false} SpanSnoc(sizes: seq<nat>, strides: seq<nat>, size: nat, stride: nat)
    requires |sizes| == |strides|
    ensures Span(sizes + [size], strides + [stride]) == Span(sizes, strides) + Reach(stride, size)
  {
    if sizes == [] {
      assert [] + [size] == [size] && [] + [stride] == [stride];
    } else {
      SpanSnoc(sizes[1..], strides[1..], size, stride);
      assert (sizes + [size])[1..] == sizes[1..] + [size];
      assert (strides + [stride])[1..] == strides[1..] + [stride];
    }
  }

  lemma ModMulLeft(a: nat, b: nat, m: nat)
    requires m > 0
    ensures ((a % m) * b) % m == (a * b) % m
  {
    assert a == (a / m) * m + a % m;
    ModMulParts(a / m, a % m, b, m);
  }

  lemma ModMulParts(q: nat, r: nat, b: nat, m: nat)
    requires m > 0
    ensures ((q * m + r) * b) % m == (r * b) % m
  {
    Distribute(q, m, r, b);
    ModShift(r * b, q * b, m);
  }

  lemma Distribute(q: nat, m: nat, r: nat, b: nat)
    ensures (q * m + r) * b == (q * b) * m + r * b
  {
    calc {
      (q * m + r) * b;
      (q * m) * b + r * b;
      { MulAssoc(q, m, b); MulAssoc(q, b, m); }
      (q * b) * m + r * b;
    }
  }

  lemma ModShift(x: nat, t: nat, m: nat)
    requires m > 0
    ensures (t * m + x) % m == x % m
  {
    var q, r := x / m, x % m;
    assert x == q * m + r;
    assert t * m + x == (t + q) * m + r by { assert (t + q) * m == t * m + q * m; }
    DivModUnique(t + q, r, m);
  }

  lemma ModAdd(a: nat, b: nat, m: nat)
    requires m > 0
    ensures (a % m + b) % m == (a + b) % m
  {
    assert a + b == (a / m) * m + (a % m + b);
    ModShift(a % m + b, a / m, m);
  }
}
