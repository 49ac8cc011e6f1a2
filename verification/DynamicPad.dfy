/**
 The output shape of a padded tensor, twice: from the host payload of the dynamic op, in 32-bit
 arithmetic, and from the pad list as the static kernel computes it.
 */
module DynamicPad {
  import opened DynamicParams

  datatype Outcome = Sizes(sizes: seq<int>) | Refused

  // --- the static shape ---

  /** The size of dimension d (from the front) grows by its pair; pairs count from the last dimension. */
  function PadOf(pads: seq<int>, rank: nat, d: nat): int
    requires d < rank
  {
    var pair := rank - 1 - d;
    if 2 * pair + 1 < |pads| then pads[2 * pair] + pads[2 * pair + 1] else 0
  }

  function Padded(sizes: seq<int>, pads: seq<int>): (r: seq<int>)
    ensures |r| == |sizes|
  {
    seq(|sizes|, d requires 0 <= d < |sizes| => sizes[d] + PadOf(pads, |sizes|, d))
  }

  /** PadOperator::compute_output_shape. */
  method ComputeOutputShape(sizes: seq<int>, pads: seq<int>) returns (r: Outcome)
    ensures r == if |pads| % 2 == 0 && |pads| / 2 <= |sizes|
                    && (forall d :: |sizes| - |pads| / 2 <= d < |sizes| ==> Padded(sizes, pads)[d] > 0)
                 then Sizes(Padded(sizes, pads)) else Refused
  {
    var lpad := |pads| / 2;
    if |pads| % 2 != 0 || !(|sizes| >= lpad) {
      return Refused;
    }
    var shape := sizes;
    for i := 0 to lpad
      invariant |shape| == |sizes|
      invariant forall d :: 0 <= d < |sizes| ==>
                  shape[d] == if d >= |sizes| - i then Padded(sizes, pads)[d] else sizes[d]
      invariant forall d :: |sizes| - i <= d < |sizes| ==> shape[d] > 0
    {
      var d := |sizes| - i - 1;
      shape := shape[d := shape[d] + (pads[2 * i] + pads[2 * i + 1])];
      assert shape[d] == Padded(sizes, pads)[d];
      if !(shape[d] > 0) {
        return Refused;
      }
    }
    assert shape == Padded(sizes, pads);
    r := Sizes(shape);
  }

  // --- the dynamic shape ---

  /** Signed 32-bit addition that wraps. */
  function Add32(a: int, b: int): int { Cast(I32, a + b) }

  /** The pad pair of a payload for dimension d: befores in the first half, afters in the second. */
  function HostPad(payload: seq<int>, rank: nat, d: nat): int
    requires d < rank <= MAX_DIMENSIONS_NUM && |payload| == 2 * MAX_DIMENSIONS_NUM
  {
    Add32(Cast(I32, payload[rank - 1 - d]), Cast(I32, payload[MAX_DIMENSIONS_NUM + (rank - 1 - d)]))
  }

  function HostPadded(sizes: seq<int>, payload: seq<int>): (r: seq<int>)
    requires |sizes| <= MAX_DIMENSIONS_NUM && |payload| == 2 * MAX_DIMENSIONS_NUM
    ensures |r| == |sizes|
  {
    seq(|sizes|, d requires 0 <= d < |sizes| => sizes[d] + HostPad(payload, |sizes|, d))
  }

  /** The shape part of ConstantPad2dOperatorDS::UpdateDynamicInputs: the elements reread as signed, one
      pair added per dimension of the new tensor; more dimensions than pad slots are refused. */
  method UpdateShape(sizes: seq<int>, payload: seq<int>) returns (r: Outcome)
    requires |payload| == 2 * MAX_DIMENSIONS_NUM
    ensures r == if |sizes| <= MAX_DIMENSIONS_NUM then Sizes(HostPadded(sizes, payload)) else Refused
  {
    var ndim := |sizes|;
    if !(|payload| / 2 >= ndim) {
      return Refused;
    }
    var shape := sizes;
    for i := 0 to ndim
      invariant |shape| == ndim
      invariant forall d :: 0 <= d < ndim ==> shape[d] == if d >= ndim - i then HostPadded(sizes, payload)[d] else sizes[d]
    {
      var before, after := Cast(I32, payload[i]), Cast(I32, payload[MAX_DIMENSIONS_NUM + i]);
      shape := shape[ndim - i - 1 := shape[ndim - i - 1] + Add32(before, after)];
    }
    assert shape == HostPadded(sizes, payload);
    r := Sizes(shape);
  }

  // --- agreement ---

  predicate FitsInt32(x: int) { -(TWO32 / 2) <= x < TWO32 / 2 }

  /** Every pad pair adds up to a 32-bit number; the pads themselves may be larger, and negative. */
  predicate PairsFit(pads: seq<int>, rank: nat) {
    forall d :: 0 <= d < rank ==> FitsInt32(PadOf(pads, rank, d))
  }

  /** Wrapping each pad and the sum is wrapping the sum. */
  lemma WrappedSum(a: int, b: int)
    ensures Add32(Cast(I32, a), Cast(I32, b)) == Cast(I32, a + b)
  {
    var p := CastShifts(I32, a);
    var q := CastShifts(I32, b);
    CastCongruent(I32, a + b, Cast(I32, a) + Cast(I32, b), p + q);
  }

  lemma CastIsIdentityIff(x: int)
    ensures Cast(I32, x) == x <==> FitsInt32(x)
  {
  }

  /** The payload element a pad ends up as, seen as a signed number again. */
  lemma PayloadPad(pads: seq<Operand>, stack: Stack, k: nat)
    requires AllResolve(pads, stack) && |pads| / 2 <= MAX_DIMENSIONS_NUM && k < 2 * MAX_DIMENSIONS_NUM
    requires AllResolve(PadLayout(pads).operands, stack)
    ensures Cast(I32, Payload(PadLayout(pads), stack)[k]) == Cast(I32, ValueOf(PadOperands(pads)[k], stack))
  {
    var x := ValueOf(PadOperands(pads)[k], stack);
    var word := RecordOf(PadLayout(pads), stack).host.words[k];
    CastThroughWord(I32, I32, x);
    var turns := CastShifts(U32, word);
    CastCongruent(I32, word, Cast(U32, word), turns);
    CastThroughInt64(I32, Cast(U32, word));
  }

  lemma PairOf(pads: seq<Operand>, stack: Stack, rank: nat, d: nat)
    requires AllResolve(pads, stack) && |pads| % 2 == 0 && |pads| / 2 <= rank <= MAX_DIMENSIONS_NUM && d < rank
    requires AllResolve(PadLayout(pads).operands, stack)
    ensures HostPad(Payload(PadLayout(pads), stack), rank, d) == Cast(I32, PadOf(Values(pads, stack), rank, d))
  {
    var pair := rank - 1 - d;
    var ps := PadOperands(pads);
    PayloadPad(pads, stack, pair);
    PayloadPad(pads, stack, MAX_DIMENSIONS_NUM + pair);
    WrappedSum(ValueOf(ps[pair], stack), ValueOf(ps[MAX_DIMENSIONS_NUM + pair], stack));
    PairInOperands(pads, stack, rank, d, pair);
  }

  lemma PairInOperands(pads: seq<Operand>, stack: Stack, rank: nat, d: nat, pair: nat)
    requires AllResolve(pads, stack) && |pads| % 2 == 0 && |pads| / 2 <= rank <= MAX_DIMENSIONS_NUM && d < rank
    requires pair == rank - 1 - d && AllResolve(PadOperands(pads), stack)
    ensures ValueOf(PadOperands(pads)[pair], stack) + ValueOf(PadOperands(pads)[MAX_DIMENSIONS_NUM + pair], stack)
            == PadOf(Values(pads, stack), rank, d)
  {
    assert pair % MAX_DIMENSIONS_NUM == pair && (MAX_DIMENSIONS_NUM + pair) % MAX_DIMENSIONS_NUM == pair;
    assert pair / MAX_DIMENSIONS_NUM == 0 && (MAX_DIMENSIONS_NUM + pair) / MAX_DIMENSIONS_NUM == 1;
  }

  /** The dynamic pad agrees with the static pad, exactly: from the payload of any launch, recorded or
      patched, the dynamic shape is the static one if and only if every pad pair of the launch adds up
      to a 32-bit number. Negative pads are covered: they survive the trip through unsigned elements. */
  lemma DynamicPadIsStaticIff(pads: seq<Operand>, sizes: seq<int>, stack: Stack)
    requires |pads| % 2 == 0 && |pads| / 2 <= |sizes| <= MAX_DIMENSIONS_NUM
    requires AllResolve(pads, stack) && AllResolve(PadLayout(pads).operands, stack)
    ensures HostPadded(sizes, Payload(PadLayout(pads), stack)) == Padded(sizes, Values(pads, stack))
            <==> PairsFit(Values(pads, stack), |sizes|)
  {
    var dynamic, plain := HostPadded(sizes, Payload(PadLayout(pads), stack)), Padded(sizes, Values(pads, stack));
    forall d | 0 <= d < |sizes| ensures dynamic[d] == plain[d] <==> FitsInt32(PadOf(Values(pads, stack), |sizes|, d)) {
      PairOf(pads, stack, |sizes|, d);
      CastIsIdentityIff(PadOf(Values(pads, stack), |sizes|, d));
    }
    if dynamic == plain {
      forall d | 0 <= d < |sizes| ensures FitsInt32(PadOf(Values(pads, stack), |sizes|, d)) { assert dynamic[d] == plain[d]; }
    }
  }
}
