/**
 HabanaOperator::CalculateStrides: suffix products computed in place, for the
 contiguous format at any rank and for the two channels-last formats.
 */
module TensorLayout {
  import opened IndexSpace

  datatype MemoryFormat = Contiguous | ChannelsLast | ChannelsLast3d

  /** The case split of the source: a format applies only at its own rank. */
  predicate IsChannelsLast(sizes: seq<nat>, format: MemoryFormat) {
    (|sizes| == 5 && format == ChannelsLast3d) || (|sizes| == 4 && format == ChannelsLast)
  }

  /** Move the channel dimension (dimension 1) behind all the others. */
  function ChannelToEnd(s: seq<nat>): (r: seq<nat>)
    requires |s| >= 2
    ensures |r| == |s|
  {
    [s[0]] + s[2..] + [s[1]]
  }

  function ChannelFromEnd(s: seq<nat>): (r: seq<nat>)
    requires |s| >= 2
    ensures |r| == |s|
  {
    [s[0]] + [s[|s| - 1]] + s[1..|s| - 1]
  }

  /** The strides of a buffer stored with its channels innermost, seen in NC... order. */
  function ChannelsLastStrides(sizes: seq<nat>): (r: seq<nat>)
    requires |sizes| >= 2
    ensures |r| == |sizes|
  {
    ChannelFromEnd(ContiguousStrides(ChannelToEnd(sizes)))
  }

  lemma RowMajorCons(n: nat, rest: seq<nat>, all: seq<nat>)
    requires all == [n] + rest
    ensures Numel(all) == n * Numel(rest) && ContiguousStrides(all) == [Numel(rest)] + ContiguousStrides(rest)
  {
    assert all[1..] == rest;
  }

  lemma RowMajorThree(a: nat, b: nat, c: nat)
    ensures Numel([a, b, c]) == a * (b * c) && ContiguousStrides([a, b, c]) == [b * c, c, 1]
  {
    RowMajorCons(c, [], [c]);
    RowMajorCons(b, [c], [b, c]);
    RowMajorCons(a, [b, c], [a, b, c]);
  }

  /** Channels innermost: the neighbouring column is c elements away, the next row w columns, the next sample h rows. */
  lemma ChannelsLastStrides2D(sizes: seq<nat>)
    requires |sizes| == 4
    ensures var (c, h, w) := (sizes[1], sizes[2], sizes[3]); ChannelsLastStrides(sizes) == [h * (w * c), 1, w * c, c]
  {
    var n, c, h, w := sizes[0], sizes[1], sizes[2], sizes[3];
    assert ChannelToEnd(sizes) == [n, h, w, c];
    RowMajorThree(h, w, c);
    RowMajorCons(n, [h, w, c], [n, h, w, c]);
    Rotated4(ContiguousStrides([n, h, w, c]), h * (w * c), w * c, c);
  }

  lemma Rotated4(strides: seq<nat>, x: nat, y: nat, z: nat)
    requires strides == [x] + [y, z, 1]
    ensures ChannelFromEnd(strides) == [x, 1, y, z]
  {
  }

  lemma ChannelsLastStrides3D(sizes: seq<nat>)
    requires |sizes| == 5
    ensures var (c, d, h, w) := (sizes[1], sizes[2], sizes[3], sizes[4]);
            ChannelsLastStrides(sizes) == [d * (h * (w * c)), 1, h * (w * c), w * c, c]
  {
    var n, c, d, h, w := sizes[0], sizes[1], sizes[2], sizes[3], sizes[4];
    assert ChannelToEnd(sizes) == [n, d, h, w, c];
    RowMajorThree(h, w, c);
    RowMajorCons(d, [h, w, c], [d, h, w, c]);
    RowMajorCons(n, [d, h, w, c], [n, d, h, w, c]);
    Rotated5(ContiguousStrides([n, d, h, w, c]), d * (h * (w * c)), h * (w * c), w * c, c);
  }

  lemma Rotated5(strides: seq<nat>, x: nat, y: nat, z: nat, v: nat)
    requires strides == [x] + ([y] + [z, v, 1])
    ensures ChannelFromEnd(strides) == [x, 1, y, z, v]
  {
  }

  method CalculateStrides(sizes: seq<nat>, format: MemoryFormat) returns (result: seq<nat>)
    ensures result == if IsChannelsLast(sizes, format) then ChannelsLastStrides(sizes) else ContiguousStrides(sizes)
    ensures |sizes| == 4 && format == ChannelsLast ==>
              var (c, h, w) := (sizes[1], sizes[2], sizes[3]); result == [h * (w * c), 1, w * c, c]
    ensures |sizes| == 5 && format == ChannelsLast3d ==>
              var (c, d, h, w) := (sizes[1], sizes[2], sizes[3], sizes[4]); result == [d * (h * (w * c)), 1, h * (w * c), w * c, c]
    ensures Dense(sizes, result)
  {
    if IsChannelsLast(sizes, format) {
      if |sizes| == 4 { ChannelsLastStrides2D(sizes); } else { ChannelsLastStrides3D(sizes); }
      result := SuffixProducts(sizes[2..] + [sizes[1]]);
      ChannelsLastAssembled(sizes, result);
      result := [result[0]] + [1] + result[1..];
      ChannelsLastIsDense(sizes);
    } else {
      result := ShiftedProducts(sizes);
      ContiguousAssembled(sizes, result);
      ContiguousIsDense(sizes);
    }
  }

  /** The backward loop of the channels-last case: each entry becomes the product of the list from there on. */
  method SuffixProducts(q: seq<nat>) returns (prod: seq<nat>)
    requires q != []
    ensures |prod| == |q| && forall k :: 0 <= k < |q| ==> prod[k] == Numel(q[k..])
  {
    prod := q;
    var i := |prod| - 2;
    assert q[|q| - 1..] == [q[|q| - 1]];
    NumelOne(q[|q| - 1]);
    while i >= 0
      invariant -1 <= i <= |q| - 2 && |prod| == |q|
      invariant forall k :: 0 <= k <= i ==> prod[k] == q[k]
      invariant forall k :: i < k < |q| ==> prod[k] == Numel(q[k..])
    {
      NumelFrom(q, i);
      prod := prod[i := prod[i] * prod[i + 1]];
      i := i - 1;
    }
  }

  /** The backward loop of the contiguous case, over the sizes shifted by one. */
  method ShiftedProducts(sizes: seq<nat>) returns (result: seq<nat>)
    ensures |result| == |sizes| && forall k :: 0 <= k < |sizes| ==> result[k] == Numel(sizes[k + 1..])
  {
    result := [];
    if sizes != [] {
      result := result + sizes[1..];
      result := result + [1];
    }
    var i := |result| - 3;
    LastProducts(sizes);
    while i >= 0
      invariant i <= |sizes| - 3 && ShiftedBehind(sizes, result, i)
    {
      ShiftedStep(sizes, result, i);
      result := result[i := result[i] * result[i + 1]];
      i := i - 1;
    }
  }

  /** Products behind place i, the sizes still to be multiplied in before it. */
  ghost predicate ShiftedBehind(sizes: seq<nat>, result: seq<nat>, i: int) {
    && |result| == |sizes|
    && (forall k :: 0 <= k <= i && k + 1 < |sizes| ==> result[k] == sizes[k + 1])
    && (forall k :: 0 <= k < |sizes| && i < k ==> result[k] == Numel(sizes[k + 1..]))
  }

  lemma ShiftedStep(sizes: seq<nat>, result: seq<nat>, i: nat)
    requires i + 3 <= |sizes| && ShiftedBehind(sizes, result, i)
    ensures ShiftedBehind(sizes, result[i := result[i] * result[i + 1]], i - 1)
  {
    NumelFrom(sizes, i + 1);
    assert result[i] == sizes[i + 1] && result[i + 1] == Numel(sizes[i + 2..]);
  }

  lemma NumelOne(n: nat)
    ensures Numel([n]) == n
  {
    assert [n][1..] == [];
  }

  lemma NumelFrom(s: seq<nat>, i: nat)
    requires i < |s|
    ensures Numel(s[i..]) == s[i] * Numel(s[i + 1..])
  {
    assert s[i..][1..] == s[i + 1..];
  }

  lemma LastProducts(sizes: seq<nat>)
    ensures sizes != [] ==> Numel(sizes[|sizes|..]) == 1
    ensures |sizes| >= 2 ==> Numel(sizes[|sizes| - 1..]) == sizes[|sizes| - 1]
  {
    if |sizes| >= 2 {
      NumelFrom(sizes, |sizes| - 1);
    }
  }

  lemma ContiguousAssembled(sizes: seq<nat>, result: seq<nat>)
    requires |result| == |sizes| && forall k :: 0 <= k < |sizes| ==> result[k] == Numel(sizes[k + 1..])
    ensures result == ContiguousStrides(sizes)
  {
    forall d | 0 <= d < |sizes| ensures result[d] == ContiguousStrides(sizes)[d] {
      ContiguousAt(sizes, d);
    }
  }

  lemma ChannelsLastAssembled(sizes: seq<nat>, prod: seq<nat>)
    requires |sizes| >= 2 && |prod| == |sizes| - 1
    requires forall k :: 0 <= k < |prod| ==> prod[k] == Numel((sizes[2..] + [sizes[1]])[k..])
    ensures [prod[0]] + [1] + prod[1..] == ChannelsLastStrides(sizes)
  {
    var q, all := sizes[2..] + [sizes[1]], ChannelToEnd(sizes);
    var result := [prod[0]] + [1] + prod[1..];
    forall d | 0 <= d < |result| ensures result[d] == ChannelsLastStrides(sizes)[d] {
      var e := if d == 0 then 0 else if d == 1 then |q| else d - 1;
      ContiguousAt(all, e);
      assert all[e + 1..] == q[e..];
      assert ChannelsLastStrides(sizes)[d] == ContiguousStrides(all)[e];
    }
  }

  // --- channels-last strides enumerate the buffer exactly once ---

  lemma ChannelMove(idx: seq<nat>, sizes: seq<nat>)
    requires |idx| == |sizes| >= 2
    ensures ChannelFromEnd(ChannelToEnd(idx)) == idx && ChannelToEnd(ChannelFromEnd(idx)) == idx
    ensures InShape(idx, sizes) <==> InShape(ChannelToEnd(idx), ChannelToEnd(sizes))
  {
    if InShape(idx, sizes) {
      forall e | 0 <= e < |sizes| ensures ChannelToEnd(idx)[e] < ChannelToEnd(sizes)[e] {
        MovedEntry(idx, e);
        MovedEntry(sizes, e);
      }
    }
    if InShape(ChannelToEnd(idx), ChannelToEnd(sizes)) {
      forall d | 0 <= d < |sizes| ensures idx[d] < sizes[d] { InShapeMoved(idx, sizes, d); }
    }
  }

  lemma MovedEntry(s: seq<nat>, e: nat)
    requires |s| >= 2 && e < |s|
    ensures ChannelToEnd(s)[e] == s[MovedFrom(|s|, e)]
  {
  }

  /** Which dimension sits at place e once the channels are moved to the end. */
  function MovedFrom(n: nat, e: nat): (d: nat)
    requires e < n && n >= 2
    ensures d < n
  {
    if e == 0 then 0 else if e == n - 1 then 1 else e + 1
  }

  lemma InShapeMoved(idx: seq<nat>, sizes: seq<nat>, d: nat)
    requires |idx| == |sizes| >= 2 && d < |sizes| && InShape(ChannelToEnd(idx), ChannelToEnd(sizes))
    ensures idx[d] < sizes[d]
  {
    var e := if d == 0 then 0 else if d == 1 then |sizes| - 1 else d - 1;
    assert ChannelToEnd(idx)[e] < ChannelToEnd(sizes)[e];
  }

  lemma DotChannelMove(idx: seq<nat>, strides: seq<nat>)
    requires |idx| == |strides| >= 2
    ensures Dot(idx, ChannelFromEnd(strides)) == Dot(ChannelToEnd(idx), strides)
  {
    var n := |idx|;
    var i0, i1, rest := [idx[0]], [idx[1]], idx[2..];
    var s0, s1, mid := [strides[0]], [strides[n - 1]], strides[1..n - 1];
    assert idx == i0 + (i1 + rest) && ChannelFromEnd(strides) == s0 + (s1 + mid);
    assert ChannelToEnd(idx) == i0 + (rest + i1) && strides == s0 + (mid + s1);
    DotConcat(i0, i1 + rest, s0, s1 + mid);
    DotConcat(i1, rest, s1, mid);
    DotConcat(i0, rest + i1, s0, mid + s1);
    DotConcat(rest, i1, mid, s1);
  }

  lemma NumelChannelMove(sizes: seq<nat>)
    requires |sizes| >= 2
    ensures Numel(ChannelToEnd(sizes)) == Numel(sizes)
  {
    NumelTailMove(sizes);
  }

  lemma NumelTailMove(sizes: seq<nat>)
    requires |sizes| >= 2
    ensures Numel(ChannelToEnd(sizes)[1..]) == Numel(sizes[1..])
  {
    assert ChannelToEnd(sizes)[1..] == sizes[2..] + [sizes[1]];
    assert sizes[1..] == [sizes[1]] + sizes[2..];
    NumelRotated(sizes[1], sizes[2..]);
  }

  lemma NumelRotated(n: nat, rest: seq<nat>)
    ensures Numel(rest + [n]) == Numel([n] + rest)
  {
    NumelSnoc(rest, n);
    assert ([n] + rest)[1..] == rest;
  }

  lemma ChannelsLastIsDense(sizes: seq<nat>)
    requires |sizes| >= 2
    ensures Dense(sizes, ChannelsLastStrides(sizes))
  {
    var moved := ChannelToEnd(sizes);
    var p := ContiguousStrides(moved);
    var st := ChannelsLastStrides(sizes);
    ContiguousIsDense(moved);
    NumelChannelMove(sizes);
    forall idx | InShape(idx, sizes) ensures Dot(idx, st) < Numel(sizes) {
      ChannelMove(idx, sizes);
      DotChannelMove(idx, p);
    }
    forall a, b | InShape(a, sizes) && InShape(b, sizes) && Dot(a, st) == Dot(b, st) ensures a == b {
      ChannelMove(a, sizes);
      ChannelMove(b, sizes);
      DotChannelMove(a, p);
      DotChannelMove(b, p);
    }
    forall j | 0 <= j < Numel(sizes) ensures IsOffset(j, sizes, st) {
      assert IsOffset(j, moved, p);
      var m :| InShape(m, moved) && Dot(m, p) == j;
      var idx := ChannelFromEnd(m);
      ChannelMove(m, m);
      ChannelMove(idx, sizes);
      DotChannelMove(idx, p);
    }
  }
}
