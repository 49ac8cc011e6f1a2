/**
 The operator key as the words that are hashed one after another. Entries are told apart by their
 index words only, so the words determine the entries where the entries have the same lengths.
 */
module KeyWords {
  import opened StridedViews
  import opened JitGraph
  import opened EagerGraph
  import opened OperatorKey

  /** A number among the words is not told from a hashed integer. */
  function NatWords(s: seq<nat>): (r: seq<IValue>)
    ensures |r| == |s| && forall i :: 0 <= i < |s| ==> r[i] == Int(s[i])
  {
    seq(|s|, i requires 0 <= i < |s| => Int(s[i]))
  }

  function TypeWord(c: IValue): IValue {
    match c
    case None => Int(0)
    case Bool(_) => Int(1)
    case Int(_) => Int(2)
    case Str(_) => Int(3)
    case IntList(_) => Int(4)
    case BoolList(_) => Int(5)
  }

  function SectionWords(s: Section): seq<IValue> {
    if s.Section? then [Int(s.id)] else []
  }

  function WindowWords(w: Window): seq<IValue> {
    if w.Window? then NatWords(w.view.strides) + NatWords(w.view.sizes) + [Int(w.view.offset)] else []
  }

  /** What is hashed for an entry, behind its index. */
  function EntryWords(e: Entry): seq<IValue> {
    match e
    case Skipped => []
    case Words(words) => words
    case ScalarWord(c) => [c, TypeWord(c)]
    case TensorWords(section, dtype, viewLowering, contiguous, window, rank, zst) =>
      SectionWords(section) + [Int(dtype), Bool(viewLowering), Bool(contiguous)] + WindowWords(window)
      + [Int(rank)] + if zst then [Int(1)] else []
  }

  function Stream(entries: seq<Entry>, index: nat): seq<IValue> {
    if entries == [] then [] else [Int(index)] + EntryWords(entries[0]) + Stream(entries[1..], index + 1)
  }

  /** A tensor's window is there exactly where the views are hashed, and has the tensor's rank. */
  predicate WellSized(e: Entry, caching: bool) {
    e.TensorWords? ==>
      && (e.window.Window? <==> caching && (e.viewLowering || !e.contiguous))
      && (e.window.Window? ==> |e.window.view.sizes| == |e.window.view.strides| == e.rank)
  }

  /** Entries of one kind and length; for tensors, both or neither with a section. */
  predicate SameFrame(x: Entry, y: Entry) {
    && |EntryWords(x)| == |EntryWords(y)|
    && match (x, y)
       case (Skipped, Skipped) => true
       case (Words(_), Words(_)) => true
       case (ScalarWord(_), ScalarWord(_)) => true
       case (TensorWords(s, _, _, _, _, _, _), TensorWords(t, _, _, _, _, _, _)) => s.Section? == t.Section?
       case _ => false
  }

  ghost predicate SameFrames(xs: seq<Entry>, ys: seq<Entry>) {
    |xs| == |ys| && forall i :: 0 <= i < |xs| ==> SameFrame(xs[i], ys[i])
  }

  ghost predicate AllWellSized(xs: seq<Entry>, caching: bool) { forall i :: 0 <= i < |xs| ==> WellSized(xs[i], caching) }

  lemma SplitWords(a: seq<IValue>, b: seq<IValue>, c: seq<IValue>, d: seq<IValue>)
    requires a + b == c + d && |a| == |c|
    ensures a == c && b == d
  {
    assert (a + b)[..|a|] == a && (c + d)[..|c|] == c;
    assert (a + b)[|a|..] == b && (c + d)[|c|..] == d;
  }

  lemma WindowFromWords(v: Window, w: Window)
    requires v.Window? && w.Window? && WindowWords(v) == WindowWords(w)
    requires |v.view.sizes| == |v.view.strides| == |w.view.sizes| == |w.view.strides|
    ensures v == w
  {
    var n := |v.view.sizes|;
    SplitWords(NatWords(v.view.strides) + NatWords(v.view.sizes), [Int(v.view.offset)],
               NatWords(w.view.strides) + NatWords(w.view.sizes), [Int(w.view.offset)]);
    SplitWords(NatWords(v.view.strides), NatWords(v.view.sizes), NatWords(w.view.strides), NatWords(w.view.sizes));
    forall i | 0 <= i < n ensures v.view.strides[i] == w.view.strides[i] && v.view.sizes[i] == w.view.sizes[i] {
      assert NatWords(v.view.strides)[i] == NatWords(w.view.strides)[i];
      assert NatWords(v.view.sizes)[i] == NatWords(w.view.sizes)[i];
    }
  }

  /** The words of a tensor behind its section. */
  function TensorTail(e: Entry): seq<IValue>
    requires e.TensorWords?
  {
    WindowWords(e.window) + ([Int(e.rank)] + if e.zst then [Int(1)] else [])
  }

  lemma TensorParts(e: Entry)
    requires e.TensorWords?
    ensures EntryWords(e) == (SectionWords(e.section) + [Int(e.dtype), Bool(e.viewLowering), Bool(e.contiguous)]) + TensorTail(e)
  {
  }

  lemma TensorFromWords(x: Entry, y: Entry, caching: bool)
    requires x.TensorWords? && y.TensorWords? && SameFrame(x, y) && WellSized(x, caching) && WellSized(y, caching)
    requires EntryWords(x) == EntryWords(y)
    ensures x == y
  {
    var a := SectionWords(x.section) + [Int(x.dtype), Bool(x.viewLowering), Bool(x.contiguous)];
    var b := SectionWords(y.section) + [Int(y.dtype), Bool(y.viewLowering), Bool(y.contiguous)];
    TensorParts(x);
    TensorParts(y);
    SplitWords(a, TensorTail(x), b, TensorTail(y));
    SplitWords(SectionWords(x.section), [Int(x.dtype), Bool(x.viewLowering), Bool(x.contiguous)],
               SectionWords(y.section), [Int(y.dtype), Bool(y.viewLowering), Bool(y.contiguous)]);
    assert [Int(x.dtype), Bool(x.viewLowering), Bool(x.contiguous)][0] == Int(y.dtype);
    assert [Int(x.dtype), Bool(x.viewLowering), Bool(x.contiguous)][1] == Bool(y.viewLowering);
    assert [Int(x.dtype), Bool(x.viewLowering), Bool(x.contiguous)][2] == Bool(y.contiguous);
    if x.section.Section? { assert SectionWords(x.section)[0] == SectionWords(y.section)[0]; }
    TailFromWords(x, y);
  }

  lemma TailFromWords(x: Entry, y: Entry)
    requires x.TensorWords? && y.TensorWords? && TensorTail(x) == TensorTail(y) && x.window.Window? == y.window.Window?
    requires x.window.Window? ==> |x.window.view.sizes| == |x.window.view.strides| == x.rank
    requires y.window.Window? ==> |y.window.view.sizes| == |y.window.view.strides| == y.rank
    ensures x.window == y.window && x.rank == y.rank && x.zst == y.zst
  {
    assert |TensorTail(x)| == |TensorTail(y)|;
    SplitWords(WindowWords(x.window), [Int(x.rank)] + if x.zst then [Int(1)] else [],
               WindowWords(y.window), [Int(y.rank)] + if y.zst then [Int(1)] else []);
    assert ([Int(x.rank)] + if x.zst then [Int(1)] else [])[0] == Int(y.rank);
    if x.window.Window? { WindowFromWords(x.window, y.window); }
  }

  lemma EntryFromWords(x: Entry, y: Entry, caching: bool)
    requires SameFrame(x, y) && WellSized(x, caching) && WellSized(y, caching)
    ensures EntryWords(x) == EntryWords(y) <==> x == y
  {
    if EntryWords(x) == EntryWords(y) {
      match (x, y) {
        case (ScalarWord(c), ScalarWord(d)) => assert EntryWords(x)[0] == EntryWords(y)[0];
        case (TensorWords(_, _, _, _, _, _, _), TensorWords(_, _, _, _, _, _, _)) => TensorFromWords(x, y, caching);
        case _ =>
      }
    }
  }

  /** Entries of the same frames leave the same words exactly when they are the same. */
  lemma {:induction false} StreamIff(xs: seq<Entry>, ys: seq<Entry>, index: nat, caching: bool)
    requires SameFrames(xs, ys) && AllWellSized(xs, caching) && AllWellSized(ys, caching)
    ensures Stream(xs, index) == Stream(ys, index) <==> xs == ys
    decreases |xs|
  {
    if xs != [] {
      var a, b := [Int(index)] + EntryWords(xs[0]), [Int(index)] + EntryWords(ys[0]);
      assert SameFrame(xs[0], ys[0]) && WellSized(xs[0], caching) && WellSized(ys[0], caching);
      FramesOfTail(xs, ys, caching);
      StreamIff(xs[1..], ys[1..], index + 1, caching);
      EntryFromWords(xs[0], ys[0], caching);
      if Stream(xs, index) == Stream(ys, index) {
        SplitWords(a, Stream(xs[1..], index + 1), b, Stream(ys[1..], index + 1));
        SplitWords([Int(index)], EntryWords(xs[0]), [Int(index)], EntryWords(ys[0]));
        assert xs == [xs[0]] + xs[1..] && ys == [ys[0]] + ys[1..];
      }
    }
  }

  lemma FramesOfTail(xs: seq<Entry>, ys: seq<Entry>, caching: bool)
    requires SameFrames(xs, ys) && AllWellSized(xs, caching) && AllWellSized(ys, caching) && xs != []
    ensures SameFrames(xs[1..], ys[1..]) && AllWellSized(xs[1..], caching) && AllWellSized(ys[1..], caching)
  {
    forall i | 0 <= i < |xs[1..]|
      ensures SameFrame(xs[1..][i], ys[1..][i]) && WellSized(xs[1..][i], caching) && WellSized(ys[1..][i], caching)
    {
      assert SameFrame(xs[i + 1], ys[i + 1]) && WellSized(xs[i + 1], caching) && WellSized(ys[i + 1], caching);
    }
  }

  /** Without equal lengths an index word may be taken for an element: [1, 7] then [], and [] then [7, 1]. */
  lemma StreamsCollide()
    ensures var xs, ys := [Words([Int(1), Int(7)]), Words([])], [Words([]), Words([Int(7), Int(1)])];
            xs != ys && Stream(xs, 0) == Stream(ys, 0)
  {
    var xs, ys := [Words([Int(1), Int(7)]), Words([])], [Words([]), Words([Int(7), Int(1)])];
    assert Stream(xs[1..], 1) == [Int(1)] + [] + Stream([], 2);
    assert Stream(ys[1..], 1) == [Int(1)] + [Int(7), Int(1)] + Stream([], 2);
    assert Stream(xs, 0) == [Int(0), Int(1), Int(7), Int(1)];
    assert Stream(ys, 0) == [Int(0), Int(1), Int(7), Int(1)];
    assert xs[0] != ys[0];
  }

  /** Every tensor of the stack has as many strides as sizes. */
  ghost predicate WellFormedViews(inputs: seq<Input>) {
    forall i :: 0 <= i < |inputs| && inputs[i].TensorInput? ==> inputs[i].t.view.WellFormed()
  }

  lemma EntriesWellSized(inputs: seq<Input>, symbol: string, caching: bool)
    requires WellFormedViews(inputs)
    ensures AllWellSized(Entries(inputs, symbol, caching), caching)
  {
    var entries := Entries(inputs, symbol, caching);
    forall i | 0 <= i < |entries| ensures WellSized(entries[i], caching) {
      assert entries[i] == EntryOf(inputs[i], SectionIds(Bases(inputs))[i], symbol, caching);
    }
  }

  /** Two stacks whose entries have the same frames: the words agree exactly when the keys do. */
  lemma KeyFromWords(symbol: string, m: nat, det: bool, parent: seq<nat>, args: seq<Arg>, more: seq<Arg>, caching: bool)
    requires WellFormedViews(Flatten(args)) && WellFormedViews(Flatten(more))
    requires SameFrames(Entries(Flatten(args), symbol, caching), Entries(Flatten(more), symbol, caching))
    ensures Stream(KeyOf(symbol, m, det, parent, args, caching).entries, 0) == Stream(KeyOf(symbol, m, det, parent, more, caching).entries, 0)
            <==> KeyOf(symbol, m, det, parent, args, caching) == KeyOf(symbol, m, det, parent, more, caching)
  {
    EntriesWellSized(Flatten(args), symbol, caching);
    EntriesWellSized(Flatten(more), symbol, caching);
    StreamIff(Entries(Flatten(args), symbol, caching), Entries(Flatten(more), symbol, caching), 0, caching);
  }
}
