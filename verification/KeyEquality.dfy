/**
 What two calls have in common when they have one key, and no less: the words that are hashed, entry by
 entry, and the way their tensors share storages, whatever the addresses.
 */
module KeyEquality {
  import opened StridedViews
  import opened JitGraph
  import opened ViewLowering
  import opened EagerGraph
  import opened OperatorKey

  // --- the condition, on the stacks ---

  /** Constants that are patched on a hit, and so left out of the key. */
  predicate ConstantsUnhashed(symbol: string, caching: bool) { !caching && symbol in PARAM_AGNOSTIC_OPS }

  predicate NumbersUnhashed(symbol: string, caching: bool) { ConstantsUnhashed(symbol, caching) && symbol !in SCALAR_NOT_PATCHABLE_OPS }

  /** With the recipe cache on the window of a lowered tensor counts, otherwise only its rank. */
  predicate SameTensorWords(t: TensorArg, u: TensorArg, caching: bool) {
    && t.dtype == u.dtype && t.viewLowering == u.viewLowering && t.contiguous == u.contiguous
    && |t.view.sizes| == |u.view.sizes| && (t.view.sizes == [0] <==> u.view.sizes == [0])
    && (caching && (t.viewLowering || !t.contiguous) ==> t.view == u.view)
  }

  predicate SameWords(x: Input, y: Input, symbol: string, caching: bool) {
    match (x, y)
    case (TensorInput(t), TensorInput(u)) => SameTensorWords(t, u, caching)
    case (MetaInput(c), MetaInput(d)) => ConstantsUnhashed(symbol, caching) || Atoms(c) == Atoms(d)
    case (ScalarInput(c), ScalarInput(d)) => NumbersUnhashed(symbol, caching) || c == d
    case (MetaInput(_), ScalarInput(_)) => NumbersUnhashed(symbol, caching)
    case (ScalarInput(_), MetaInput(_)) => NumbersUnhashed(symbol, caching)
    case _ => false
  }

  /** Both are tensors of one storage that has an address. */
  predicate SharesStorage(x: Input, y: Input) { x.TensorInput? && y.TensorInput? && x.t.storage != 0 && x.t.storage == y.t.storage }

  /** The same words, and storages shared between the same entries; an entry shares with itself unless it has no address. */
  ghost predicate SameStack(xs: seq<Input>, ys: seq<Input>, symbol: string, caching: bool) {
    && |xs| == |ys|
    && (forall i :: 0 <= i < |xs| ==> SameWords(xs[i], ys[i], symbol, caching))
    && (forall i, j :: 0 <= i < |xs| && 0 <= j < |xs| ==> (SharesStorage(xs[i], xs[j]) <==> SharesStorage(ys[i], ys[j])))
  }

  // --- entries ---

  lemma EntryIff(x: Input, y: Input, s: Section, u: Section, symbol: string, caching: bool)
    requires !x.TensorInput? ==> s == NoSection
    requires !y.TensorInput? ==> u == NoSection
    ensures EntryOf(x, s, symbol, caching) == EntryOf(y, u, symbol, caching) <==> SameWords(x, y, symbol, caching) && s == u
  {
    if x.TensorInput? && y.TensorInput? {
      ZeroSize(x.t);
      ZeroSize(y.t);
    }
  }

  lemma ZeroSize(t: TensorArg)
    ensures IsZst(t) <==> t.view.sizes == [0]
  {
  }

  lemma SectionOfOther(xs: seq<Input>, i: nat)
    requires i < |xs| && !xs[i].TensorInput?
    ensures SectionIds(Bases(xs))[i] == NoSection
  {
  }

  lemma SectionsFromEntries(xs: seq<Input>, ys: seq<Input>, symbol: string, caching: bool)
    requires Entries(xs, symbol, caching) == Entries(ys, symbol, caching)
    ensures |xs| == |ys| && SectionIds(Bases(xs)) == SectionIds(Bases(ys))
    ensures forall i :: 0 <= i < |xs| ==> SameWords(xs[i], ys[i], symbol, caching)
  {
    var a, b := SectionIds(Bases(xs)), SectionIds(Bases(ys));
    assert |xs| == |Entries(xs, symbol, caching)| == |ys|;
    forall i | 0 <= i < |xs| ensures a[i] == b[i] && SameWords(xs[i], ys[i], symbol, caching) {
      assert Entries(xs, symbol, caching)[i] == Entries(ys, symbol, caching)[i];
      if !xs[i].TensorInput? { SectionOfOther(xs, i); }
      if !ys[i].TensorInput? { SectionOfOther(ys, i); }
      EntryIff(xs[i], ys[i], a[i], b[i], symbol, caching);
    }
  }

  lemma SharingIsSections(xs: seq<Input>, i: nat, j: nat)
    requires i < |xs| && j < |xs|
    ensures SharesStorage(xs[i], xs[j]) <==> Bases(xs)[i] != 0 && Bases(xs)[i] == Bases(xs)[j]
  {
  }

  lemma EntriesIff(xs: seq<Input>, ys: seq<Input>, symbol: string, caching: bool)
    ensures Entries(xs, symbol, caching) == Entries(ys, symbol, caching) <==> SameStack(xs, ys, symbol, caching)
  {
    if Entries(xs, symbol, caching) == Entries(ys, symbol, caching) {
      SectionsFromEntries(xs, ys, symbol, caching);
      forall i, j | 0 <= i < |xs| && 0 <= j < |xs| ensures SharesStorage(xs[i], xs[j]) <==> SharesStorage(ys[i], ys[j]) {
        SharingIsSections(xs, i, j);
        SharingIsSections(ys, i, j);
        SectionsFixSharing(Bases(xs), Bases(ys), i, j);
      }
    }
    if SameStack(xs, ys, symbol, caching) { SameStackSameEntries(xs, ys, symbol, caching); }
  }

  lemma SameBases(xs: seq<Input>, ys: seq<Input>, symbol: string, caching: bool)
    requires SameStack(xs, ys, symbol, caching)
    ensures SectionIds(Bases(xs)) == SectionIds(Bases(ys))
  {
    var a, b := Bases(xs), Bases(ys);
    forall i | 0 <= i < |a| ensures b[i] == 0 <==> a[i] == 0 {
      SharingIsSections(xs, i, i);
      SharingIsSections(ys, i, i);
    }
    forall i, j | 0 <= i < |a| && 0 <= j < |a| ensures b[i] == b[j] <==> a[i] == a[j] {
      SharingIsSections(xs, i, j);
      SharingIsSections(ys, i, j);
    }
    SectionsIgnoreAddresses(b, a);
  }

  lemma SameStackSameEntries(xs: seq<Input>, ys: seq<Input>, symbol: string, caching: bool)
    requires SameStack(xs, ys, symbol, caching)
    ensures Entries(xs, symbol, caching) == Entries(ys, symbol, caching)
  {
    var a, b := SectionIds(Bases(xs)), SectionIds(Bases(ys));
    SameBases(xs, ys, symbol, caching);
    forall i | 0 <= i < |xs| ensures Entries(xs, symbol, caching)[i] == Entries(ys, symbol, caching)[i] {
      if !xs[i].TensorInput? { SectionOfOther(xs, i); }
      if !ys[i].TensorInput? { SectionOfOther(ys, i); }
      EntryIff(xs[i], ys[i], a[i], b[i], symbol, caching);
    }
  }

  // --- keys ---

  /** A call as the key sees it. */
  datatype Call = Call(symbol: string, outputs: nat, deterministic: bool, parent: seq<nat>, args: seq<Arg>) {
    function Key(caching: bool): Key { KeyOf(symbol, outputs, deterministic, parent, args, caching) }
  }

  /** Two calls have one key exactly when they are calls of one op with the same number of outputs, the same
      deterministic flag and the same duplicates, whose stacks leave the same words and share storages in the
      same way. */
  lemma KeysEqualIff(a: Call, b: Call, caching: bool)
    ensures a.Key(caching) == b.Key(caching)
            <==> && a.symbol == b.symbol && a.outputs == b.outputs && a.deterministic == b.deterministic && a.parent == b.parent
                 && SameStack(Flatten(a.args), Flatten(b.args), a.symbol, caching)
  {
    if a.symbol == b.symbol { EntriesIff(Flatten(a.args), Flatten(b.args), a.symbol, caching); }
  }

  // --- storages at other addresses ---

  function MovedTensor(t: TensorArg, f: nat -> nat): TensorArg { t.(storage := f(t.storage)) }

  function MovedArg(a: Arg, f: nat -> nat): Arg {
    match a
    case One(t) => One(MovedTensor(t, f))
    case Many(ts) => Many(seq(|ts|, j requires 0 <= j < |ts| => MovedTensor(ts[j], f)))
    case _ => a
  }

  function MovedArgs(args: seq<Arg>, f: nat -> nat): (r: seq<Arg>)
    ensures |r| == |args|
  {
    seq(|args|, i requires 0 <= i < |args| => MovedArg(args[i], f))
  }

  function MovedInput(x: Input, f: nat -> nat): Input { if x.TensorInput? then TensorInput(MovedTensor(x.t, f)) else x }

  function MovedInputs(xs: seq<Input>, f: nat -> nat): (r: seq<Input>)
    ensures |r| == |xs|
  {
    seq(|xs|, i requires 0 <= i < |xs| => MovedInput(xs[i], f))
  }

  lemma {:induction false} FlattenMoved(args: seq<Arg>, f: nat -> nat)
    ensures Flatten(MovedArgs(args, f)) == MovedInputs(Flatten(args), f)
    decreases |args|
  {
    if args != [] {
      var moved := MovedArgs(args, f);
      assert moved[1..] == MovedArgs(args[1..], f);
      FlattenMoved(args[1..], f);
      assert FlattenArg(moved[0]) == MovedInputs(FlattenArg(args[0]), f);
    }
  }

  /** Two addresses fall together only if they are one, and null stays null. */
  ghost predicate Renaming(f: nat -> nat) { f(0) == 0 && forall x, y :: f(x) == f(y) ==> x == y }

  lemma MovedSharing(x: Input, y: Input, f: nat -> nat)
    requires Renaming(f)
    ensures SharesStorage(MovedInput(x, f), MovedInput(y, f)) <==> SharesStorage(x, y)
  {
    if x.TensorInput? && f(x.t.storage) == 0 { assert f(x.t.storage) == f(0); }
  }

  lemma MovedStack(xs: seq<Input>, f: nat -> nat, symbol: string, caching: bool)
    requires Renaming(f)
    ensures SameStack(MovedInputs(xs, f), xs, symbol, caching)
  {
    var ys := MovedInputs(xs, f);
    forall i, j | 0 <= i < |ys| && 0 <= j < |ys| ensures SharesStorage(ys[i], ys[j]) <==> SharesStorage(xs[i], xs[j]) {
      MovedSharing(xs[i], xs[j], f);
    }
  }

  /** The key does not depend on where the storages are. */
  lemma KeyIgnoresAddresses(a: Call, f: nat -> nat, caching: bool)
    requires Renaming(f)
    ensures a.(args := MovedArgs(a.args, f)).Key(caching) == a.Key(caching)
  {
    FlattenMoved(a.args, f);
    MovedStack(Flatten(a.args), f, a.symbol, caching);
    KeysEqualIff(a.(args := MovedArgs(a.args, f)), a, caching);
  }
}
