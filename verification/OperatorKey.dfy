/**
 The key an eager graph is cached under, as the structured value that is hashed: what the
 key fixes about a stack, and the numbering of memory sections inside it.
 */
module OperatorKey {
  import opened StridedViews
  import opened JitGraph
  import opened ViewLowering
  import opened EagerGraph
  import opened CachePatch

  /** Ops whose constants are patched on a cache hit, unless the eager recipe cache is on. */
  const PARAM_AGNOSTIC_OPS: set<string> := {
    "aten::fill_", "aten::as_strided", "hpu::strided_view", "hpu::strided_insert", "hpu::strided_insert_",
    "aten::sort", "aten::cat", "aten::topk", "aten::arange",
    "aten::upsample_nearest2d", "aten::upsample_bicubic2d", "aten::upsample_bicubic2d_backward",
    "aten::upsample_bilinear2d", "aten::upsample_bilinear2d_backward",
    "aten::upsample_nearest1d", "aten::upsample_nearest1d_backward",
    "aten::upsample_nearest2d_backward", "hpu::upsample_nearest2d_backward",
    "aten::upsample_nearest3d", "aten::upsample_nearest3d_backward",
    "aten::resize_", "aten::masked_fill", "aten::masked_fill_", "aten::_efficientzerotensor", "aten::scatter" }

  const SCALAR_NOT_PATCHABLE_OPS: set<string> := { "aten::_efficientzerotensor" }

  predicate Agnostic(symbol: string, caching: bool) { !caching && symbol in PARAM_AGNOSTIC_OPS }

  predicate SkipsScalars(symbol: string, caching: bool) { Agnostic(symbol, caching) && symbol !in SCALAR_NOT_PATCHABLE_OPS }

  // --- memory sections ---

  datatype Section = NoSection | Section(id: nat)

  /** The addresses met so far, each once, in order; 0 is "no storage or no address". */
  function Addresses(bases: seq<nat>): (r: seq<nat>)
    ensures forall x :: x in r <==> x in bases && x != 0
    ensures forall i, j :: 0 <= i < j < |r| ==> r[i] != r[j]
    decreases |bases|
  {
    if bases == [] then []
    else
      var n := |bases| - 1;
      var before := Addresses(bases[..n]);
      assert bases == bases[..n] + [bases[n]];
      if bases[n] == 0 || bases[n] in before then before else before + [bases[n]]
  }

  /** An address's section: its position among the addresses. */
  function SectionOf(addresses: seq<nat>, base: nat): Section {
    if base in addresses && base != 0 then Section(IndexOf(addresses, base)) else NoSection
  }

  function SectionIds(bases: seq<nat>): (r: seq<Section>)
    ensures |r| == |bases|
  {
    seq(|bases|, i requires 0 <= i < |bases| => SectionOf(Addresses(bases), bases[i]))
  }

  /** A numbering that depends on nothing but which addresses coincide: every non-null address
      has an id, equal addresses share it, and ids appear in increasing order without gaps. */
  ghost predicate Canonical(bases: seq<nat>, ids: seq<Section>) {
    && |ids| == |bases|
    && (forall i :: 0 <= i < |bases| ==> (ids[i].Section? <==> bases[i] != 0))
    && (forall i, j :: 0 <= i < |bases| && 0 <= j < |bases| && bases[i] != 0 && bases[j] != 0 ==>
          (ids[i] == ids[j] <==> bases[i] == bases[j]))
    && (forall i, v :: 0 <= i < |bases| && ids[i].Section? && 0 <= v < ids[i].id ==> Earlier(ids, i, v))
  }

  ghost predicate Earlier(ids: seq<Section>, i: nat, v: nat)
    requires i <= |ids|
  {
    exists j :: 0 <= j < i && ids[j] == Section(v)
  }

  lemma {:induction false} IndexOfUnique(s: seq<nat>, i: nat)
    requires i < |s| && forall j :: 0 <= j < i ==> s[j] != s[i]
    ensures s[i] in s && IndexOf(s, s[i]) == i
    decreases |s|
  {
    if i > 0 {
      assert s[0] != s[i];
      IndexOfUnique(s[1..], i - 1);
    }
  }

  /** Meeting more addresses does not renumber the earlier ones. */
  lemma AddressesStep(bases: seq<nat>)
    requires bases != []
    ensures Addresses(bases[..|bases| - 1]) <= Addresses(bases)
  {
  }

  lemma {:induction false} AddressesGrow(bases: seq<nat>, i: nat)
    requires i <= |bases|
    ensures Addresses(bases[..i]) <= Addresses(bases)
    decreases |bases|
  {
    if i < |bases| {
      var n := |bases| - 1;
      assert bases[..n][..i] == bases[..i];
      AddressesGrow(bases[..n], i);
      AddressesStep(bases);
    } else {
      assert bases[..i] == bases;
    }
  }

  lemma SectionStable(bases: seq<nat>, i: nat, base: nat)
    requires i <= |bases| && base in Addresses(bases[..i])
    ensures SectionOf(Addresses(bases[..i]), base) == SectionOf(Addresses(bases), base)
  {
    var few, all := Addresses(bases[..i]), Addresses(bases);
    AddressesGrow(bases, i);
    var k := IndexOf(few, base);
    assert all[k] == few[k] == base;
    IndexOfUnique(all, k);
    IndexOfUnique(few, k);
  }

  lemma SectionsCanonical(bases: seq<nat>)
    ensures Canonical(bases, SectionIds(bases))
  {
    var all, ids := Addresses(bases), SectionIds(bases);
    forall i, v | 0 <= i < |bases| && ids[i].Section? && 0 <= v < ids[i].id ensures Earlier(ids, i, v) {
      EarlierSection(bases, i, v);
    }
  }

  /** Every smaller id has been given out before: its address is among those met before entry i. */
  lemma EarlierSection(bases: seq<nat>, i: nat, v: nat)
    requires i < |bases| && SectionIds(bases)[i].Section? && v < SectionIds(bases)[i].id
    ensures Earlier(SectionIds(bases), i, v)
  {
    var all, few := Addresses(bases), Addresses(bases[..i]);
    AddressesGrow(bases, i);
    AddressesGrow(bases, i + 1);
    assert bases[..i + 1][..i] == bases[..i];
    assert bases[i] in bases[..i + 1];
    SectionStable(bases, i + 1, bases[i]);
    assert SectionIds(bases)[i].id <= |few|;
    assert v < |few|;
    var a := few[v];
    assert all[v] == a && a in bases[..i];
    var j :| 0 <= j < i && bases[j] == a;
    IndexOfUnique(all, v);
    assert SectionIds(bases)[j] == Section(v);
  }

  /** There is only one canonical numbering. */
  lemma {:induction false} CanonicalUnique(bases: seq<nat>, a: seq<Section>, b: seq<Section>)
    requires Canonical(bases, a) && Canonical(bases, b)
    ensures a == b
    decreases |bases|
  {
    if bases != [] {
      var n := |bases| - 1;
      CanonicalPrefix(bases, a);
      CanonicalPrefix(bases, b);
      CanonicalUnique(bases[..n], a[..n], b[..n]);
      if bases[n] != 0 {
        NotBelow(bases, a, b);
        NotBelow(bases, b, a);
      }
      assert a == a[..n] + [a[n]] && b == b[..n] + [b[n]];
    }
  }

  lemma CanonicalPrefix(bases: seq<nat>, ids: seq<Section>)
    requires Canonical(bases, ids) && bases != []
    ensures Canonical(bases[..|bases| - 1], ids[..|bases| - 1])
  {
    var n := |bases| - 1;
    forall i, v | 0 <= i < n && ids[i].Section? && 0 <= v < ids[i].id ensures Earlier(ids[..n], i, v) {
      assert Earlier(ids, i, v);
      var j :| 0 <= j < i && ids[j] == Section(v);
      assert ids[..n][j] == Section(v);
    }
  }

  lemma NotBelow(bases: seq<nat>, a: seq<Section>, b: seq<Section>)
    requires Canonical(bases, a) && Canonical(bases, b) && bases != []
    requires a[..|bases| - 1] == b[..|bases| - 1] && bases[|bases| - 1] != 0
    ensures a[|bases| - 1].Section? && b[|bases| - 1].Section? && a[|bases| - 1].id >= b[|bases| - 1].id
  {
    var n := |bases| - 1;
    if a[n].id < b[n].id {
      assert Earlier(b, n, a[n].id);
      var j :| 0 <= j < n && b[j] == Section(a[n].id);
      AgreeBefore(a, b, n, j);
      assert false;
    }
  }

  lemma AgreeBefore(a: seq<Section>, b: seq<Section>, n: nat, j: nat)
    requires j < n <= |a| && n <= |b| && a[..n] == b[..n]
    ensures a[j] == b[j]
  {
    assert a[..n][j] == b[..n][j];
  }

  /** Storages at other addresses: the numbering, and so the key, is the same. */
  lemma SectionsIgnoreAddresses(bases: seq<nat>, moved: seq<nat>)
    requires |moved| == |bases|
    requires forall i :: 0 <= i < |bases| ==> (bases[i] == 0 <==> moved[i] == 0)
    requires forall i, j :: 0 <= i < |bases| && 0 <= j < |bases| ==> (bases[i] == bases[j] <==> moved[i] == moved[j])
    ensures SectionIds(moved) == SectionIds(bases)
  {
    SectionsCanonical(bases);
    SectionsCanonical(moved);
    CanonicalUnique(moved, SectionIds(moved), SectionIds(bases));
  }

  /** And conversely: equal numberings come from stacks that share storages in the same way. */
  lemma SectionsFixSharing(bases: seq<nat>, moved: seq<nat>, i: nat, j: nat)
    requires SectionIds(moved) == SectionIds(bases) && i < |bases| && j < |bases|
    ensures |moved| == |bases| && (bases[i] == 0 <==> moved[i] == 0)
    ensures bases[i] == bases[j] <==> moved[i] == moved[j]
  {
    SectionsCanonical(bases);
    SectionsCanonical(moved);
    assert |SectionIds(moved)| == |moved|;
  }

  // --- the key ---

  /** An entry of the stack with tensor lists flattened. */
  datatype Input = MetaInput(c: IValue) | ScalarInput(c: IValue) | TensorInput(t: TensorArg)

  datatype Window = NoWindow | Window(view: View)

  datatype Entry =
    | Skipped
    | Words(words: seq<IValue>)
    | ScalarWord(c: IValue)
    | TensorWords(section: Section, dtype: nat, viewLowering: bool, contiguous: bool, window: Window, rank: nat, zst: bool)

  datatype Key = Key(symbol: string, outputs: nat, deterministic: bool, parent: seq<nat>, entries: seq<Entry>)

  function FlattenArg(a: Arg): seq<Input> {
    match a
    case Meta(c) => [MetaInput(c)]
    case Scalar(c) => [ScalarInput(c)]
    case One(t) => [TensorInput(t)]
    case Many(ts) => seq(|ts|, j requires 0 <= j < |ts| => TensorInput(ts[j]))
  }

  function Flatten(args: seq<Arg>): seq<Input> {
    if args == [] then [] else FlattenArg(args[0]) + Flatten(args[1..])
  }

  /** What is hashed of a metadata value: a list gives its elements, None gives nothing. */
  function Atoms(c: IValue): seq<IValue> {
    match c
    case None => []
    case IntList(ints) => seq(|ints|, i requires 0 <= i < |ints| => Int(ints[i]))
    case BoolList(bools) => seq(|bools|, i requires 0 <= i < |bools| => Bool(bools[i]))
    case _ => [c]
  }

  /** A tensor of one dimension and no elements. */
  predicate IsZst(t: TensorArg) { |t.view.sizes| == 1 && t.view.sizes[0] == 0 }

  /** update_key_for_tensor; the window is hashed only with the eager recipe cache on. */
  function TensorEntry(t: TensorArg, section: Section, caching: bool): Entry {
    TensorWords(section, t.dtype, t.viewLowering, t.contiguous,
                if t.IsView() && caching then Window(t.view) else NoWindow,
                |t.view.sizes|, IsZst(t))
  }

  function EntryOf(x: Input, section: Section, symbol: string, caching: bool): Entry {
    match x
    case MetaInput(c) => if Agnostic(symbol, caching) then Skipped else Words(Atoms(c))
    case ScalarInput(c) => if SkipsScalars(symbol, caching) then Skipped else ScalarWord(c)
    case TensorInput(t) => TensorEntry(t, section, caching)
  }

  function BaseOf(x: Input): nat { if x.TensorInput? then x.t.storage else 0 }

  function Bases(inputs: seq<Input>): (r: seq<nat>)
    ensures |r| == |inputs| && forall i :: 0 <= i < |inputs| ==> r[i] == BaseOf(inputs[i])
  {
    seq(|inputs|, i requires 0 <= i < |inputs| => BaseOf(inputs[i]))
  }

  function Entries(inputs: seq<Input>, symbol: string, caching: bool): (r: seq<Entry>)
    ensures |r| == |inputs|
  {
    seq(|inputs|, i requires 0 <= i < |inputs| => EntryOf(inputs[i], SectionIds(Bases(inputs))[i], symbol, caching))
  }

  function KeyOf(symbol: string, outputs: nat, deterministic: bool, parent: seq<nat>, args: seq<Arg>, caching: bool): Key {
    Key(symbol, outputs, deterministic, parent, Entries(Flatten(args), symbol, caching))
  }

  /** The scan of storage_base_addresses for one tensor. */
  method FindSection(addresses: seq<nat>, base: nat) returns (section: Section, more: seq<nat>)
    requires forall i, j :: 0 <= i < j < |addresses| ==> addresses[i] != addresses[j]
    ensures more == if base == 0 || base in addresses then addresses else addresses + [base]
    ensures section == SectionOf(more, base)
  {
    if base == 0 {
      return NoSection, addresses;
    }
    for i := 0 to |addresses|
      invariant forall j :: 0 <= j < i ==> addresses[j] != base
    {
      if addresses[i] == base {
        IndexOfUnique(addresses, i);
        return Section(i), addresses;
      }
    }
    IndexOfUnique(addresses + [base], |addresses|);
    return Section(|addresses|), addresses + [base];
  }

  method NumberNext(bases: seq<nat>, i: nat, addresses: seq<nat>) returns (section: Section, more: seq<nat>)
    requires i < |bases| && addresses == Addresses(bases[..i])
    ensures more == Addresses(bases[..i + 1]) && section == SectionIds(bases)[i]
  {
    assert bases[..i + 1][..i] == bases[..i];
    section, more := FindSection(addresses, bases[i]);
    if bases[i] != 0 {
      SectionStable(bases, i + 1, bases[i]);
    }
  }

  /** calculate_operator_key: one pass over the flattened stack, numbering sections as it goes. */
  method CalculateOperatorKey(symbol: string, outputs: nat, deterministic: bool, parent: seq<nat>, args: seq<Arg>, caching: bool)
    returns (key: Key)
    ensures key == KeyOf(symbol, outputs, deterministic, parent, args, caching)
  {
    var inputs := Flatten(args);
    var entries := CalculateEntries(inputs, symbol, caching);
    key := Key(symbol, outputs, deterministic, parent, entries);
  }

  method CalculateEntries(inputs: seq<Input>, symbol: string, caching: bool) returns (entries: seq<Entry>)
    ensures entries == Entries(inputs, symbol, caching)
  {
    entries := [];
    var addresses: seq<nat> := [];
    for i := 0 to |inputs|
      invariant addresses == Addresses(Bases(inputs)[..i])
      invariant |entries| == i && forall j :: 0 <= j < i ==> entries[j] == Entries(inputs, symbol, caching)[j]
    {
      var entry;
      entry, addresses := NextEntry(inputs, i, addresses, symbol, caching);
      entries := entries + [entry];
    }
  }

  method NextEntry(inputs: seq<Input>, i: nat, addresses: seq<nat>, symbol: string, caching: bool) returns (entry: Entry, more: seq<nat>)
    requires i < |inputs| && addresses == Addresses(Bases(inputs)[..i])
    ensures more == Addresses(Bases(inputs)[..i + 1]) && entry == Entries(inputs, symbol, caching)[i]
  {
    var section;
    section, more := NumberNext(Bases(inputs), i, addresses);
    entry := EntryOf(inputs[i], section, symbol, caching);
  }

  // --- what the key fixes ---

  /** Two values of one IValue type. */
  predicate SameForm(c: IValue, d: IValue) {
    match (c, d)
    case (None, None) => true
    case (Bool(_), Bool(_)) => true
    case (Int(_), Int(_)) => true
    case (Str(_), Str(_)) => true
    case (IntList(_), IntList(_)) => true
    case (BoolList(_), BoolList(_)) => true
    case _ => false
  }

  /** The words of a value and its type give it back: only a list of length one and its element,
      or None and an empty list, have the same words. */
  lemma AtomsInjective(c: IValue, d: IValue)
    requires SameForm(c, d) && Atoms(c) == Atoms(d)
    ensures c == d
  {
    if c.IntList? {
      forall i | 0 <= i < |c.ints| ensures |d.ints| == |c.ints| && c.ints[i] == d.ints[i] {
        assert Atoms(c)[i] == Int(c.ints[i]) && Atoms(d)[i] == Int(d.ints[i]);
      }
      assert |Atoms(c)| == |Atoms(d)|;
    }
    if c.BoolList? {
      forall i | 0 <= i < |c.bools| ensures |d.bools| == |c.bools| && c.bools[i] == d.bools[i] {
        assert Atoms(c)[i] == Bool(c.bools[i]) && Atoms(d)[i] == Bool(d.bools[i]);
      }
      assert |Atoms(c)| == |Atoms(d)|;
    }
  }

  /** What the key does not see: the kind of an argument, the type of a constant, the length of a list. */
  predicate SameKind(a: Arg, b: Arg, agnostic: bool) {
    match (a, b)
    case (Meta(c), Meta(d)) => agnostic || SameForm(c, d)
    case (Scalar(_), Scalar(_)) => true
    case (One(_), One(_)) => true
    case (Many(ts), Many(us)) => |ts| == |us|
    case _ => false
  }

  predicate SameKinds(args: seq<Arg>, more: seq<Arg>, agnostic: bool) {
    |args| == |more| && forall i :: 0 <= i < |args| ==> SameKind(args[i], more[i], agnostic)
  }

  /** After convert_cpu_wrapped_numbers every tensor is on the device. */
  predicate OnDevice(a: Arg) {
    match a
    case One(t) => t.hpu
    case Many(ts) => forall j :: 0 <= j < |ts| ==> ts[j].hpu
    case _ => true
  }

  predicate AllOnDevice(args: seq<Arg>) { forall i :: 0 <= i < |args| ==> OnDevice(args[i]) }

  ghost predicate SameEntry(x: Input, y: Input, symbol: string, caching: bool) {
    exists s, u :: EntryOf(x, s, symbol, caching) == EntryOf(y, u, symbol, caching)
  }

  ghost predicate SameEntries(xs: seq<Input>, ys: seq<Input>, symbol: string, caching: bool) {
    |xs| == |ys| && forall i :: 0 <= i < |xs| ==> SameEntry(xs[i], ys[i], symbol, caching)
  }

  lemma KeysGiveEntries(args: seq<Arg>, more: seq<Arg>, symbol: string, caching: bool)
    requires Entries(Flatten(args), symbol, caching) == Entries(Flatten(more), symbol, caching)
    ensures SameEntries(Flatten(args), Flatten(more), symbol, caching)
  {
    var xs, ys := Flatten(args), Flatten(more);
    assert |xs| == |Entries(xs, symbol, caching)| == |ys|;
    forall i | 0 <= i < |xs| ensures SameEntry(xs[i], ys[i], symbol, caching) {
      assert Entries(xs, symbol, caching)[i] == Entries(ys, symbol, caching)[i];
      assert EntryOf(xs[i], SectionIds(Bases(xs))[i], symbol, caching) == EntryOf(ys[i], SectionIds(Bases(ys))[i], symbol, caching);
    }
  }

  lemma EntryFixesArg(a: Arg, b: Arg, symbol: string, caching: bool)
    requires SameKind(a, b, Agnostic(symbol, caching)) && OnDevice(a) && OnDevice(b)
    requires SameEntries(FlattenArg(a), FlattenArg(b), symbol, caching)
    ensures SameShape(a, b, Agnostic(symbol, caching))
  {
    match (a, b) {
      case (Meta(c), Meta(d)) =>
        assert SameEntry(FlattenArg(a)[0], FlattenArg(b)[0], symbol, caching);
        if !Agnostic(symbol, caching) { AtomsInjective(c, d); }
      case (One(t), One(u)) =>
        assert SameEntry(FlattenArg(a)[0], FlattenArg(b)[0], symbol, caching);
      case (Many(ts), Many(us)) =>
        forall j | 0 <= j < |ts| ensures SameTensorShape(ts[j], us[j]) {
          assert SameEntry(FlattenArg(a)[j], FlattenArg(b)[j], symbol, caching);
        }
      case _ =>
    }
  }

  lemma EntriesApart(a: seq<Input>, b: seq<Input>, c: seq<Input>, d: seq<Input>, symbol: string, caching: bool)
    requires SameEntries(a + b, c + d, symbol, caching) && |a| == |c|
    ensures SameEntries(a, c, symbol, caching) && SameEntries(b, d, symbol, caching)
  {
    forall i | 0 <= i < |a| ensures SameEntry(a[i], c[i], symbol, caching) {
      assert (a + b)[i] == a[i] && (c + d)[i] == c[i];
    }
    forall i | 0 <= i < |b| ensures SameEntry(b[i], d[i], symbol, caching) {
      assert (a + b)[|a| + i] == b[i] && (c + d)[|a| + i] == d[i];
    }
  }

  /** Stacks with one key and the same argument kinds have the same shape: every view decision agrees,
      and so does every constant that is not patched. */
  lemma {:induction false} EntriesFixShape(args: seq<Arg>, more: seq<Arg>, symbol: string, caching: bool)
    requires SameKinds(args, more, Agnostic(symbol, caching)) && AllOnDevice(args) && AllOnDevice(more)
    requires SameEntries(Flatten(args), Flatten(more), symbol, caching)
    ensures AllSameShape(args, more, Agnostic(symbol, caching))
    decreases |args|
  {
    if args != [] {
      var a, b := args[0], more[0];
      assert SameKind(a, b, Agnostic(symbol, caching)) && OnDevice(a) && OnDevice(b);
      EntriesApart(FlattenArg(a), Flatten(args[1..]), FlattenArg(b), Flatten(more[1..]), symbol, caching);
      EntryFixesArg(a, b, symbol, caching);
      EntriesFixShape(args[1..], more[1..], symbol, caching);
      ShapesCons(args, more, Agnostic(symbol, caching));
    }
  }

  lemma ShapesCons(args: seq<Arg>, more: seq<Arg>, agnostic: bool)
    requires args != [] && more != [] && SameShape(args[0], more[0], agnostic) && AllSameShape(args[1..], more[1..], agnostic)
    ensures AllSameShape(args, more, agnostic)
  {
    forall i | 0 <= i < |args| ensures SameShape(args[i], more[i], agnostic) {
      if i > 0 { assert SameShape(args[1..][i - 1], more[1..][i - 1], agnostic); }
    }
  }
}
