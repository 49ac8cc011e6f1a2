/**
 The host chunk of a launch: PatchDynamicTensors places every payload in one allocation with a
 moving pointer, copies it into a host and a compile block, and one tensor frees the chunk.
 */
module HostMemory {
  import opened DynamicParams
  import opened DynamicLaunch
  import opened DynamicGraph

  type Byte = x: int | 0 <= x < 256

  // --- elements as bytes ---

  function LittleEndian(x: nat, n: nat): (r: seq<Byte>)
    ensures |r| == n
  {
    if n == 0 then [] else [x % 256] + LittleEndian(x / 256, n - 1)
  }

  function FromBytes(s: seq<Byte>): nat {
    if s == [] then 0 else s[0] + 256 * FromBytes(s[1..])
  }

  function Pow256(n: nat): nat { if n == 0 then 1 else 256 * Pow256(n - 1) }

  lemma {:induction false} BytesRoundTrip(x: nat, n: nat)
    requires x < Pow256(n)
    ensures FromBytes(LittleEndian(x, n)) == x
  {
    if n > 0 {
      assert LittleEndian(x, n)[1..] == LittleEndian(x / 256, n - 1);
      BytesRoundTrip(x / 256, n - 1);
    }
  }

  /** The bytes of an element of type w; a signed element in two's complement. */
  function ElementBytes(w: Width, x: int): (r: seq<Byte>)
    ensures |r| == SizeOf(w)
  {
    LittleEndian(Unsigned(w, x), SizeOf(w))
  }

  function ReadElement(w: Width, s: seq<Byte>): int { Cast(w, FromBytes(s)) }

  lemma PowersOf256()
    ensures Pow256(4) == TWO32 && Pow256(8) == TWO64
  {
    assert Pow256(2) == 65536;
    assert Pow256(4) == 256 * (256 * Pow256(2));
    assert Pow256(6) == 256 * (256 * Pow256(4));
    assert Pow256(8) == 256 * (256 * Pow256(6));
  }

  /** The unsigned number whose bytes an element has. */
  function Unsigned(w: Width, x: int): nat { if w == U64 then x % TWO64 else x % TWO32 }

  lemma UnsignedFits(w: Width, x: int)
    ensures Unsigned(w, x) < Pow256(SizeOf(w)) && Cast(w, Unsigned(w, x)) == Cast(w, x)
  {
    PowersOf256();
    CastCongruent(w, Unsigned(w, x), x, if w == U64 then x / TWO64 else x / TWO32);
  }

  lemma ElementRoundTrip(w: Width, x: int)
    ensures ReadElement(w, ElementBytes(w, x)) == Cast(w, x)
  {
    UnsignedFits(w, x);
    BytesRoundTrip(Unsigned(w, x), SizeOf(w));
  }

  function Encode(w: Width, data: seq<int>): (r: seq<Byte>)
    ensures |r| == BytesOf(w, |data|)
  {
    if data == [] then [] else ElementBytes(w, data[0]) + Encode(w, data[1..])
  }

  /** Reading consecutive elements, as GetAsStridedOperatorStrideData does. */
  function Decode(w: Width, s: seq<Byte>, count: nat): (r: seq<int>)
    requires |s| == BytesOf(w, count)
    ensures |r| == count
  {
    if count == 0 then [] else [ReadElement(w, s[..SizeOf(w)])] + Decode(w, s[SizeOf(w)..], count - 1)
  }

  lemma {:induction false} DecodeEncode(w: Width, data: seq<int>)
    ensures |Decode(w, Encode(w, data), |data|)| == |data|
    ensures forall i :: 0 <= i < |data| ==> Decode(w, Encode(w, data), |data|)[i] == Cast(w, data[i])
    decreases |data|
  {
    if data != [] {
      var n := SizeOf(w);
      ElementRoundTrip(w, data[0]);
      DecodeEncode(w, data[1..]);
      assert Encode(w, data)[..n] == ElementBytes(w, data[0]) && Encode(w, data)[n..] == Encode(w, data[1..]);
    }
  }

  // --- the chunk ---

  predicate AllRegistered(es: seq<LaunchEntry>) { forall i :: 0 <= i < |es| ==> Registered(es[i]) }

  predicate AllFollow(es: seq<LaunchEntry>) { forall i :: 0 <= i < |es| ==> FollowsHost(es, i) }

  /** What every launch list satisfies. */
  lemma PlaceableMeans(es: seq<LaunchEntry>)
    requires es in Placeable()
    ensures AllRegistered(es) && AllFollow(es)
  {
    forall i | 0 <= i < |es| ensures Registered(es[i]) && FollowsHost(es, i) { PlaceableAt(es, i); }
  }

  function BlockSize(e: LaunchEntry): nat { if e.HostEntry? then 2 * e.totalElem else 0 }

  /** Where the blocks of entry i start. */
  function Start(es: seq<LaunchEntry>, i: nat): nat
    requires i <= |es|
  {
    if i == 0 then 0 else Start(es, i - 1) + BlockSize(es[i - 1])
  }

  /** The payload as bytes of the host type. */
  function PayloadBytes(e: LaunchEntry): seq<Byte>
    requires e.HostEntry?
  {
    Encode(e.width, e.values)
  }

  /** Host block and compile block, each holding the payload twice. */
  function BlockBytes(e: LaunchEntry): seq<Byte> {
    if e.HostEntry? then var p := PayloadBytes(e); (p + p) + (p + p) else []
  }

  function Blocks(es: seq<LaunchEntry>): (r: seq<seq<Byte>>)
    ensures |r| == |es| && forall i :: 0 <= i < |es| ==> r[i] == BlockBytes(es[i])
  {
    seq(|es|, i requires 0 <= i < |es| => BlockBytes(es[i]))
  }

  function Flat(blocks: seq<seq<Byte>>, n: nat): seq<Byte>
    requires n <= |blocks|
  {
    if n == 0 then [] else Flat(blocks, n - 1) + blocks[n - 1]
  }

  /** What the chunk holds once the first n entries are placed. */
  function Image(es: seq<LaunchEntry>, n: nat): seq<Byte>
    requires n <= |es|
  {
    Flat(Blocks(es), n)
  }

  lemma BlockLength(e: LaunchEntry)
    requires Registered(e)
    ensures |BlockBytes(e)| == BlockSize(e)
    ensures e.HostEntry? ==> 2 * |PayloadBytes(e)| == e.totalElem
  {
  }

  lemma {:induction false} ImageLength(es: seq<LaunchEntry>, n: nat)
    requires n <= |es| && AllRegistered(es)
    ensures |Image(es, n)| == Start(es, n)
  {
    if n > 0 {
      ImageLength(es, n - 1);
      BlockLength(es[n - 1]);
    }
  }

  function Spliced(mem: seq<Byte>, at: nat, data: seq<Byte>): (r: seq<Byte>)
    requires at + |data| <= |mem|
    ensures |r| == |mem|
  {
    mem[..at] + data + mem[at + |data|..]
  }

  /** memcpy of a buffer into the chunk. */
  method CopyIn(chunk: array<Byte>, at: nat, data: seq<Byte>)
    requires at + |data| <= chunk.Length
    modifies chunk
    ensures chunk[..] == Spliced(old(chunk[..]), at, data)
  {
    ghost var before := chunk[..];
    for i := 0 to |data|
      invariant chunk[..] == Spliced(before, at, data[..i])
    {
      SpliceOne(before, at, data, i);
      chunk[at + i] := data[i];
    }
    assert data[..|data|] == data;
  }

  lemma SpliceOne(mem: seq<Byte>, at: nat, data: seq<Byte>, i: nat)
    requires at + |data| <= |mem| && i < |data|
    ensures Spliced(mem, at, data[..i])[at + i := data[i]] == Spliced(mem, at, data[..i + 1])
  {
    assert data[..i + 1] == data[..i] + [data[i]];
  }

  /** update_host_data: the payload twice at the host pointer, then the whole block to the compile pointer. */
  method UpdateHostData(chunk: array<Byte>, host: nat, compile: nat, data: seq<Byte>)
    requires host + 2 * |data| <= compile && compile + 2 * |data| <= chunk.Length
    modifies chunk
    ensures chunk[..] == Spliced(Spliced(old(chunk[..]), host, data + data), compile, data + data)
  {
    CopyTwice(chunk, host, data);
    var block := chunk[host..host + 2 * |data|];
    CopyIn(chunk, compile, block);
  }

  method CopyTwice(chunk: array<Byte>, host: nat, data: seq<Byte>)
    requires host + 2 * |data| <= chunk.Length
    modifies chunk
    ensures chunk[..] == Spliced(old(chunk[..]), host, data + data)
    ensures chunk[host..host + 2 * |data|] == data + data
  {
    SpliceTwice(chunk[..], host, data);
    CopyIn(chunk, host, data);
    CopyIn(chunk, host + |data|, data);
    assert chunk[host..host + 2 * |data|] == chunk[..][host..host + 2 * |data|];
  }

  /** The payload written twice, one behind the other. */
  lemma SpliceTwice(mem: seq<Byte>, host: nat, data: seq<Byte>)
    requires host + 2 * |data| <= |mem|
    ensures Spliced(Spliced(mem, host, data), host + |data|, data) == Spliced(mem, host, data + data)
    ensures Spliced(mem, host, data + data)[host..host + 2 * |data|] == data + data
  {
  }

  lemma NextBlock(before: seq<Byte>, image: seq<Byte>, data: seq<Byte>, after: seq<Byte>)
    requires |image| + 4 * |data| <= |before| && before[..|image|] == image
    requires after == Spliced(Spliced(before, |image|, data + data), |image| + 2 * |data|, data + data)
    ensures after[..|image| + 4 * |data|] == image + ((data + data) + (data + data))
  {
    var n := |image|;
    var mid := Spliced(before, n, data + data);
    assert mid[..n] == image && mid[n..n + 2 * |data|] == data + data;
    assert after[..n + 2 * |data|] == mid[..n + 2 * |data|];
  }

  /** Where a tensor was left: its pointers into the chunk, or the sizes and strides of a shape tensor. */
  datatype Placed = Host(host: nat, compile: nat) | Sized(sizes: seq<int>, strides: Option<seq<int>>)

  function PlacedAt(es: seq<LaunchEntry>, i: nat): Placed
    requires i < |es| && FollowsHost(es, i)
  {
    if es[i].HostEntry? then Host(Start(es, i), Start(es, i) + es[i].totalElem)
    else Sized(es[i].sizes, if es[i].carries then Some(DecodeStrides(es[i - 1].values)) else Option.None)
  }

  method TotalRequired(es: seq<LaunchEntry>) returns (n: nat)
    ensures n == Start(es, |es|)
  {
    n := 0;
    for i := 0 to |es|
      invariant n == Start(es, i)
    {
      if es[i].HostEntry? {
        n := n + 2 * es[i].totalElem;
      }
    }
  }

  /** The chunk after PatchDynamicTensors: exactly the blocks of the list, one after another, and every
      shape tensor with its sizes and the strides of the payload before it. */
  method PatchDynamicTensors(es: seq<LaunchEntry>) returns (chunk: array<Byte>, placed: seq<Placed>)
    requires AllRegistered(es) && AllFollow(es)
    ensures fresh(chunk) && chunk[..] == Image(es, |es|)
    ensures AllPlaced(es, placed, |es|)
  {
    var total := TotalRequired(es);
    chunk := new Byte[total](_ => 0);
    placed := [];
    var pointer: nat := 0;
    for i := 0 to |es|
      invariant fresh(chunk) && chunk.Length == Start(es, |es|)
      invariant ImageUpTo(es, i, pointer, chunk)
      invariant AllPlaced(es, placed, i)
    {
      assert FollowsHost(es, i) && Registered(es[i]);
      StartGrows(es, i + 1, |es|);
      var p;
      p, pointer := PlaceNext(chunk, es, i, pointer);
      OneMorePlaced(es, placed, i, p);
      placed := placed + [p];
    }
    assert chunk[..chunk.Length] == chunk[..];
  }

  ghost predicate AllPlaced(es: seq<LaunchEntry>, placed: seq<Placed>, n: nat)
    requires n <= |es| && AllFollow(es)
  {
    |placed| == n && forall i :: 0 <= i < n ==> PlacedRight(es, placed, i)
  }

  ghost predicate PlacedRight(es: seq<LaunchEntry>, placed: seq<Placed>, i: nat)
    requires i < |es| && i < |placed| && AllFollow(es)
  {
    assert FollowsHost(es, i);
    placed[i] == PlacedAt(es, i)
  }

  lemma OneMorePlaced(es: seq<LaunchEntry>, placed: seq<Placed>, n: nat, p: Placed)
    requires n < |es| && AllFollow(es) && AllPlaced(es, placed, n) && FollowsHost(es, n) && p == PlacedAt(es, n)
    ensures AllPlaced(es, placed + [p], n + 1)
  {
    forall i | 0 <= i < n + 1 ensures PlacedRight(es, placed + [p], i) {
      if i < n { assert PlacedRight(es, placed, i); }
    }
  }

  /** The chunk up to the moving pointer holds the blocks of the first i entries. */
  ghost predicate ImageUpTo(es: seq<LaunchEntry>, i: nat, pointer: nat, chunk: array<Byte>)
    requires i <= |es|
    reads chunk
  {
    pointer == Start(es, i) == |Image(es, i)| && pointer <= chunk.Length && chunk[..pointer] == Image(es, i)
  }

  method PlaceNext(chunk: array<Byte>, es: seq<LaunchEntry>, i: nat, pointer: nat) returns (p: Placed, next: nat)
    requires i < |es| && Registered(es[i]) && FollowsHost(es, i)
    requires ImageUpTo(es, i, pointer, chunk) && Start(es, i + 1) <= chunk.Length
    modifies chunk
    ensures ImageUpTo(es, i + 1, next, chunk) && p == PlacedAt(es, i)
  {
    if es[i].HostEntry? {
      p := Host(pointer, pointer + es[i].totalElem);
      PlaceHost(chunk, es, i, pointer);
      next := pointer + 2 * es[i].totalElem;
    } else {
      var strides := Option.None;
      if es[i].carries {
        var actual := DecodeActualStrides(es[i - 1].values);
        strides := Some(actual);
      }
      p := Sized(es[i].sizes, strides);
      next := pointer;
      assert Image(es, i + 1) == Image(es, i) + [];
    }
  }

  method PlaceHost(chunk: array<Byte>, es: seq<LaunchEntry>, i: nat, pointer: nat)
    requires i < |es| && es[i].HostEntry? && Registered(es[i])
    requires |Image(es, i)| == pointer && pointer + 2 * es[i].totalElem <= chunk.Length && chunk[..pointer] == Image(es, i)
    modifies chunk
    ensures |Image(es, i + 1)| == pointer + 2 * es[i].totalElem
    ensures chunk[..pointer + 2 * es[i].totalElem] == Image(es, i + 1)
  {
    BlockLength(es[i]);
    var data := PayloadBytes(es[i]);
    ghost var before := chunk[..];
    UpdateHostData(chunk, pointer, pointer + es[i].totalElem, data);
    NextBlock(before, Image(es, i), data, chunk[..]);
    ImageStep(es, i, data);
  }

  lemma ImageStep(es: seq<LaunchEntry>, i: nat, data: seq<Byte>)
    requires i < |es| && es[i].HostEntry? && data == PayloadBytes(es[i])
    ensures Image(es, i + 1) == Image(es, i) + ((data + data) + (data + data))
  {
  }

  lemma {:induction false} StartGrows(es: seq<LaunchEntry>, i: nat, j: nat)
    requires i <= j <= |es|
    ensures Start(es, i) <= Start(es, j)
    decreases j
  {
    if i < j { StartGrows(es, i, j - 1); }
  }

  // --- what the layout guarantees ---

  /** Blocks of different tensors do not overlap: an earlier tensor's compile block ends where, or before, a later one's host block starts. */
  lemma BlocksDisjoint(es: seq<LaunchEntry>, i: nat, j: nat)
    requires i < j < |es| && es[i].HostEntry? && es[j].HostEntry? && FollowsHost(es, i) && FollowsHost(es, j)
    ensures PlacedAt(es, i).host + es[i].totalElem == PlacedAt(es, i).compile
    ensures PlacedAt(es, i).compile + es[i].totalElem <= PlacedAt(es, j).host
    ensures PlacedAt(es, j).compile + es[j].totalElem <= Start(es, |es|)
  {
    StartGrows(es, i + 1, j);
    StartGrows(es, j + 1, |es|);
  }

  lemma {:induction false} FlatPrefix(blocks: seq<seq<Byte>>, i: nat, n: nat) returns (rest: seq<Byte>)
    requires i <= n <= |blocks|
    ensures Flat(blocks, n) == Flat(blocks, i) + rest
    decreases n
  {
    if i < n {
      var before := FlatPrefix(blocks, i, n - 1);
      rest := before + blocks[n - 1];
      Associative(Flat(blocks, i), before, blocks[n - 1]);
    } else {
      rest := [];
      assert Flat(blocks, i) + [] == Flat(blocks, i);
    }
  }

  lemma Associative(a: seq<Byte>, b: seq<Byte>, c: seq<Byte>)
    ensures (a + b) + c == a + (b + c)
  {
  }

  /** Both halves of both blocks of every host tensor hold its payload, whatever was placed after it. */
  lemma BlocksHoldPayload(es: seq<LaunchEntry>, i: nat, image: seq<Byte>, p: seq<Byte>)
    requires i < |es| && es[i].HostEntry? && AllRegistered(es) && image == Image(es, |es|) && p == PayloadBytes(es[i])
    ensures Start(es, i) in PlacesHolding(image, p, es[i].totalElem)
  {
    ImageLength(es, i);
    BlockLength(es[i]);
    var rest := ImageAround(es, i, p);
    BlockInside(image, Image(es, i), rest, p, Start(es, i), es[i].totalElem);
  }

  /** Two blocks of t bytes, each with the payload in both halves. */
  predicate HoldsTwice(image: seq<Byte>, p: seq<Byte>, t: nat, s: nat) {
    s + 2 * t <= |image| && image[s..s + t] == p + p && image[s + t..s + 2 * t] == p + p
  }

  ghost function PlacesHolding(image: seq<Byte>, p: seq<Byte>, t: nat): iset<nat> {
    iset s: nat | HoldsTwice(image, p, t, s)
  }

  lemma ImageAround(es: seq<LaunchEntry>, i: nat, p: seq<Byte>) returns (rest: seq<Byte>)
    requires i < |es| && es[i].HostEntry? && p == PayloadBytes(es[i])
    ensures Image(es, |es|) == Image(es, i) + ((p + p) + (p + p)) + rest
  {
    rest := FlatPrefix(Blocks(es), i + 1, |es|);
    assert Image(es, i + 1) == Image(es, i) + BlockBytes(es[i]);
  }

  lemma BlockInside(image: seq<Byte>, before: seq<Byte>, rest: seq<Byte>, p: seq<Byte>, s: nat, t: nat)
    requires |before| == s && 2 * |p| == t && image == before + ((p + p) + (p + p)) + rest
    ensures s in PlacesHolding(image, p, t)
  {
  }

  /** A tensor that frees the chunk when it dies: alloc_ptr is set and equals host_ptr. */
  predicate Frees(es: seq<LaunchEntry>, i: nat) {
    i < |es| && es[i].HostEntry? && Start(es, |es|) > 0 && Start(es, i) == 0
  }

  ghost predicate OneFrees(es: seq<LaunchEntry>) {
    exists i: nat :: Frees(es, i) && forall j: nat :: Frees(es, j) ==> j == i
  }

  ghost predicate FirstHost(es: seq<LaunchEntry>, i: nat) {
    i < |es| && es[i].HostEntry? && forall j :: 0 <= j < i ==> !es[j].HostEntry?
  }

  lemma {:induction false} NothingBeforeFirst(es: seq<LaunchEntry>, i: nat)
    requires i <= |es| && forall j :: 0 <= j < i ==> !es[j].HostEntry?
    ensures Start(es, i) == 0
  {
    if i > 0 { NothingBeforeFirst(es, i - 1); }
  }

  lemma {:induction false} NextHost(es: seq<LaunchEntry>, i: nat, n: nat) returns (j: nat)
    requires i < n <= |es| && Start(es, i + 1) == 0 < Start(es, n)
    ensures i < j < n && es[j].HostEntry? && Start(es, j) == 0
    decreases n
  {
    if Start(es, n - 1) > 0 {
      j := NextHost(es, i, n - 1);
    } else {
      j := n - 1;
    }
  }

  /** The chunk, if there is one, is freed exactly once if and only if the first host payload is not
      empty: an empty first payload leaves the next tensor at the same address. */
  lemma FreedOnceIff(es: seq<LaunchEntry>, f: nat)
    requires FirstHost(es, f) && Start(es, |es|) > 0
    ensures OneFrees(es) <==> es[f].totalElem > 0
  {
    NothingBeforeFirst(es, f);
    assert Frees(es, f);
    if es[f].totalElem > 0 {
      forall j: nat | Frees(es, j) ensures j == f {
        if j > f { StartGrows(es, f + 1, j); }
      }
    } else {
      var j := NextHost(es, f, |es|);
      assert Frees(es, j) && j != f;
    }
  }

  /** A repeat without dimensions in front of another: two tensors meet the free condition. */
  lemma EmptyPayloadFreesTwice(x: int) returns (es: seq<LaunchEntry>)
    ensures es == [RecordedEntry(HostOf([], I32, I32)), RecordedEntry(HostOf([x], I32, I32))]
    ensures AllRegistered(es) && Frees(es, 0) && Frees(es, 1)
  {
    es := [RecordedEntry(HostOf([], I32, I32)), RecordedEntry(HostOf([x], I32, I32))];
    RecordedRegistered([], I32, I32);
    RecordedRegistered([x], I32, I32);
    assert Start(es, 1) == 0 && Start(es, 2) > 0;
  }

  // --- min and max values in the compile block ---

  /** set_max: the first half of the compile block. */
  method SetMax(chunk: array<Byte>, compile: nat, w: Width, size: nat, d: seq<int>)
    requires |d| == size && compile + 2 * BytesOf(w, size) <= chunk.Length
    modifies chunk
    ensures chunk[..] == Spliced(old(chunk[..]), compile, Encode(w, d))
  {
    CopyIn(chunk, compile, Encode(w, d));
  }

  /** set_min: the second half. */
  method SetMin(chunk: array<Byte>, compile: nat, w: Width, size: nat, d: seq<int>)
    requires |d| == size && compile + 2 * BytesOf(w, size) <= chunk.Length
    modifies chunk
    ensures chunk[..] == Spliced(old(chunk[..]), compile + BytesOf(w, size), Encode(w, d))
  {
    CopyIn(chunk, compile + BytesOf(w, size), Encode(w, d));
  }

  datatype Pass = MinShape | MaxShape | OtherPass

  /** Where GetAsStridedOperatorStrideData starts to read: the host block outside a dry run, the compile
      block in one, its second half in the minimum pass. */
  function ReadStart(host: nat, compile: nat, w: Width, size: nat, dryRun: bool, pass: Pass): nat {
    if !dryRun then host else compile + if pass == MinShape then BytesOf(w, size) else 0
  }

  function ReadBytes(mem: seq<Byte>, at: nat, w: Width, size: nat): seq<int>
    requires at + BytesOf(w, size) <= |mem|
  {
    Decode(w, mem[at..at + BytesOf(w, size)], size)
  }

  /** The places where reading stays in memory and gives these elements. */
  ghost function PlacesReading(mem: seq<Byte>, w: Width, values: seq<int>): iset<nat> {
    iset at: nat | at + BytesOf(w, |values|) <= |mem| && ReadBytes(mem, at, w, |values|) == values
  }

  /** The elements as their type holds them. */
  function CastAll(w: Width, data: seq<int>): (r: seq<int>)
    ensures |r| == |data| && forall k :: 0 <= k < |data| ==> r[k] == Cast(w, data[k])
  {
    seq(|data|, k requires 0 <= k < |data| => Cast(w, data[k]))
  }

  lemma ReadsPayload(image: seq<Byte>, at: nat, w: Width, data: seq<int>)
    requires at + BytesOf(w, |data|) <= |image| && image[at..at + BytesOf(w, |data|)] == Encode(w, data)
    ensures ReadBytes(image, at, w, |data|) == CastAll(w, data)
  {
    DecodeEncode(w, data);
  }

  lemma ReadStarts(e: LaunchEntry, s: nat, dryRun: bool, pass: Pass)
    requires e.HostEntry? && Registered(e)
    ensures var at := ReadStart(s, s + e.totalElem, e.width, e.size, dryRun, pass);
            var n := |PayloadBytes(e)|;
            n == BytesOf(e.width, e.size) && (at == s || at == s + 2 * n || at == s + 3 * n)
  {
    BlockLength(e);
  }

  lemma BlockReads(image: seq<Byte>, e: LaunchEntry, s: nat, p: seq<Byte>, dryRun: bool, pass: Pass, at: nat)
    requires e.HostEntry? && Registered(e) && p == PayloadBytes(e) && s in PlacesHolding(image, p, e.totalElem)
    requires at == ReadStart(s, s + e.totalElem, e.width, e.size, dryRun, pass)
    ensures at in PlacesReading(image, e.width, CastAll(e.width, e.values))
  {
    ReadStarts(e, s, dryRun, pass);
    BlockLength(e);
    FourCopies(image, s, e.totalElem, p, at);
    ReadsPayload(image, at, e.width, e.values);
  }

  /** Freshly patched, every pass reads the launch's own payload, in either mode. */
  lemma PatchedReads(es: seq<LaunchEntry>, i: nat, image: seq<Byte>, dryRun: bool, pass: Pass, at: nat)
    requires i < |es| && es[i].HostEntry? && AllRegistered(es) && image == Image(es, |es|)
    requires at == ReadStart(Start(es, i), Start(es, i) + es[i].totalElem, es[i].width, es[i].size, dryRun, pass)
    ensures at in PlacesReading(image, es[i].width, CastAll(es[i].width, es[i].values))
  {
    assert Registered(es[i]);
    BlocksHoldPayload(es, i, image, PayloadBytes(es[i]));
    BlockReads(image, es[i], Start(es, i), PayloadBytes(es[i]), dryRun, pass, at);
  }

  /** Wherever a pass starts to read, there is a copy of the payload. */
  lemma FourCopies(image: seq<Byte>, s: nat, t: nat, p: seq<Byte>, at: nat)
    requires t == 2 * |p| && s in PlacesHolding(image, p, t)
    requires at == s || at == s + 2 * |p| || at == s + 3 * |p|
    ensures at + |p| <= |image| && image[at..at + |p|] == p
  {
    HalvesOf(image, s, p);
    HalvesOf(image, s + t, p);
  }

  lemma HalvesOf(image: seq<Byte>, at: nat, p: seq<Byte>)
    requires at + 2 * |p| <= |image| && image[at..at + 2 * |p|] == p + p
    ensures image[at..at + |p|] == p && image[at + |p|..at + 2 * |p|] == p
  {
    var block := image[at..at + 2 * |p|];
    assert image[at..at + |p|] == block[..|p|] && image[at + |p|..at + 2 * |p|] == block[|p|..];
  }

  /** After set_min and set_max, in either order, the second half of the compile block is the minimum and
      the first the maximum, and the host block still holds the launch's payload. */
  lemma MinMaxHalves(mem: seq<Byte>, host: nat, compile: nat, n: nat, lo: seq<Byte>, hi: seq<Byte>)
    requires |lo| == |hi| == n && host + 2 * n <= compile && compile + 2 * n <= |mem|
    ensures var after := Spliced(Spliced(mem, compile + n, lo), compile, hi);
            && after == Spliced(Spliced(mem, compile, hi), compile + n, lo)
            && after[compile + n..compile + n + n] == lo && after[compile..compile + n] == hi
            && after[host..host + n] == mem[host..host + n]
  {
    var one, other := Spliced(mem, compile + n, lo), Spliced(mem, compile, hi);
    var after, swapped := Spliced(one, compile, hi), Spliced(other, compile + n, lo);
    forall k | 0 <= k < |mem|
      ensures after[k] == swapped[k]
      ensures after[k] == if compile <= k < compile + n then hi[k - compile]
                          else if compile + n <= k < compile + n + n then lo[k - (compile + n)] else mem[k]
    {
      SplicedAt(mem, compile + n, lo, k);
      SplicedAt(one, compile, hi, k);
      SplicedAt(mem, compile, hi, k);
      SplicedAt(other, compile + n, lo, k);
    }
    assert after[compile + n..compile + n + n] == lo;
    assert after[compile..compile + n] == hi;
    assert after[host..host + n] == mem[host..host + n];
  }

  lemma SplicedAt(mem: seq<Byte>, at: nat, data: seq<Byte>, k: nat)
    requires at + |data| <= |mem| && k < |mem|
    ensures Spliced(mem, at, data)[k] == if at <= k < at + |data| then data[k - at] else mem[k]
  {
  }

  lemma PlaceReads(image: seq<Byte>, at: nat, w: Width, data: seq<int>, n: nat)
    requires n == BytesOf(w, |data|) && at + n <= |image| && image[at..at + n] == Encode(w, data)
    ensures at in PlacesReading(image, w, CastAll(w, data))
  {
    ReadsPayload(image, at, w, data);
  }

  /** After set_min and set_max the minimum pass of a dry run reads the minimum, the maximum pass the maximum,
      and outside a dry run every pass still reads what the host block held. */
  lemma PassesReadMinMax(mem: seq<Byte>, host: nat, compile: nat, w: Width, lo: seq<int>, hi: seq<int>, n: nat, after: seq<Byte>, pass: Pass)
    requires |lo| == |hi| && n == BytesOf(w, |lo|) && host + 2 * n <= compile && compile + 2 * n <= |mem|
    requires after == Spliced(Spliced(mem, compile + n, Encode(w, lo)), compile, Encode(w, hi))
    ensures ReadStart(host, compile, w, |lo|, true, MinShape) in PlacesReading(after, w, CastAll(w, lo))
    ensures ReadStart(host, compile, w, |lo|, true, MaxShape) in PlacesReading(after, w, CastAll(w, hi))
    ensures ReadStart(host, compile, w, |lo|, false, pass) == host && after[host..host + n] == mem[host..host + n]
  {
    MinMaxHalves(mem, host, compile, n, Encode(w, lo), Encode(w, hi));
    PlaceReads(after, compile + n, w, lo, n);
    PlaceReads(after, compile, w, hi, n);
  }
}
