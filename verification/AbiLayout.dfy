/**
 * The layout of ABI-encoded parameters (evmabi.go; Solidity Contract ABI Specification, "Formal
 * Specification of the Encoding"): one head word per parameter, and behind the heads a tail for
 * every dynamic one, found through the offset written into its head word.
 */
module AbiLayout {
  import opened Bytes
  import opened Outcome

  /** A parameter ready to be written: a 256-bit word or a byte string. */
  datatype Item = Static(v: nat) | Dynamic(data: seq<byte>)

  /** `abiString`: where the head word is, and the length word followed by the data. */
  datatype Deferred = Deferred(offset: nat, data: seq<byte>)

  /** The length of a Go slice fits an unsigned 64-bit integer, so its head or length word is exact. */
  predicate Fits(item: Item) {
    match item
    case Static(v) => v < TWO_256
    case Dynamic(data) => |data| < TWO_256
  }

  predicate AllFit(items: seq<Item>) {
    forall i :: 0 <= i < |items| ==> Fits(items[i])
  }

  function Word(v: nat): (w: seq<byte>)
    ensures |w| == 32
  {
    ToBE(32, v)
  }

  lemma WordRoundTrip(v: nat)
    requires v < TWO_256
    ensures BE(Word(v)) == v
  {
    WidthOf(32);
    BEOfToBE(32, v);
  }

  // ---------------------------------------------------------------------------------------
  // What the appends accumulate
  // ---------------------------------------------------------------------------------------

  function Head(item: Item): (w: seq<byte>)
    ensures |w| == 32
  {
    match item
    case Static(v) => Word(v)
    case Dynamic(_) => Zeros(32)
  }

  function Heads(items: seq<Item>): (h: seq<byte>)
    ensures |h| == 32 * |items|
  {
    if items == [] then [] else Heads(items[..|items| - 1]) + Head(items[|items| - 1])
  }

  function Tails(items: seq<Item>, start: nat): (ds: seq<Deferred>)
    ensures |ds| <= |items|
  {
    if items == [] then []
    else
      var n := |items| - 1;
      Tails(items[..n], start) + Slot(items[n], start + 32 * n)
  }

  /** The length word and the data. */
  function Measured(data: seq<byte>): seq<byte> {
    Word(|data|) + data
  }

  function Slot(item: Item, at: nat): (ds: seq<Deferred>)
    ensures |ds| <= 1
  {
    match item
    case Static(_) => []
    case Dynamic(data) => [Deferred(at, Measured(data))]
  }

  lemma AppendItem(items: seq<Item>, item: Item, start: nat, pos: nat)
    requires pos == start + 32 * |items|
    ensures Heads(items + [item]) == Heads(items) + Head(item)
    ensures Tails(items + [item], start) == Tails(items, start) + Slot(item, pos)
  {
    assert (items + [item])[..|items|] == items;
  }

  // ---------------------------------------------------------------------------------------
  // Writing the tails
  // ---------------------------------------------------------------------------------------

  function Patch(res: seq<byte>, at: nat, word: seq<byte>): (r: seq<byte>)
    requires at + |word| <= |res|
    ensures |r| == |res|
  {
    res[..at] + word + res[at + |word|..]
  }

  /** How many 32-byte blocks n bytes take. */
  function Blocks(n: int): (k: nat)
    ensures n <= 32 * k && (n >= 0 ==> 32 * k < n + 32)
    decreases if n < 0 then 0 else n
  {
    if n <= 0 then 0 else 1 + Blocks(n - 32)
  }

  /** Zero padding up to a multiple of 32. */
  function Padded(data: seq<byte>): (p: seq<byte>)
    ensures |p| == 32 * Blocks(|data|) >= |data|
  {
    data + Zeros(32 * Blocks(|data|) - |data|)
  }

  predicate SlotsFit(ds: seq<Deferred>, limit: nat) {
    forall j :: 0 <= j < |ds| ==> ds[j].offset + 32 <= limit
  }

  /** Head slots are written once each. */
  predicate SlotsApart(ds: seq<Deferred>) {
    forall i, j :: 0 <= i < j < |ds| ==> ds[i].offset + 32 <= ds[j].offset
  }

  function EmitOne(res: seq<byte>, d: Deferred): (r: seq<byte>)
    requires d.offset + 32 <= |res|
    ensures |r| == |res| + |Padded(d.data)|
  {
    Patch(res, d.offset, Word(|res|)) + Padded(d.data)
  }

  function Emit(res: seq<byte>, ds: seq<Deferred>): (r: seq<byte>)
    requires SlotsFit(ds, |res|)
    decreases |ds|
  {
    if ds == [] then res else Emit(EmitOne(res, ds[0]), ds[1..])
  }

  /** Where the j-th tail starts. */
  function TailStart(len: nat, ds: seq<Deferred>, j: nat): nat
    requires j <= |ds|
    decreases j
  {
    if j == 0 then len else TailStart(len + |Padded(ds[0].data)|, ds[1..], j - 1)
  }

  lemma {:induction false} TailStartNext(len: nat, ds: seq<Deferred>, j: nat)
    requires j < |ds|
    ensures TailStart(len, ds, j + 1) == TailStart(len, ds, j) + |Padded(ds[j].data)|
    decreases j
  {
    if j > 0 {
      TailStartNext(len + |Padded(ds[0].data)|, ds[1..], j - 1);
    }
  }

  /** The number of blocks the first j tails take. */
  function TailBlocks(ds: seq<Deferred>, j: nat): nat
    requires j <= |ds|
    decreases j
  {
    if j == 0 then 0 else Blocks(|ds[0].data|) + TailBlocks(ds[1..], j - 1)
  }

  lemma {:induction false} TailStartBlocks(len: nat, ds: seq<Deferred>, j: nat)
    requires j <= |ds|
    ensures TailStart(len, ds, j) == len + 32 * TailBlocks(ds, j)
    decreases j
  {
    if j > 0 {
      TailStartBlocks(len + |Padded(ds[0].data)|, ds[1..], j - 1);
    }
  }

  lemma {:induction false} EmitLength(res: seq<byte>, ds: seq<Deferred>)
    requires SlotsFit(ds, |res|)
    ensures |Emit(res, ds)| == TailStart(|res|, ds, |ds|)
    decreases |ds|
  {
    if ds != [] {
      EmitLength(EmitOne(res, ds[0]), ds[1..]);
    }
  }

  /** A byte outside every head slot is never touched. */
  lemma {:induction false} EmitKeeps(res: seq<byte>, ds: seq<Deferred>, p: nat)
    requires SlotsFit(ds, |res|) && p < |res|
    requires forall j :: 0 <= j < |ds| ==> !(ds[j].offset <= p < ds[j].offset + 32)
    ensures p < |Emit(res, ds)| && Emit(res, ds)[p] == res[p]
    decreases |ds|
  {
    if ds != [] {
      var next := EmitOne(res, ds[0]);
      assert next[p] == res[p];
      forall j | 0 <= j < |ds| - 1 ensures !(ds[1..][j].offset <= p < ds[1..][j].offset + 32) {
        assert ds[1..][j] == ds[j + 1];
      }
      EmitKeeps(next, ds[1..], p);
    }
  }

  lemma EmitKeepsRange(res: seq<byte>, ds: seq<Deferred>, a: nat, b: nat)
    requires SlotsFit(ds, |res|) && a <= b <= |res|
    requires forall j :: 0 <= j < |ds| ==> ds[j].offset + 32 <= a || b <= ds[j].offset
    ensures b <= |Emit(res, ds)| && Emit(res, ds)[a..b] == res[a..b]
  {
    EmitLength(res, ds);
    TailStartBlocks(|res|, ds, |ds|);
    forall p | a <= p < b ensures Emit(res, ds)[p] == res[p] {
      EmitKeeps(res, ds, p);
    }
  }

  /** The first slot written holds the old length, and the first tail sits right there. */
  lemma EmitFirst(res: seq<byte>, ds: seq<Deferred>, heads: nat)
    requires SlotsFit(ds, heads) && heads <= |res| && SlotsApart(ds) && ds != []
    ensures var out, o, tail := Emit(res, ds), ds[0].offset, Padded(ds[0].data);
            && |res| + |tail| <= |out|
            && out[o..o + 32] == Word(|res|) && out[|res|..|res| + |tail|] == tail
  {
    var next := EmitOne(res, ds[0]);
    SlotsOfRest(ds, heads);
    OneWrites(res, ds[0]);
    EmitKeepsRange(next, ds[1..], ds[0].offset, ds[0].offset + 32);
    EmitKeepsRange(next, ds[1..], |res|, |next|);
  }

  lemma OneWrites(res: seq<byte>, d: Deferred)
    requires d.offset + 32 <= |res|
    ensures EmitOne(res, d)[d.offset..d.offset + 32] == Word(|res|)
    ensures EmitOne(res, d)[|res|..|EmitOne(res, d)|] == Padded(d.data)
  {
    var patched := Patch(res, d.offset, Word(|res|));
    assert patched[d.offset..d.offset + 32] == Word(|res|);
    assert EmitOne(res, d)[d.offset..d.offset + 32] == patched[d.offset..d.offset + 32];
  }

  lemma SlotsOfRest(ds: seq<Deferred>, heads: nat)
    requires SlotsFit(ds, heads) && SlotsApart(ds) && ds != []
    ensures SlotsFit(ds[1..], heads) && SlotsApart(ds[1..])
    ensures forall j :: 0 <= j < |ds[1..]| ==> ds[0].offset + 32 <= ds[1..][j].offset
  {
  }

  /** The j-th head slot ends up holding the start of the j-th tail, and the tail is there. */
  lemma {:induction false} EmitPlaces(res: seq<byte>, ds: seq<Deferred>, heads: nat, j: nat)
    requires SlotsFit(ds, heads) && heads <= |res| && SlotsApart(ds) && j < |ds|
    ensures Placed(Emit(res, ds), ds[j], TailStart(|res|, ds, j))
    decreases j
  {
    if j == 0 {
      EmitFirst(res, ds, heads);
    } else {
      SlotsOfRest(ds, heads);
      assert ds[1..][j - 1] == ds[j];
      EmitPlaces(EmitOne(res, ds[0]), ds[1..], heads, j - 1);
    }
  }

  /** A deferred tail stands at `at`, and its slot says so. */
  predicate Placed(out: seq<byte>, d: Deferred, at: nat) {
    && at + |Padded(d.data)| <= |out| && d.offset + 32 <= |out|
    && out[d.offset..d.offset + 32] == Word(at)
    && out[at..at + |Padded(d.data)|] == Padded(d.data)
  }

  // ---------------------------------------------------------------------------------------
  // From items to slots
  // ---------------------------------------------------------------------------------------

  lemma {:induction false} TailsShape(items: seq<Item>, start: nat)
    ensures SlotsFit(Tails(items, start), start + 32 * |items|) && SlotsApart(Tails(items, start))
  {
    if items != [] {
      TailsShape(items[..|items| - 1], start);
    }
  }

  lemma {:induction false} TailsAreSlots(items: seq<Item>, start: nat, j: nat)
    requires j < |Tails(items, start)|
    ensures IsSlot(items, start, Tails(items, start)[j].offset)
  {
    var n := |items| - 1;
    var rest := Tails(items[..n], start);
    if j < |rest| {
      TailsAreSlots(items[..n], start, j);
      var i :| 0 <= i < n && rest[j].offset == start + 32 * i && items[..n][i].Dynamic?;
    } else {
      assert Tails(items, start)[j].offset == start + 32 * n;
    }
  }

  /** The offset is the head word of a dynamic item. */
  predicate IsSlot(items: seq<Item>, start: nat, offset: nat) {
    exists i :: 0 <= i < |items| && offset == start + 32 * i && items[i].Dynamic?
  }

  /** How many dynamic items come before item i: the index of its tail. */
  function TailIndex(items: seq<Item>, i: nat): nat
    requires i <= |items|
  {
    |Tails(items[..i], 0)|
  }

  lemma {:induction false} TailsCount(items: seq<Item>, start: nat, other: nat)
    ensures |Tails(items, start)| == |Tails(items, other)|
  {
    if items != [] {
      TailsCount(items[..|items| - 1], start, other);
    }
  }

  lemma {:induction false} TailOfItem(items: seq<Item>, start: nat, i: nat)
    requires i < |items| && items[i].Dynamic?
    ensures TailIndex(items, i) < |Tails(items, start)|
    ensures Tails(items, start)[TailIndex(items, i)] == Deferred(start + 32 * i, Measured(items[i].data))
    decreases |items|
  {
    var n := |items| - 1;
    var rest := Tails(items[..n], start);
    assert Tails(items, start) == rest + Slot(items[n], start + 32 * n);
    if i == n {
      TailsCount(items[..n], start, 0);
    } else {
      assert items[..n][..i] == items[..i];
      TailOfItem(items[..n], start, i);
      assert Tails(items, start)[TailIndex(items, i)] == rest[TailIndex(items, i)];
    }
  }

  lemma {:induction false} HeadOfItem(items: seq<Item>, i: nat)
    requires i < |items|
    ensures Heads(items)[32 * i..32 * i + 32] == Head(items[i])
    decreases |items|
  {
    var n := |items| - 1;
    var rest := Heads(items[..n]);
    if i == n {
      assert Heads(items)[32 * n..32 * n + 32] == Head(items[n]);
    } else {
      HeadOfItem(items[..n], i);
      assert Heads(items)[32 * i..32 * i + 32] == rest[32 * i..32 * i + 32];
    }
  }

  // ---------------------------------------------------------------------------------------
  // The encoding and its decoder
  // ---------------------------------------------------------------------------------------

  /** What `Bytes` returns after appending the items to a buffer that started as base. */
  function Encoding(base: seq<byte>, items: seq<Item>): seq<byte> {
    TailsShape(items, |base|);
    Emit(base + Heads(items), Tails(items, |base|))
  }

  function TailAt(base: seq<byte>, items: seq<Item>, i: nat): nat
    requires i < |items| && items[i].Dynamic?
  {
    TailOfItem(items, |base|, i);
    TailStart(|base + Heads(items)|, Tails(items, |base|), TailIndex(items, i))
  }

  /**
   * Where item i stands in an encoding: a static item is its head word; the head word of a
   * dynamic item holds the place of its tail, which is length word, data and zero padding.
   */
  predicate ItemAt(base: seq<byte>, items: seq<Item>, i: nat, out: seq<byte>)
    requires i < |items|
  {
    var o := |base| + 32 * i;
    match items[i]
    case Static(v) => o + 32 <= |out| && out[o..o + 32] == Word(v)
    case Dynamic(data) => Placed(out, Deferred(o, Measured(data)), TailAt(base, items, i))
  }

  lemma NoSlotAtStatic(base: seq<byte>, items: seq<Item>, i: nat, j: nat)
    requires i < |items| && items[i].Static? && j < |Tails(items, |base|)|
    ensures var o := |base| + 32 * i;
            Tails(items, |base|)[j].offset + 32 <= o || o + 32 <= Tails(items, |base|)[j].offset
  {
    TailsAreSlots(items, |base|, j);
    var k :| 0 <= k < |items| && Tails(items, |base|)[j].offset == |base| + 32 * k && items[k].Dynamic?;
    assert k != i;
  }

  lemma StaticClear(base: seq<byte>, items: seq<Item>, i: nat, o: nat)
    requires i < |items| && items[i].Static? && o == |base| + 32 * i
    ensures forall j :: 0 <= j < |Tails(items, |base|)| ==>
              Tails(items, |base|)[j].offset + 32 <= o || o + 32 <= Tails(items, |base|)[j].offset
  {
    forall j | 0 <= j < |Tails(items, |base|)|
      ensures Tails(items, |base|)[j].offset + 32 <= o || o + 32 <= Tails(items, |base|)[j].offset
    {
      NoSlotAtStatic(base, items, i, j);
    }
  }

  /** No back-patch touches the head word of a static item. */
  lemma StaticKept(base: seq<byte>, items: seq<Item>, i: nat, o: nat)
    requires i < |items| && items[i].Static? && o == |base| + 32 * i
    ensures o + 32 <= |base + Heads(items)| && o + 32 <= |Encoding(base, items)|
    ensures Encoding(base, items)[o..o + 32] == (base + Heads(items))[o..o + 32]
  {
    TailsShape(items, |base|);
    StaticClear(base, items, i, o);
    EmitKeepsRange(base + Heads(items), Tails(items, |base|), o, o + 32);
  }

  lemma StaticAt(base: seq<byte>, items: seq<Item>, i: nat, o: nat, out: seq<byte>)
    requires i < |items| && items[i].Static? && o == |base| + 32 * i
    requires o + 32 <= |base + Heads(items)| && o + 32 <= |out| && out[o..o + 32] == (base + Heads(items))[o..o + 32]
    ensures ItemAt(base, items, i, out)
  {
    HeadOfItem(items, i);
    assert (base + Heads(items))[o..o + 32] == Heads(items)[32 * i..32 * i + 32];
  }

  lemma EncodingPlaces(base: seq<byte>, items: seq<Item>, j: nat)
    requires j < |Tails(items, |base|)|
    ensures Placed(Encoding(base, items), Tails(items, |base|)[j],
                   TailStart(|base + Heads(items)|, Tails(items, |base|), j))
  {
    TailsShape(items, |base|);
    EmitPlaces(base + Heads(items), Tails(items, |base|), |base + Heads(items)|, j);
  }

  lemma DynamicAt(base: seq<byte>, items: seq<Item>, i: nat, out: seq<byte>)
    requires i < |items| && items[i].Dynamic? && TailIndex(items, i) < |Tails(items, |base|)|
    requires Placed(out, Tails(items, |base|)[TailIndex(items, i)],
                    TailStart(|base + Heads(items)|, Tails(items, |base|), TailIndex(items, i)))
    ensures ItemAt(base, items, i, out)
  {
    TailOfItem(items, |base|, i);
  }

  /** `Encoding` lays out every item. */
  lemma EncodingLaysOut(base: seq<byte>, items: seq<Item>, i: nat)
    requires i < |items|
    ensures ItemAt(base, items, i, Encoding(base, items))
  {
    if items[i].Static? {
      StaticKept(base, items, i, |base| + 32 * i);
      StaticAt(base, items, i, |base| + 32 * i, Encoding(base, items));
    } else {
      TailOfItem(items, |base|, i);
      EncodingPlaces(base, items, TailIndex(items, i));
      DynamicAt(base, items, i, Encoding(base, items));
    }
  }

  /** Tails lie behind all heads, a multiple of 32 bytes from the start of the parameters. */
  lemma TailAligned(base: seq<byte>, items: seq<Item>, i: nat)
    requires i < |items| && items[i].Dynamic?
    ensures TailIndex(items, i) <= |Tails(items, |base|)|
    ensures TailAt(base, items, i) == |base| + 32 * (|items| + TailBlocks(Tails(items, |base|), TailIndex(items, i)))
  {
    TailOfItem(items, |base|, i);
    TailStartBlocks(|base + Heads(items)|, Tails(items, |base|), TailIndex(items, i));
  }

  /** Everything that was in the buffer before the first parameter is still there. */
  lemma BaseKept(base: seq<byte>, items: seq<Item>)
    ensures |base| <= |Encoding(base, items)| && Encoding(base, items)[..|base|] == base
  {
    var ds, res := Tails(items, |base|), base + Heads(items);
    TailsShape(items, |base|);
    forall j | 0 <= j < |ds| ensures |base| <= ds[j].offset {
      TailsAreSlots(items, |base|, j);
    }
    EmitKeepsRange(res, ds, 0, |base|);
    assert res[..|base|] == base;
  }

  /** A word of the encoding, read as a number; a decoder may only look inside the string. */
  function ReadWord(s: seq<byte>, at: nat): Option<nat> {
    if at + 32 <= |s| then Some(BE(s[at..at + 32])) else None
  }

  /**
   * The decoder of the specification for parameter i: a static word is its value; a dynamic one
   * is an offset, 32-byte aligned, to a length, that many bytes, and zero padding.
   */
  function Decode(s: seq<byte>, i: nat, dynamic: bool): Option<Item> {
    match ReadWord(s, 32 * i)
    case None => None
    case Some(w) => if dynamic then DecodeTail(s, w) else Some(Static(w))
  }

  function DecodeTail(s: seq<byte>, at: nat): Option<Item> {
    match ReadWord(s, at)
    case None => None
    case Some(len) =>
      var end := at + 32 + len;
      if at % 32 != 0 || end > |s| || !ZeroPadding(s, end) then None else Some(Dynamic(s[at + 32..end]))
  }

  /** From `end` to the next 32-byte boundary the string holds zeros. */
  predicate ZeroPadding(s: seq<byte>, end: nat) {
    32 * Blocks(end) <= |s| && s[end..32 * Blocks(end)] == Zeros(32 * Blocks(end) - end)
  }

  lemma DecodeStatic(items: seq<Item>, i: nat, out: seq<byte>)
    requires i < |items| && items[i].Static? && Fits(items[i]) && ItemAt([], items, i, out)
    ensures Decode(out, i, false) == Some(items[i])
  {
    WordRoundTrip(items[i].v);
  }

  lemma PartOfTail(s: seq<byte>, at: nat, p: seq<byte>, a: nat, b: nat)
    requires at + |p| <= |s| && s[at..at + |p|] == p && a <= b <= |p|
    ensures s[at + a..at + b] == p[a..b]
  {
    forall i | a <= i < b
      ensures s[at + i] == p[i]
    {
      assert s[at..at + |p|][i] == p[i];
    }
  }

  lemma PartsOfMeasured(data: seq<byte>)
    ensures var p := Padded(Measured(data));
            && 32 + |data| <= |p| && p[..32] == Word(|data|) && p[32..32 + |data|] == data
            && p[32 + |data|..] == Zeros(|p| - 32 - |data|)
  {
  }

  /** What a decoder reads out of a padded tail. */
  lemma TailParts(s: seq<byte>, at: nat, data: seq<byte>)
    requires at + |Padded(Measured(data))| <= |s|
    requires s[at..at + |Padded(Measured(data))|] == Padded(Measured(data))
    ensures at + 32 + |data| <= |s|
    ensures s[at..at + 32] == Word(|data|) && s[at + 32..at + 32 + |data|] == data
    ensures s[at + 32 + |data|..at + |Padded(Measured(data))|] == Zeros(|Padded(Measured(data))| - 32 - |data|)
  {
    var p := Padded(Measured(data));
    PartsOfMeasured(data);
    PartOfTail(s, at, p, 0, 32);
    PartOfTail(s, at, p, 32, 32 + |data|);
    PartOfTail(s, at, p, 32 + |data|, |p|);
  }

  lemma AlignedEnd(at: nat, n: nat)
    requires at % 32 == 0
    ensures 32 * Blocks(at + n) == at + 32 * Blocks(n)
  {
    var k := at / 32;
    assert at == 32 * k;
  }

  lemma TailDecodes(s: seq<byte>, at: nat, data: seq<byte>)
    requires at % 32 == 0 && |data| < TWO_256
    requires at + |Padded(Measured(data))| <= |s|
    requires s[at..at + |Padded(Measured(data))|] == Padded(Measured(data))
    ensures DecodeTail(s, at) == Some(Dynamic(data))
  {
    TailParts(s, at, data);
    WordRoundTrip(|data|);
    AlignedEnd(at, 32 + |data|);
    assert ReadWord(s, at) == Some(|data|);
    assert ZeroPadding(s, at + 32 + |data|);
  }

  lemma TailAtBoundary(items: seq<Item>, i: nat)
    requires i < |items| && items[i].Dynamic?
    ensures TailAt([], items, i) % 32 == 0
  {
    TailAligned([], items, i);
  }

  lemma DecodeDynamic(items: seq<Item>, i: nat, out: seq<byte>, at: nat)
    requires i < |items| && items[i].Dynamic? && Fits(items[i]) && |out| < TWO_256
    requires at == TailAt([], items, i) && at % 32 == 0 && ItemAt([], items, i, out)
    ensures Decode(out, i, true) == Some(items[i])
  {
    assert Placed(out, Deferred(32 * i, Measured(items[i].data)), at);
    DecodePlaced(out, 32 * i, at, items[i].data);
  }

  lemma DecodePlaced(s: seq<byte>, o: nat, at: nat, data: seq<byte>)
    requires |s| < TWO_256 && |data| < TWO_256 && at % 32 == 0
    requires Placed(s, Deferred(o, Measured(data)), at)
    ensures ReadWord(s, o) == Some(at) && DecodeTail(s, at) == Some(Dynamic(data))
  {
    WordRoundTrip(at);
    TailDecodes(s, at, data);
  }

  /** From an empty buffer every parameter list decodes back to itself, parameter by parameter. */
  lemma EncodingDecodes(items: seq<Item>)
    requires AllFit(items) && |Encoding([], items)| < TWO_256
    ensures forall i :: 0 <= i < |items| ==> Decode(Encoding([], items), i, items[i].Dynamic?) == Some(items[i])
  {
    forall i | 0 <= i < |items|
      ensures Decode(Encoding([], items), i, items[i].Dynamic?) == Some(items[i])
    {
      assert Fits(items[i]);
      EncodingLaysOut([], items, i);
      if items[i].Static? {
        DecodeStatic(items, i, Encoding([], items));
      } else {
        TailAtBoundary(items, i);
        DecodeDynamic(items, i, Encoding([], items), TailAt([], items, i));
      }
    }
  }

  /** Hence two parameter lists of the same kinds with one encoding are equal. */
  lemma EncodingInjective(items: seq<Item>, others: seq<Item>)
    requires AllFit(items) && AllFit(others) && |items| == |others|
    requires forall i :: 0 <= i < |items| ==> items[i].Dynamic? == others[i].Dynamic?
    requires Encoding([], items) == Encoding([], others) && |Encoding([], items)| < TWO_256
    ensures items == others
  {
    EncodingDecodes(items);
    EncodingDecodes(others);
  }

  lemma TailIndexGrows(items: seq<Item>, i: nat, j: nat)
    requires i < j < |items| && items[i].Dynamic?
    ensures TailIndex(items, i) < TailIndex(items, j)
  {
    TailOfItem(items[..j], 0, i);
    assert items[..j][..i] == items[..i];
  }

  lemma TailStartsApart(len: nat, ds: seq<Deferred>, a: nat, b: nat)
    requires a < b < |ds|
    ensures TailStart(len, ds, a) + |Padded(ds[a].data)| <= TailStart(len, ds, b)
    ensures b == a + 1 ==> TailStart(len, ds, a) + |Padded(ds[a].data)| == TailStart(len, ds, b)
  {
    TailStartNext(len, ds, a);
    TailStartOrder(len, ds, a + 1, b);
  }

  /** The tails follow the heads and each other without gap or overlap, in order. */
  lemma TailsAreDisjoint(base: seq<byte>, items: seq<Item>, i: nat, j: nat)
    requires i < j < |items| && items[i].Dynamic? && items[j].Dynamic?
    ensures TailAt(base, items, i) + |Padded(Measured(items[i].data))| <= TailAt(base, items, j)
    ensures TailIndex(items, j) == TailIndex(items, i) + 1 ==>
              TailAt(base, items, i) + |Padded(Measured(items[i].data))| == TailAt(base, items, j)
  {
    TailOfItem(items, |base|, i);
    TailOfItem(items, |base|, j);
    TailIndexGrows(items, i, j);
    TailStartsApart(|base + Heads(items)|, Tails(items, |base|), TailIndex(items, i), TailIndex(items, j));
  }

  lemma {:induction false} TailStartOrder(len: nat, ds: seq<Deferred>, a: nat, b: nat)
    requires a <= b <= |ds|
    ensures TailStart(len, ds, a) <= TailStart(len, ds, b)
    decreases b
  {
    if a < b {
      TailStartNext(len, ds, b - 1);
      TailStartOrder(len, ds, a, b - 1);
    }
  }
}
