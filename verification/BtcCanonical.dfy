/**
 * Which byte strings a parsed transaction is written back to. The reader accepts over-long
 * counts, skips the segwit flag byte, and takes the segwit form for transactions that carry no
 * witness; the writer never produces any of these.
 */
module BtcCanonical {
  import opened Bytes
  import opened BtcWire
  import opened BtcRoundTrip

  // ---------------------------------------------------------------------------------------
  // Reading back what was written
  // ---------------------------------------------------------------------------------------

  /** Reading s left `rest`. Writing the value read gives the bytes that were read if they were
      short, and fewer bytes if they were not. */
  ghost predicate Reads(s: seq<byte>, written: seq<byte>, rest: seq<byte>, short: bool) {
    if short then s == written + rest else |s| > |written| + |rest|
  }

  /** One read after the other. */
  lemma Chain(s: seq<byte>, w1: seq<byte>, middle: seq<byte>, short1: bool,
              w2: seq<byte>, rest: seq<byte>, short2: bool)
    requires Reads(s, w1, middle, short1) && Reads(middle, w2, rest, short2)
    ensures Reads(s, w1 + w2, rest, short1 && short2)
  {
    Associates(w1, w2, rest);
  }

  lemma Nothing(s: seq<byte>)
    ensures Reads(s, [], s, true)
  {
    assert [] + s == s;
  }

  // ---------------------------------------------------------------------------------------
  // Short counts
  // ---------------------------------------------------------------------------------------

  /** The variable-length integer at the front has no shorter spelling. */
  predicate ShortInt(s: seq<byte>) {
    match ParseVarInt(s)
    case Fail => false
    case Done(v, _) =>
      if s[0] <= 0xfc then true
      else if s[0] == 0xfd then v > 0xfc
      else if s[0] == 0xfe then v > 0xffff
      else v > 0xffff_ffff
  }

  lemma LEReads(s: seq<byte>, k: nat)
    requires k <= |s|
    ensures Reads(s, LE(k, FromLE(s[..k])), s[k..], true)
  {
    LEOfFromLE(s[..k]);
    assert s == s[..k] + s[k..];
  }

  lemma TakeReads(s: seq<byte>, k: nat)
    requires k <= |s|
    ensures Reads(s, s[..k], s[k..], true)
  {
    assert s == s[..k] + s[k..];
  }

  lemma PrefixedReads(s: seq<byte>, b: byte, written: seq<byte>, rest: seq<byte>)
    requires s != [] && s[0] == b && Reads(s[1..], written, rest, true)
    ensures Reads(s, [b] + written, rest, true)
  {
    TakeReads(s, 1);
    Chain(s, [b], s[1..], true, written, rest, true);
  }

  lemma WiderReads(s: seq<byte>, k: nat)
    requires |s| > k && k in {2, 4, 8} && s[0] == (if k == 2 then 0xfd else if k == 4 then 0xfe else 0xff)
    ensures Reads(s, VarInt(FromLE(s[1..][..k])), s[1..][k..], ShortInt(s))
  {
    var v := FromLE(s[1..][..k]);
    Widths();
    FromLEBound(s[1..][..k]);
    LEReads(s[1..], k);
    PrefixedReads(s, s[0], LE(k, v), s[1..][k..]);
    VarIntLength(v);
  }

  lemma IntReads(s: seq<byte>)
    requires ParseVarInt(s).Done?
    ensures Reads(s, VarInt(ParseVarInt(s).value), ParseVarInt(s).rest, ShortInt(s))
  {
    if s[0] <= 0xfc {
      TakeReads(s, 1);
      assert s[..1] == [s[0]];
    } else {
      WiderReads(s, if s[0] == 0xfd then 2 else if s[0] == 0xfe then 4 else 8);
    }
  }

  lemma BufReads(s: seq<byte>)
    requires ParseVarBuf(s).Done?
    ensures Reads(s, VarBuf(ParseVarBuf(s).value), ParseVarBuf(s).rest, ShortInt(s))
  {
    IntReads(s);
    var Done(n, r) := ParseVarInt(s);
    TakeReads(r, n);
    assert r[..0] == [] && r[0..] == r;
    Chain(s, VarInt(n), r, ShortInt(s), r[..n], r[n..], true);
  }

  // ---------------------------------------------------------------------------------------
  // Lists
  // ---------------------------------------------------------------------------------------

  predicate ShortOutput(s: seq<byte>) {
    |s| >= 8 && ShortInt(s[8..])
  }

  /** The first k outputs of s can be read, and their script lengths are short. */
  predicate ShortOutputs(s: seq<byte>, k: nat) {
    k == 0 || (ShortOutputs(s, k - 1) && ShortOutputAfter(ParseOutputs(s, k - 1)))
  }

  predicate ShortOutputAfter(p: Parse<seq<TxOutput>>) {
    p.Done? && ShortOutput(p.rest)
  }

  lemma OutputReads(s: seq<byte>, n: nat)
    requires ParseOutput(s, n).Done?
    ensures Reads(s, OutputBytes(ParseOutput(s, n).value), ParseOutput(s, n).rest, ShortOutput(s))
  {
    LEReads(s, 8);
    BufReads(s[8..]);
    var Done(script, rest) := ParseVarBuf(s[8..]);
    Chain(s, LE(8, FromLE(s[..8])), s[8..], true, VarBuf(script), rest, ShortInt(s[8..]));
  }

  lemma AppendOutputReads(s: seq<byte>, p: Parse<seq<TxOutput>>, short: bool, n: nat)
    requires AppendOutput(p, n).Done? && Reads(s, OutputsBytes(p.value), p.rest, short)
    ensures var Done(os, rest) := AppendOutput(p, n);
            Reads(s, OutputsBytes(os), rest, short && ShortOutputAfter(p))
  {
    var Done(o, rest) := ParseOutput(p.rest, n);
    OutputReads(p.rest, n);
    assert (p.value + [o])[..|p.value|] == p.value;
    Chain(s, OutputsBytes(p.value), p.rest, short, OutputBytes(o), rest, ShortOutput(p.rest));
  }

  ghost predicate OutputsRead(s: seq<byte>, k: nat) {
    ParseOutputs(s, k).Done? ==>
      Reads(s, OutputsBytes(ParseOutputs(s, k).value), ParseOutputs(s, k).rest, ShortOutputs(s, k))
  }

  lemma MoreOutputsRead(s: seq<byte>, k: nat)
    requires OutputsRead(s, k)
    ensures OutputsRead(s, k + 1)
  {
    if ParseOutputs(s, k + 1).Done? {
      AppendOutputReads(s, ParseOutputs(s, k), ShortOutputs(s, k), k);
    }
  }

  lemma AllOutputsRead(s: seq<byte>, k: nat)
    ensures OutputsRead(s, k)
  {
    Nothing(s);
    for i := 0 to k
      invariant OutputsRead(s, i)
    {
      MoreOutputsRead(s, i);
    }
  }

  predicate ShortInput(s: seq<byte>) {
    |s| >= 36 && ShortInt(s[36..])
  }

  predicate ShortInputs(s: seq<byte>, k: nat) {
    k == 0 || (ShortInputs(s, k - 1) && ShortInputAfter(ParseInputs(s, k - 1)))
  }

  predicate ShortInputAfter(p: Parse<seq<TxInput>>) {
    p.Done? && ShortInput(p.rest)
  }

  predicate NoWitnesses(xs: seq<TxInput>) {
    forall i :: 0 <= i < |xs| ==> xs[i].witnesses == []
  }

  lemma WordReads(s: seq<byte>)
    requires ParseWord(s).Done?
    ensures Reads(s, LE(4, ParseWord(s).value), ParseWord(s).rest, true)
  {
    LEReads(s, 4);
  }

  lemma InputReads(s: seq<byte>)
    requires ParseInput(s).Done?
    ensures Reads(s, InputBytes(ParseInput(s).value), ParseInput(s).rest, ShortInput(s))
  {
    var x, r1, r2 := ParseInput(s).value, s[32..], s[32..][4..];
    assert r2 == s[36..];
    var Done(script, r3) := ParseVarBuf(r2);
    var rest := ParseWord(r3).rest;
    ReverseTwice(s[..32]);
    TakeReads(s, 32);
    WordReads(r1);
    BufReads(r2);
    WordReads(r3);
    Chain(s, s[..32], r1, true, LE(4, x.vout), r2, true);
    Chain(s, s[..32] + LE(4, x.vout), r2, true, VarBuf(script), r3, ShortInt(r2));
    Chain(s, s[..32] + LE(4, x.vout) + VarBuf(script), r3, ShortInt(r2), LE(4, x.sequence), rest, true);
  }

  lemma AppendInputReads(s: seq<byte>, p: Parse<seq<TxInput>>, short: bool)
    requires AppendInput(p).Done? && Reads(s, InputsBytes(p.value), p.rest, short)
    ensures var Done(xs, rest) := AppendInput(p);
            Reads(s, InputsBytes(xs), rest, short && ShortInputAfter(p))
  {
    var Done(x, rest) := ParseInput(p.rest);
    InputReads(p.rest);
    assert (p.value + [x])[..|p.value|] == p.value;
    Chain(s, InputsBytes(p.value), p.rest, short, InputBytes(x), rest, ShortInput(p.rest));
  }

  lemma AppendBareInput(p: Parse<seq<TxInput>>)
    requires AppendInput(p).Done? && NoWitnesses(p.value)
    ensures NoWitnesses(AppendInput(p).value)
  {
  }

  ghost predicate InputsAreBare(s: seq<byte>, k: nat) {
    ParseInputs(s, k).Done? ==> NoWitnesses(ParseInputs(s, k).value)
  }

  lemma MoreInputsAreBare(s: seq<byte>, k: nat)
    requires InputsAreBare(s, k)
    ensures InputsAreBare(s, k + 1)
  {
    if ParseInputs(s, k + 1).Done? {
      AppendBareInput(ParseInputs(s, k));
    }
  }

  lemma AllInputsAreBare(s: seq<byte>, k: nat)
    ensures InputsAreBare(s, k)
  {
    for i := 0 to k
      invariant InputsAreBare(s, i)
    {
      MoreInputsAreBare(s, i);
    }
  }

  ghost predicate InputsRead(s: seq<byte>, k: nat) {
    ParseInputs(s, k).Done? ==>
      Reads(s, InputsBytes(ParseInputs(s, k).value), ParseInputs(s, k).rest, ShortInputs(s, k))
  }

  lemma MoreInputsRead(s: seq<byte>, k: nat)
    requires InputsRead(s, k)
    ensures InputsRead(s, k + 1)
  {
    if ParseInputs(s, k + 1).Done? {
      AppendInputReads(s, ParseInputs(s, k), ShortInputs(s, k));
    }
  }

  lemma AllInputsRead(s: seq<byte>, k: nat)
    ensures InputsRead(s, k)
  {
    Nothing(s);
    for i := 0 to k
      invariant InputsRead(s, i)
    {
      MoreInputsRead(s, i);
    }
  }

  predicate ShortItems(s: seq<byte>, k: nat) {
    k == 0 || (ShortItems(s, k - 1) && ShortItemAfter(ParseItems(s, k - 1)))
  }

  predicate ShortItemAfter(p: Parse<seq<seq<byte>>>) {
    p.Done? && ShortInt(p.rest)
  }

  lemma AppendItemReads(s: seq<byte>, p: Parse<seq<seq<byte>>>, short: bool)
    requires AppendItem(p).Done? && Reads(s, ItemsBytes(p.value), p.rest, short)
    ensures var Done(ws, rest) := AppendItem(p);
            Reads(s, ItemsBytes(ws), rest, short && ShortItemAfter(p))
  {
    var Done(w, rest) := ParseVarBuf(p.rest);
    BufReads(p.rest);
    assert (p.value + [w])[..|p.value|] == p.value;
    Chain(s, ItemsBytes(p.value), p.rest, short, VarBuf(w), rest, ShortInt(p.rest));
  }

  ghost predicate ItemsRead(s: seq<byte>, k: nat) {
    ParseItems(s, k).Done? ==>
      Reads(s, ItemsBytes(ParseItems(s, k).value), ParseItems(s, k).rest, ShortItems(s, k))
  }

  lemma MoreItemsRead(s: seq<byte>, k: nat)
    requires ItemsRead(s, k)
    ensures ItemsRead(s, k + 1)
  {
    if ParseItems(s, k + 1).Done? {
      AppendItemReads(s, ParseItems(s, k), ShortItems(s, k));
    }
  }

  lemma AllItemsRead(s: seq<byte>, k: nat)
    ensures ItemsRead(s, k)
  {
    Nothing(s);
    for i := 0 to k
      invariant ItemsRead(s, i)
    {
      MoreItemsRead(s, i);
    }
  }

  lemma {:induction false} ItemsCount(s: seq<byte>, k: nat)
    requires ParseItems(s, k).Done?
    ensures |ParseItems(s, k).value| == k
  {
    if k > 0 {
      ItemsCount(s, k - 1);
    }
  }

  predicate ShortStack(s: seq<byte>) {
    ShortInt(s) && ShortItems(ParseVarInt(s).rest, ParseVarInt(s).value)
  }

  lemma StackReads(s: seq<byte>)
    requires ParseStack(s).Done?
    ensures Reads(s, StackBytes(ParseStack(s).value), ParseStack(s).rest, ShortStack(s))
  {
    IntReads(s);
    var Done(k, r) := ParseVarInt(s);
    AllItemsRead(r, k);
    ItemsCount(r, k);
    var Done(ws, rest) := ParseItems(r, k);
    Chain(s, VarInt(k), r, ShortInt(s), ItemsBytes(ws), rest, ShortItems(r, k));
  }

  predicate ShortStacks(s: seq<byte>, xs: seq<TxInput>, k: nat)
    requires k <= |xs|
  {
    k == 0 || (ShortStacks(s, xs, k - 1) && ShortStackAfter(ParseStacks(s, xs, k - 1)))
  }

  predicate ShortStackAfter(p: Parse<seq<TxInput>>) {
    p.Done? && ShortStack(p.rest)
  }

  predicate SameButWitness(xs: seq<TxInput>, ys: seq<TxInput>) {
    |xs| == |ys| && forall i :: 0 <= i < |xs| ==> ys[i] == xs[i].(witnesses := ys[i].witnesses)
  }

  lemma StoreStackReads(s: seq<byte>, p: Parse<seq<TxInput>>, short: bool, k: nat)
    requires p.Done? && k < |p.value| && StoreStack(p, k).Done?
    requires Reads(s, StacksBytes(p.value[..k]), p.rest, short)
    ensures var Done(ys, rest) := StoreStack(p, k);
            Reads(s, StacksBytes(ys[..k + 1]), rest, short && ShortStackAfter(p))
  {
    var Done(ws, rest) := ParseStack(p.rest);
    StackReads(p.rest);
    var ys := p.value[k := p.value[k].(witnesses := ws)];
    assert ys[..k + 1][..k] == p.value[..k];
    Chain(s, StacksBytes(p.value[..k]), p.rest, short, StackBytes(ws), rest, ShortStack(p.rest));
  }

  lemma StoreKeepsRest(xs: seq<TxInput>, p: Parse<seq<TxInput>>, k: nat)
    requires p.Done? && k < |p.value| && StoreStack(p, k).Done? && SameButWitness(xs, p.value)
    ensures SameButWitness(xs, StoreStack(p, k).value)
  {
  }

  ghost predicate StacksKeepRest(s: seq<byte>, xs: seq<TxInput>, k: nat)
    requires k <= |xs|
  {
    ParseStacks(s, xs, k).Done? ==> SameButWitness(xs, ParseStacks(s, xs, k).value)
  }

  lemma MoreStacksKeepRest(s: seq<byte>, xs: seq<TxInput>, k: nat)
    requires k < |xs| && StacksKeepRest(s, xs, k)
    ensures StacksKeepRest(s, xs, k + 1)
  {
    if ParseStacks(s, xs, k + 1).Done? {
      StoreKeepsRest(xs, ParseStacks(s, xs, k), k);
    }
  }

  lemma AllStacksKeepRest(s: seq<byte>, xs: seq<TxInput>)
    ensures StacksKeepRest(s, xs, |xs|)
  {
    for i := 0 to |xs|
      invariant StacksKeepRest(s, xs, i)
    {
      MoreStacksKeepRest(s, xs, i);
    }
  }

  ghost predicate StacksRead(s: seq<byte>, xs: seq<TxInput>, k: nat)
    requires k <= |xs|
  {
    ParseStacks(s, xs, k).Done? ==>
      Reads(s, StacksBytes(ParseStacks(s, xs, k).value[..k]), ParseStacks(s, xs, k).rest, ShortStacks(s, xs, k))
  }

  lemma MoreStacksRead(s: seq<byte>, xs: seq<TxInput>, k: nat)
    requires k < |xs| && StacksRead(s, xs, k)
    ensures StacksRead(s, xs, k + 1)
  {
    if ParseStacks(s, xs, k + 1).Done? {
      StoreStackReads(s, ParseStacks(s, xs, k), ShortStacks(s, xs, k), k);
    }
  }

  lemma AllStacksRead(s: seq<byte>, xs: seq<TxInput>)
    ensures StacksRead(s, xs, |xs|)
  {
    Nothing(s);
    for i := 0 to |xs|
      invariant StacksRead(s, xs, i)
    {
      MoreStacksRead(s, xs, i);
    }
  }

  lemma {:induction false} SameInputBytes(xs: seq<TxInput>, ys: seq<TxInput>)
    requires SameButWitness(xs, ys)
    ensures InputsBytes(xs) == InputsBytes(ys)
  {
    if xs != [] {
      SameInputBytes(xs[..|xs| - 1], ys[..|ys| - 1]);
    }
  }

  // ---------------------------------------------------------------------------------------
  // Transactions
  // ---------------------------------------------------------------------------------------

  predicate ShortTail(segwit: bool, ins: seq<TxInput>, s: seq<byte>) {
    segwit ==> ShortStacks(s, ins, |ins|)
  }

  lemma SegwitTailReads(version: u32, ins: seq<TxInput>, outs: seq<TxOutput>, s: seq<byte>)
    requires ParseTail(version, true, ins, outs, s).Done?
    ensures var Done(tx, rest) := ParseTail(version, true, ins, outs, s);
            Reads(s, TailBytes(tx, true), rest, ShortTail(true, ins, s))
  {
    var Done(tx, rest) := ParseTail(version, true, ins, outs, s);
    AllStacksRead(s, ins);
    var Done(ys, r) := ParseStacks(s, ins, |ins|);
    assert ys[..|ins|] == ys;
    WordReads(r);
    Chain(s, StacksBytes(ys), r, ShortStacks(s, ins, |ins|), LE(4, tx.locktime), rest, true);
  }

  lemma TailReads(version: u32, segwit: bool, ins: seq<TxInput>, outs: seq<TxOutput>, s: seq<byte>)
    requires ParseTail(version, segwit, ins, outs, s).Done?
    ensures var Done(tx, rest) := ParseTail(version, segwit, ins, outs, s);
            Reads(s, TailBytes(tx, segwit), rest, ShortTail(segwit, ins, s))
  {
    if segwit {
      SegwitTailReads(version, ins, outs, s);
    } else {
      var tx := ParseTail(version, segwit, ins, outs, s).value;
      WordReads(s);
      assert [] + LE(4, tx.locktime) == LE(4, tx.locktime);
    }
  }

  /** The tail leaves version, outputs and the bytes of the inputs as they were read. */
  lemma TailKeeps(version: u32, segwit: bool, ins: seq<TxInput>, outs: seq<TxOutput>, s: seq<byte>)
    requires ParseTail(version, segwit, ins, outs, s).Done?
    ensures var tx := ParseTail(version, segwit, ins, outs, s).value;
            && tx.version == version && tx.outs == outs && InputsBytes(tx.ins) == InputsBytes(ins)
            && |tx.ins| == |ins| && (!segwit ==> tx.ins == ins)
  {
    if segwit {
      AllStacksKeepRest(s, ins);
      SameInputBytes(ins, ParseStacks(s, ins, |ins|).value);
    }
  }

  predicate ShortOuts(segwit: bool, ins: seq<TxInput>, s: seq<byte>) {
    ShortInt(s)
    && var Done(count, r) := ParseVarInt(s);
       ShortOutputs(r, count) && ParseOutputs(r, count).Done? && ShortTail(segwit, ins, ParseOutputs(r, count).rest)
  }

  lemma OutsRead(version: u32, segwit: bool, ins: seq<TxInput>, s: seq<byte>)
    requires ParseOuts(version, segwit, ins, s).Done?
    ensures var Done(tx, rest) := ParseOuts(version, segwit, ins, s);
            Reads(s, OutsBytes(tx, segwit), rest, ShortOuts(segwit, ins, s))
  {
    var Done(tx, rest) := ParseOuts(version, segwit, ins, s);
    IntReads(s);
    var Done(count, r) := ParseVarInt(s);
    AllOutputsRead(r, count);
    ParseOutputsSize(r, count);
    var Done(outs, r1) := ParseOutputs(r, count);
    TailReads(version, segwit, ins, outs, r1);
    TailKeeps(version, segwit, ins, outs, r1);
    Chain(r, OutputsBytes(outs), r1, ShortOutputs(r, count), TailBytes(tx, segwit), rest, ShortTail(segwit, ins, r1));
    Chain(s, VarInt(count), r, ShortInt(s), OutputsBytes(outs) + TailBytes(tx, segwit), rest,
          ShortOutputs(r, count) && ShortTail(segwit, ins, r1));
  }

  lemma OutsKeep(version: u32, segwit: bool, ins: seq<TxInput>, s: seq<byte>)
    requires ParseOuts(version, segwit, ins, s).Done?
    ensures var tx := ParseOuts(version, segwit, ins, s).value;
            && tx.version == version && InputsBytes(tx.ins) == InputsBytes(ins)
            && |tx.ins| == |ins| && (!segwit ==> tx.ins == ins)
  {
    var Done(count, r) := ParseVarInt(s);
    var Done(outs, r1) := ParseOutputs(r, count);
    TailKeeps(version, segwit, ins, outs, r1);
  }

  predicate ShortBody(segwit: bool, count: nat, s: seq<byte>) {
    && ShortInputs(s, count) && ParseInputs(s, count).Done?
    && ShortOuts(segwit, ParseInputs(s, count).value, ParseInputs(s, count).rest)
  }

  lemma BodyReads(version: u32, segwit: bool, count: nat, s: seq<byte>)
    requires ParseBody(version, segwit, count, s).Done?
    ensures var Done(tx, rest) := ParseBody(version, segwit, count, s);
            Reads(s, BodyBytes(tx, segwit), rest, ShortBody(segwit, count, s))
  {
    var Done(tx, rest) := ParseBody(version, segwit, count, s);
    AllInputsRead(s, count);
    var Done(ins, r) := ParseInputs(s, count);
    OutsRead(version, segwit, ins, r);
    OutsKeep(version, segwit, ins, r);
    Chain(s, InputsBytes(ins), r, ShortInputs(s, count), OutsBytes(tx, segwit), rest, ShortOuts(segwit, ins, r));
  }

  lemma BodyKeeps(version: u32, segwit: bool, count: nat, s: seq<byte>)
    requires ParseBody(version, segwit, count, s).Done?
    ensures var tx := ParseBody(version, segwit, count, s).value;
            tx.version == version && |tx.ins| == count && (!segwit ==> !HasWitness(tx))
  {
    ParseInputsLength(s, count);
    AllInputsAreBare(s, count);
    var Done(ins, r) := ParseInputs(s, count);
    OutsKeep(version, segwit, ins, r);
  }

  // ---------------------------------------------------------------------------------------
  // The two forms
  // ---------------------------------------------------------------------------------------

  /** The input count, the inputs and what follows, from the count on. */
  predicate ShortCounted(segwit: bool, s: seq<byte>) {
    ShortInt(s) && ShortBody(segwit, ParseVarInt(s).value, ParseVarInt(s).rest)
  }

  lemma CountedReads(version: u32, segwit: bool, s: seq<byte>)
    requires ParseVarInt(s).Done? && ParseBody(version, segwit, ParseVarInt(s).value, ParseVarInt(s).rest).Done?
    ensures var Done(tx, rest) := ParseBody(version, segwit, ParseVarInt(s).value, ParseVarInt(s).rest);
            && tx.version == version && (!segwit ==> !HasWitness(tx))
            && Reads(s, VarInt(|tx.ins|) + BodyBytes(tx, segwit), rest, ShortCounted(segwit, s))
  {
    var Done(count, r) := ParseVarInt(s);
    var Done(tx, rest) := ParseBody(version, segwit, count, r);
    IntReads(s);
    BodyReads(version, segwit, count, r);
    BodyKeeps(version, segwit, count, r);
    Chain(s, VarInt(count), r, ShortInt(s), BodyBytes(tx, segwit), rest, ShortBody(segwit, count, r));
  }

  /** The first count after the version is zero, however it is spelled. */
  predicate Marked(s: seq<byte>) {
    |s| >= 4 && ParseVarInt(s[4..]).Done? && ParseVarInt(s[4..]).value == 0
  }

  /** What follows the marker and the flag byte. */
  function AfterFlag(s: seq<byte>): seq<byte>
    requires Marked(s) && ParseVarInt(s[4..]).rest != []
  {
    ParseVarInt(s[4..]).rest[1..]
  }

  /** Every count and length in the bytes of the transaction has its shortest spelling. */
  predicate ShortCounts(s: seq<byte>) {
    && |s| >= 4
    && if Marked(s) then ShortInt(s[4..]) && ParseVarInt(s[4..]).rest != [] && ShortCounted(true, AfterFlag(s))
       else ShortCounted(false, s[4..])
  }

  lemma LegacyRewrites(s: seq<byte>)
    requires ParseTx(s).Done? && !Marked(s)
    ensures var Done(tx, rest) := ParseTx(s);
            Reads(s, TxBytes(tx), rest, ShortCounts(s))
  {
    var Done(tx, rest) := ParseTx(s);
    var version, s' := ParseWord(s).value, s[4..];
    WordReads(s);
    CountedReads(version, false, s');
    assert Marker(false) + (VarInt(|tx.ins|) + BodyBytes(tx, false)) == VarInt(|tx.ins|) + BodyBytes(tx, false);
    Chain(s, LE(4, version), s', true, VarInt(|tx.ins|) + BodyBytes(tx, false), rest, ShortCounted(false, s'));
  }

  /** A marker spelled in one byte, and a flag. */
  lemma FlagReads(s: seq<byte>, written: seq<byte>, rest: seq<byte>, short: bool)
    requires |s| >= 2 && s[0] == 0 && Reads(s[2..], written, rest, short)
    ensures Reads(s, [0, s[1]] + written, rest, short)
  {
    TakeReads(s, 2);
    assert s[..2] == [0, s[1]];
    Chain(s, [0, s[1]], s[2..], true, written, rest, short);
  }

  /** The segwit form with any flag byte. */
  function Flagged(tx: Tx, flag: byte): seq<byte> {
    LE(4, tx.version) + ([0, flag] + (VarInt(|tx.ins|) + BodyBytes(tx, true)))
  }

  function FlagOf(s: seq<byte>): byte
    requires Marked(s) && ParseVarInt(s[4..]).rest != []
  {
    ParseVarInt(s[4..]).rest[0]
  }

  lemma ShortZero(s: seq<byte>)
    requires ParseVarInt(s).Done? && ParseVarInt(s).value == 0
    ensures ShortInt(s) ==> s[0] == 0 && ParseVarInt(s).rest == s[1..]
    ensures !ShortInt(s) ==> |s| > 1 + |ParseVarInt(s).rest|
  {
    IntReads(s);
  }

  lemma SegwitReads(s: seq<byte>)
    requires ParseTx(s).Done? && Marked(s)
    ensures ParseVarInt(s[4..]).rest != []
    ensures Reads(s, Flagged(ParseTx(s).value, FlagOf(s)), ParseTx(s).rest, ShortCounts(s))
  {
    var Done(tx, rest) := ParseTx(s);
    var version, s' := ParseWord(s).value, s[4..];
    var r := ParseVarInt(s').rest;
    var written := VarInt(|tx.ins|) + BodyBytes(tx, true);
    CountedReads(version, true, r[1..]);
    ShortZero(s');
    if ShortInt(s') {
      assert s'[2..] == r[1..];
      FlagReads(s', written, rest, ShortCounted(true, r[1..]));
      WordReads(s);
      Chain(s, LE(4, version), s', true, [0, r[0]] + written, rest, ShortCounted(true, r[1..]));
    }
  }

  lemma FlagsDiffer(tx: Tx, flag: byte, rest: seq<byte>)
    ensures Flagged(tx, flag) + rest == Exported(tx, true) + rest <==> flag == 1
  {
    if flag != 1 {
      assert (Flagged(tx, flag) + rest)[5] == flag && (Exported(tx, true) + rest)[5] == 1;
    }
  }

  lemma LegacyIsShorter(tx: Tx, flag: byte)
    ensures |Flagged(tx, flag)| == |Exported(tx, true)| > |Exported(tx, false)|
  {
  }

  /**
   * Reading a transaction and writing it again gives back exactly the bytes that were read, if
   * and only if every count has its shortest spelling and the segwit form, where it is used, has
   * flag 1 and a transaction with a witness.
   */
  lemma RewritesExactly(s: seq<byte>)
    requires ParseTx(s).Done?
    ensures var Done(tx, rest) := ParseTx(s);
            && (s == TxBytes(tx) + rest
                <==> ShortCounts(s) && (Marked(s) ==> FlagOf(s) == 1 && HasWitness(tx)))
            && |s| >= |TxBytes(tx)| + |rest|
  {
    var Done(tx, rest) := ParseTx(s);
    if Marked(s) {
      SegwitReads(s);
      FlagsDiffer(tx, FlagOf(s), rest);
      LegacyIsShorter(tx, FlagOf(s));
    } else {
      LegacyRewrites(s);
    }
  }

  /** Any flag byte is accepted, with or without a witness to follow. */
  lemma AnyFlagIsRead(tx: Tx, flag: byte, rest: seq<byte>)
    requires WellSized(tx) && tx.ins != [] && WithinLimits(tx)
    ensures ParseTx(Flagged(tx, flag) + rest) == Done(tx.(outs := Renumbered(tx.outs)), rest)
    ensures flag != 1 || !HasWitness(tx) ==> Flagged(tx, flag) != TxBytes(tx)
  {
    var body := BodyBytes(tx, true) + rest;
    var counted := [0, flag] + (VarInt(|tx.ins|) + body);
    FlaggedSplit(tx, flag, rest);
    ParseWordOf(tx.version, counted);
    CountedSegwit(tx, flag, body);
    BodyOf(tx, true, rest);
    FlagsDiffer(tx, flag, []);
    LegacyIsShorter(tx, flag);
  }

  lemma FlaggedSplit(tx: Tx, flag: byte, rest: seq<byte>)
    ensures Flagged(tx, flag) + rest
         == LE(4, tx.version) + ([0, flag] + (VarInt(|tx.ins|) + (BodyBytes(tx, true) + rest)))
  {
    var a, b, c, d := LE(4, tx.version), [0, flag], VarInt(|tx.ins|), BodyBytes(tx, true);
    assert (a + (b + (c + d))) + rest == a + (b + (c + (d + rest)));
  }

  /** The legacy form with its input count spelled in three bytes. */
  function LongCounted(tx: Tx): seq<byte> {
    LE(4, tx.version) + (([0xfd] + LE(2, |tx.ins|)) + BodyBytes(tx, false))
  }

  lemma LongCountReads(n: nat, rest: seq<byte>)
    requires n <= 0xffff
    ensures ParseVarInt(([0xfd] + LE(2, n)) + rest) == Done(n, rest)
  {
    Widths();
    assert (([0xfd] + LE(2, n)) + rest)[1..] == LE(2, n) + rest;
    ParseLEOf(2, n, rest);
  }

  /** A count that one byte could hold is accepted in three. */
  lemma LongCountIsRead(tx: Tx, rest: seq<byte>)
    requires WellSized(tx) && 0 < |tx.ins| <= 0xfc && WithinLimits(tx) && !HasWitness(tx)
    ensures ParseTx(LongCounted(tx) + rest) == Done(tx.(outs := Renumbered(tx.outs)), rest)
    ensures |LongCounted(tx)| == |TxBytes(tx)| + 2
  {
    var a, c, d := LE(4, tx.version), [0xfd] + LE(2, |tx.ins|), BodyBytes(tx, false);
    assert (a + (c + d)) + rest == a + (c + (d + rest));
    ParseWordOf(tx.version, c + (d + rest));
    LongCountReads(|tx.ins|, d + rest);
    BodyOf(tx, false, rest);
  }
}
