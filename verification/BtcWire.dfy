/**
  The Bitcoin wire format, as pure functions: what the transaction code writes, and what it
  reads back. `Parse` is the outcome of reading from the front of a byte string; the reader
  classes of module BtcReader are proved against these functions.
*/
module BtcWire {
  import opened Arith
  import opened Bytes

  datatype Parse<+T> = Fail | Done(value: T, rest: seq<byte>)

  datatype TxInput = TxInput(txid: seq<byte>, vout: u32, script: seq<byte>, sequence: u32, witnesses: seq<seq<byte>>)

  /** `n` is the position in the output list; it is not stored on the wire. */
  datatype TxOutput = TxOutput(amount: u64, n: nat, script: seq<byte>)

  datatype Tx = Tx(version: u32, ins: seq<TxInput>, outs: seq<TxOutput>, locktime: u32)

  const MAX_INPUTS := 10000
  const MAX_OUTPUTS := 65536
  const MAX_WITNESSES := 10000
  const MAX_BUFFER := 100000

  /** Lengths are Go ints. */
  const MAX_INT := 0x7fff_ffff_ffff_ffff

  ghost predicate Sized<T>(s: seq<T>) {
    |s| <= MAX_INT
  }

  ghost predicate WellSizedInput(i: TxInput) {
    |i.txid| == 32 && Sized(i.script) && Sized(i.witnesses)
    && forall k :: 0 <= k < |i.witnesses| ==> Sized(i.witnesses[k])
  }

  /** The transactions that the Go types can hold. */
  ghost predicate WellSized(tx: Tx) {
    && Sized(tx.ins) && Sized(tx.outs)
    && (forall k :: 0 <= k < |tx.ins| ==> WellSizedInput(tx.ins[k]))
    && (forall k :: 0 <= k < |tx.outs| ==> Sized(tx.outs[k].script))
  }

  // ---------------------------------------------------------------------------------------
  // Variable-length integers and buffers
  // ---------------------------------------------------------------------------------------

  function VarInt(v: nat): seq<byte> {
    if v <= 0xfc then [v]
    else if v <= 0xffff then [0xfd] + LE(2, v)
    else if v <= 0xffff_ffff then [0xfe] + LE(4, v)
    else [0xff] + LE(8, v)
  }

  function VarIntLen(v: nat): nat {
    if v <= 0xfc then 1 else if v <= 0xffff then 3 else if v <= 0xffff_ffff then 5 else 9
  }

  lemma VarIntLength(v: nat)
    ensures |VarInt(v)| == VarIntLen(v)
  {
  }

  function Take(s: seq<byte>, k: nat): Parse<seq<byte>> {
    if |s| < k then Fail else Done(s[..k], s[k..])
  }

  function ParseLE(s: seq<byte>, k: nat): Parse<nat> {
    if |s| < k then Fail else Done(FromLE(s[..k]), s[k..])
  }

  function ParseVarInt(s: seq<byte>): Parse<nat> {
    if s == [] then Fail
    else if s[0] <= 0xfc then Done(s[0], s[1..])
    else if s[0] == 0xfd then ParseLE(s[1..], 2)
    else if s[0] == 0xfe then ParseLE(s[1..], 4)
    else ParseLE(s[1..], 8)
  }

  function VarBuf(b: seq<byte>): seq<byte> {
    VarInt(|b|) + b
  }

  function ParseVarBuf(s: seq<byte>): Parse<seq<byte>> {
    match ParseVarInt(s)
    case Fail => Fail
    case Done(n, r) => if n == 0 then Done([], r) else if n > MAX_BUFFER then Fail else Take(r, n)
  }

  lemma TakeOf(b: seq<byte>, rest: seq<byte>)
    ensures Take(b + rest, |b|) == Done(b, rest)
  {
  }

  lemma ParseLEOf(k: nat, v: nat, rest: seq<byte>)
    requires v < Pow(256, k)
    ensures ParseLE(LE(k, v) + rest, k) == Done(v, rest)
  {
    TakeOf(LE(k, v), rest);
    FromLEOfLE(k, v);
  }

  lemma ParseVarIntOf(v: nat, rest: seq<byte>)
    requires v <= MAX_INT
    ensures ParseVarInt(VarInt(v) + rest) == Done(v, rest)
  {
    var s := VarInt(v) + rest;
    Widths();
    if v <= 0xfc {
      assert s[1..] == rest;
    } else {
      var k := if v <= 0xffff then 2 else if v <= 0xffff_ffff then 4 else 8;
      assert s[1..] == LE(k, v) + rest;
      ParseLEOf(k, v, rest);
    }
  }

  /** A read never consumes less than writing the value takes; over-long forms are accepted. */
  lemma ParseVarIntSize(s: seq<byte>)
    requires ParseVarInt(s).Done?
    ensures |s| >= |VarInt(ParseVarInt(s).value)| + |ParseVarInt(s).rest|
  {
    Widths();
    if s[0] == 0xfd {
      FromLEBound(s[1..][..2]);
    } else if s[0] == 0xfe {
      FromLEBound(s[1..][..4]);
    }
  }

  predicate Fits(b: seq<byte>) {
    |b| <= MAX_BUFFER
  }

  lemma ParseVarBufOf(b: seq<byte>, rest: seq<byte>)
    requires Sized(b)
    ensures ParseVarBuf(VarBuf(b) + rest) == if Fits(b) then Done(b, rest) else Fail
  {
    assert VarBuf(b) + rest == VarInt(|b|) + (b + rest);
    ParseVarIntOf(|b|, b + rest);
    TakeOf(b, rest);
    if b == [] {
      assert b + rest == rest;
    }
  }

  lemma ParseVarBufSize(s: seq<byte>)
    requires ParseVarBuf(s).Done?
    ensures |s| >= |VarBuf(ParseVarBuf(s).value)| + |ParseVarBuf(s).rest|
  {
    ParseVarIntSize(s);
  }

  // ---------------------------------------------------------------------------------------
  // Outputs
  // ---------------------------------------------------------------------------------------

  function OutputBytes(o: TxOutput): seq<byte> {
    LE(8, o.amount) + VarBuf(o.script)
  }

  function ParseOutput(s: seq<byte>, n: nat): Parse<TxOutput> {
    match ParseLE(s, 8)
    case Fail => Fail
    case Done(amount, r) =>
      match ParseVarBuf(r)
      case Fail => Fail
      case Done(script, r') =>
        AmountInRange(s);
        Done(TxOutput(amount, n, script), r')
  }

  lemma AmountInRange(s: seq<byte>)
    requires |s| >= 8
    ensures FromLE(s[..8]) < 0x1_0000_0000_0000_0000
  {
    Widths();
    FromLEBound(s[..8]);
  }

  function OutputsBytes(os: seq<TxOutput>): seq<byte> {
    if os == [] then [] else OutputsBytes(os[..|os| - 1]) + OutputBytes(os[|os| - 1])
  }

  function AppendOutput(p: Parse<seq<TxOutput>>, n: nat): Parse<seq<TxOutput>> {
    match p
    case Fail => Fail
    case Done(os, r) =>
      match ParseOutput(r, n)
      case Fail => Fail
      case Done(o, r') => Done(os + [o], r')
  }

  /** k outputs, numbered from 0 on. */
  function ParseOutputs(s: seq<byte>, k: nat): Parse<seq<TxOutput>> {
    if k == 0 then Done([], s) else AppendOutput(ParseOutputs(s, k - 1), k - 1)
  }

  lemma ParseOutputOf(o: TxOutput, n: nat, rest: seq<byte>)
    requires Sized(o.script)
    ensures ParseOutput(OutputBytes(o) + rest, n) == if Fits(o.script) then Done(o.(n := n), rest) else Fail
  {
    Widths();
    assert OutputBytes(o) + rest == LE(8, o.amount) + (VarBuf(o.script) + rest);
    ParseLEOf(8, o.amount, VarBuf(o.script) + rest);
    ParseVarBufOf(o.script, rest);
  }

  function Renumbered(os: seq<TxOutput>): seq<TxOutput> {
    seq(|os|, i requires 0 <= i < |os| => os[i].(n := i))
  }

  predicate OutputsFit(os: seq<TxOutput>) {
    forall i :: 0 <= i < |os| ==> Fits(os[i].script)
  }

  lemma OutputsSnoc(os: seq<TxOutput>)
    requires os != []
    ensures var k := |os| - 1;
            && (OutputsFit(os) <==> OutputsFit(os[..k]) && Fits(os[k].script))
            && Renumbered(os) == Renumbered(os[..k]) + [os[k].(n := k)]
  {
    var k := |os| - 1;
    assert Renumbered(os) == Renumbered(os[..k]) + [os[k].(n := k)];
    if OutputsFit(os[..k]) && Fits(os[k].script) {
      forall i | 0 <= i < |os|
        ensures Fits(os[i].script)
      {
        assert i < k ==> os[i] == os[..k][i];
      }
    }
  }

  lemma AppendOutputOf(os: seq<TxOutput>, o: TxOutput, n: nat, rest: seq<byte>)
    requires Sized(o.script)
    ensures AppendOutput(Done(os, OutputBytes(o) + rest), n)
            == if Fits(o.script) then Done(os + [o.(n := n)], rest) else Fail
  {
    ParseOutputOf(o, n, rest);
  }

  lemma {:induction false} ParseOutputsOf(os: seq<TxOutput>, rest: seq<byte>)
    requires forall i :: 0 <= i < |os| ==> Sized(os[i].script)
    ensures ParseOutputs(OutputsBytes(os) + rest, |os|)
            == if OutputsFit(os) then Done(Renumbered(os), rest) else Fail
  {
    if os == [] {
      assert OutputsBytes(os) + rest == rest && Renumbered(os) == [];
    } else {
      var k := |os| - 1;
      var s := OutputBytes(os[k]) + rest;
      assert OutputsBytes(os) + rest == OutputsBytes(os[..k]) + s;
      ParseOutputsOf(os[..k], s);
      AppendOutputOf(Renumbered(os[..k]), os[k], k, rest);
      OutputsSnoc(os);
    }
  }

  lemma {:induction false} ParseOutputsSize(s: seq<byte>, k: nat)
    requires ParseOutputs(s, k).Done?
    ensures |ParseOutputs(s, k).value| == k
    ensures |s| >= |OutputsBytes(ParseOutputs(s, k).value)| + |ParseOutputs(s, k).rest|
  {
    if k > 0 {
      ParseOutputsSize(s, k - 1);
      var Done(os, r) := ParseOutputs(s, k - 1);
      ParseVarBufSize(r[8..]);
      var o := ParseOutput(r, k - 1).value;
      assert (os + [o])[..k - 1] == os;
    }
  }

  // ---------------------------------------------------------------------------------------
  // Inputs and witnesses
  // ---------------------------------------------------------------------------------------

  function InputBytes(i: TxInput): seq<byte> {
    Reverse(i.txid) + LE(4, i.vout) + VarBuf(i.script) + LE(4, i.sequence)
  }

  lemma WordInRange(s: seq<byte>)
    requires |s| >= 4
    ensures FromLE(s[..4]) < 0x1_0000_0000
  {
    Widths();
    FromLEBound(s[..4]);
  }

  function ParseWord(s: seq<byte>): Parse<u32> {
    if |s| < 4 then Fail
    else
      WordInRange(s);
      Done(FromLE(s[..4]), s[4..])
  }

  function ParseInput(s: seq<byte>): Parse<TxInput> {
    match Take(s, 32)
    case Fail => Fail
    case Done(txid, r1) =>
      match ParseWord(r1)
      case Fail => Fail
      case Done(vout, r2) =>
        match ParseVarBuf(r2)
        case Fail => Fail
        case Done(script, r3) =>
          match ParseWord(r3)
          case Fail => Fail
          case Done(sequence, r4) => Done(TxInput(Reverse(txid), vout, script, sequence, []), r4)
  }

  lemma ParseWordOf(v: u32, rest: seq<byte>)
    ensures ParseWord(LE(4, v) + rest) == Done(v, rest)
  {
    Widths();
    ParseLEOf(4, v, rest);
  }

  lemma ParseInputOf(i: TxInput, rest: seq<byte>)
    requires WellSizedInput(i)
    ensures ParseInput(InputBytes(i) + rest) == if Fits(i.script) then Done(i.(witnesses := []), rest) else Fail
  {
    var r3 := LE(4, i.sequence) + rest;
    var r2 := VarBuf(i.script) + r3;
    var r1 := LE(4, i.vout) + r2;
    assert InputBytes(i) + rest == Reverse(i.txid) + r1;
    TakeOf(Reverse(i.txid), r1);
    ReverseTwice(i.txid);
    ParseWordOf(i.vout, r2);
    ParseVarBufOf(i.script, r3);
    ParseWordOf(i.sequence, rest);
  }

  function InputsBytes(xs: seq<TxInput>): seq<byte> {
    if xs == [] then [] else InputsBytes(xs[..|xs| - 1]) + InputBytes(xs[|xs| - 1])
  }

  function AppendInput(p: Parse<seq<TxInput>>): Parse<seq<TxInput>> {
    match p
    case Fail => Fail
    case Done(xs, r) =>
      match ParseInput(r)
      case Fail => Fail
      case Done(x, r') => Done(xs + [x], r')
  }

  function ParseInputs(s: seq<byte>, k: nat): Parse<seq<TxInput>> {
    if k == 0 then Done([], s) else AppendInput(ParseInputs(s, k - 1))
  }

  function Bare(xs: seq<TxInput>): seq<TxInput> {
    seq(|xs|, i requires 0 <= i < |xs| => xs[i].(witnesses := []))
  }

  predicate ScriptsFit(xs: seq<TxInput>) {
    forall i :: 0 <= i < |xs| ==> Fits(xs[i].script)
  }

  lemma InputsSnoc(xs: seq<TxInput>)
    requires xs != []
    ensures var k := |xs| - 1;
            && (ScriptsFit(xs) <==> ScriptsFit(xs[..k]) && Fits(xs[k].script))
            && Bare(xs) == Bare(xs[..k]) + [xs[k].(witnesses := [])]
  {
    var k := |xs| - 1;
    assert Bare(xs) == Bare(xs[..k]) + [xs[k].(witnesses := [])];
    if ScriptsFit(xs[..k]) && Fits(xs[k].script) {
      forall i | 0 <= i < |xs|
        ensures Fits(xs[i].script)
      {
        assert i < k ==> xs[i] == xs[..k][i];
      }
    }
  }

  lemma AppendInputOf(xs: seq<TxInput>, x: TxInput, rest: seq<byte>)
    requires WellSizedInput(x)
    ensures AppendInput(Done(xs, InputBytes(x) + rest))
            == if Fits(x.script) then Done(xs + [x.(witnesses := [])], rest) else Fail
  {
    ParseInputOf(x, rest);
  }

  lemma {:induction false} ParseInputsOf(xs: seq<TxInput>, rest: seq<byte>)
    requires forall i :: 0 <= i < |xs| ==> WellSizedInput(xs[i])
    ensures ParseInputs(InputsBytes(xs) + rest, |xs|) == if ScriptsFit(xs) then Done(Bare(xs), rest) else Fail
  {
    if xs == [] {
      assert InputsBytes(xs) + rest == rest && Bare(xs) == [];
    } else {
      var k := |xs| - 1;
      var s := InputBytes(xs[k]) + rest;
      assert InputsBytes(xs) + rest == InputsBytes(xs[..k]) + s;
      ParseInputsOf(xs[..k], s);
      AppendInputOf(Bare(xs[..k]), xs[k], rest);
      InputsSnoc(xs);
    }
  }

  lemma {:induction false} ParseInputsLength(s: seq<byte>, k: nat)
    requires ParseInputs(s, k).Done?
    ensures |ParseInputs(s, k).value| == k
    ensures |ParseInputs(s, k).rest| <= |s|
  {
    if k > 0 {
      ParseInputsLength(s, k - 1);
      var r := ParseInputs(s, k - 1).rest;
      ParseVarBufSize(r[36..]);
    }
  }

  /** One witness stack: a count and that many buffers. */
  function ItemsBytes(ws: seq<seq<byte>>): seq<byte> {
    if ws == [] then [] else ItemsBytes(ws[..|ws| - 1]) + VarBuf(ws[|ws| - 1])
  }

  function StackBytes(ws: seq<seq<byte>>): seq<byte> {
    VarInt(|ws|) + ItemsBytes(ws)
  }

  function AppendItem(p: Parse<seq<seq<byte>>>): Parse<seq<seq<byte>>> {
    match p
    case Fail => Fail
    case Done(ws, r) =>
      match ParseVarBuf(r)
      case Fail => Fail
      case Done(w, r') => Done(ws + [w], r')
  }

  function ParseItems(s: seq<byte>, k: nat): Parse<seq<seq<byte>>> {
    if k == 0 then Done([], s) else AppendItem(ParseItems(s, k - 1))
  }

  function ParseStack(s: seq<byte>): Parse<seq<seq<byte>>> {
    match ParseVarInt(s)
    case Fail => Fail
    case Done(k, r) => if k > MAX_WITNESSES then Fail else ParseItems(r, k)
  }

  predicate ItemsFit(ws: seq<seq<byte>>) {
    forall i :: 0 <= i < |ws| ==> Fits(ws[i])
  }

  lemma AppendItemOf(ws: seq<seq<byte>>, w: seq<byte>, rest: seq<byte>)
    requires Sized(w)
    ensures AppendItem(Done(ws, VarBuf(w) + rest)) == if Fits(w) then Done(ws + [w], rest) else Fail
  {
    ParseVarBufOf(w, rest);
  }

  lemma ItemsSnoc(ws: seq<seq<byte>>)
    requires ws != []
    ensures var k := |ws| - 1;
            && (ItemsFit(ws) <==> ItemsFit(ws[..k]) && Fits(ws[k]))
            && ws == ws[..k] + [ws[k]]
  {
    var k := |ws| - 1;
    if ItemsFit(ws[..k]) && Fits(ws[k]) {
      forall i | 0 <= i < |ws|
        ensures Fits(ws[i])
      {
        assert i < k ==> ws[i] == ws[..k][i];
      }
    }
  }

  lemma {:induction false} ParseItemsOf(ws: seq<seq<byte>>, rest: seq<byte>)
    requires forall i :: 0 <= i < |ws| ==> Sized(ws[i])
    ensures ParseItems(ItemsBytes(ws) + rest, |ws|) == if ItemsFit(ws) then Done(ws, rest) else Fail
  {
    if ws == [] {
      assert ItemsBytes(ws) + rest == rest;
    } else {
      var k := |ws| - 1;
      var s := VarBuf(ws[k]) + rest;
      assert ItemsBytes(ws) + rest == ItemsBytes(ws[..k]) + s;
      ParseItemsOf(ws[..k], s);
      AppendItemOf(ws[..k], ws[k], rest);
      ItemsSnoc(ws);
    }
  }

  predicate StackFits(ws: seq<seq<byte>>) {
    |ws| <= MAX_WITNESSES && ItemsFit(ws)
  }

  lemma ParseStackOf(ws: seq<seq<byte>>, rest: seq<byte>)
    requires Sized(ws) && forall i :: 0 <= i < |ws| ==> Sized(ws[i])
    ensures ParseStack(StackBytes(ws) + rest) == if StackFits(ws) then Done(ws, rest) else Fail
  {
    assert StackBytes(ws) + rest == VarInt(|ws|) + (ItemsBytes(ws) + rest);
    ParseVarIntOf(|ws|, ItemsBytes(ws) + rest);
    ParseItemsOf(ws, rest);
  }

  function StacksBytes(xs: seq<TxInput>): seq<byte> {
    if xs == [] then [] else StacksBytes(xs[..|xs| - 1]) + StackBytes(xs[|xs| - 1].witnesses)
  }

  function StoreStack(p: Parse<seq<TxInput>>, k: nat): Parse<seq<TxInput>>
    requires p.Done? ==> k < |p.value|
  {
    match p
    case Fail => Fail
    case Done(ys, r) =>
      match ParseStack(r)
      case Fail => Fail
      case Done(ws, r') => Done(ys[k := ys[k].(witnesses := ws)], r')
  }

  /** Reads one stack for each of the first k inputs and stores it there. */
  function ParseStacks(s: seq<byte>, xs: seq<TxInput>, k: nat): (p: Parse<seq<TxInput>>)
    requires k <= |xs|
    ensures p.Done? ==> |p.value| == |xs|
  {
    if k == 0 then Done(xs, s) else StoreStack(ParseStacks(s, xs, k - 1), k - 1)
  }

  predicate StacksFit(xs: seq<TxInput>) {
    forall i :: 0 <= i < |xs| ==> StackFits(xs[i].witnesses)
  }

  lemma StacksSnoc(xs: seq<TxInput>, k: nat)
    requires 0 < k <= |xs|
    ensures StacksFit(xs[..k]) <==> StacksFit(xs[..k - 1]) && StackFits(xs[k - 1].witnesses)
    ensures var ys := xs[..k - 1] + Bare(xs)[k - 1..];
            ys[k - 1 := ys[k - 1].(witnesses := xs[k - 1].witnesses)] == xs[..k] + Bare(xs)[k..]
  {
    var ys := xs[..k - 1] + Bare(xs)[k - 1..];
    assert ys[k - 1 := ys[k - 1].(witnesses := xs[k - 1].witnesses)] == xs[..k] + Bare(xs)[k..];
    if StacksFit(xs[..k]) {
      assert StackFits(xs[..k][k - 1].witnesses);
      assert forall i :: 0 <= i < k - 1 ==> xs[..k - 1][i] == xs[..k][i];
    }
    if StacksFit(xs[..k - 1]) && StackFits(xs[k - 1].witnesses) {
      assert forall i :: 0 <= i < k - 1 ==> xs[..k - 1][i] == xs[..k][i];
    }
  }

  lemma StoreStackOf(ys: seq<TxInput>, k: nat, ws: seq<seq<byte>>, rest: seq<byte>)
    requires k < |ys| && Sized(ws) && forall i :: 0 <= i < |ws| ==> Sized(ws[i])
    ensures StoreStack(Done(ys, StackBytes(ws) + rest), k)
            == if StackFits(ws) then Done(ys[k := ys[k].(witnesses := ws)], rest) else Fail
  {
    ParseStackOf(ws, rest);
  }

  lemma {:induction false} ParseStacksOf(xs: seq<TxInput>, k: nat, rest: seq<byte>)
    requires k <= |xs|
    requires forall i :: 0 <= i < |xs| ==> WellSizedInput(xs[i])
    ensures ParseStacks(StacksBytes(xs[..k]) + rest, Bare(xs), k)
            == if StacksFit(xs[..k]) then Done(xs[..k] + Bare(xs)[k..], rest) else Fail
  {
    if k == 0 {
      assert StacksBytes(xs[..k]) + rest == rest;
      assert xs[..k] + Bare(xs)[k..] == Bare(xs);
    } else {
      var s := StackBytes(xs[k - 1].witnesses) + rest;
      assert xs[..k][..k - 1] == xs[..k - 1];
      assert StacksBytes(xs[..k]) + rest == StacksBytes(xs[..k - 1]) + s;
      ParseStacksOf(xs, k - 1, s);
      StoreStackOf(xs[..k - 1] + Bare(xs)[k - 1..], k - 1, xs[k - 1].witnesses, rest);
      StacksSnoc(xs, k);
    }
  }

  // ---------------------------------------------------------------------------------------
  // Transactions
  // ---------------------------------------------------------------------------------------

  predicate HasWitness(tx: Tx) {
    exists i :: 0 <= i < |tx.ins| && |tx.ins[i].witnesses| > 0
  }

  function TailBytes(tx: Tx, wit: bool): seq<byte> {
    (if wit then StacksBytes(tx.ins) else []) + LE(4, tx.locktime)
  }

  function OutsBytes(tx: Tx, wit: bool): seq<byte> {
    VarInt(|tx.outs|) + (OutputsBytes(tx.outs) + TailBytes(tx, wit))
  }

  function BodyBytes(tx: Tx, wit: bool): seq<byte> {
    InputsBytes(tx.ins) + OutsBytes(tx, wit)
  }

  function Marker(wit: bool): seq<byte> {
    if wit then [0, 1] else []
  }

  /** `exportBytes`: the legacy form, or the segwit form of BIP-144. */
  function Exported(tx: Tx, wit: bool): seq<byte> {
    LE(4, tx.version) + (Marker(wit) + (VarInt(|tx.ins|) + BodyBytes(tx, wit)))
  }

  function TxBytes(tx: Tx): seq<byte> {
    Exported(tx, HasWitness(tx))
  }

  function ParseTx(s: seq<byte>): Parse<Tx> {
    match ParseWord(s)
    case Fail => Fail
    case Done(version, r) => ParseCounted(version, r)
  }

  /** A zero input count announces the segwit form. */
  function ParseCounted(version: u32, s: seq<byte>): Parse<Tx> {
    match ParseVarInt(s)
    case Fail => Fail
    case Done(count, r) => if count == 0 then ParseSegwit(version, r) else ParseBody(version, false, count, r)
  }

  /** The flag byte is skipped unread; the real count follows. */
  function ParseSegwit(version: u32, s: seq<byte>): Parse<Tx> {
    if s == [] then Fail
    else
      match ParseVarInt(s[1..])
      case Fail => Fail
      case Done(count, r) => ParseBody(version, true, count, r)
  }

  function ParseBody(version: u32, segwit: bool, count: nat, s: seq<byte>): Parse<Tx> {
    if count > MAX_INPUTS then Fail
    else
      match ParseInputs(s, count)
      case Fail => Fail
      case Done(ins, r) => ParseOuts(version, segwit, ins, r)
  }

  function ParseOuts(version: u32, segwit: bool, ins: seq<TxInput>, s: seq<byte>): Parse<Tx> {
    match ParseVarInt(s)
    case Fail => Fail
    case Done(count, r) =>
      if count > MAX_OUTPUTS then Fail
      else
        match ParseOutputs(r, count)
        case Fail => Fail
        case Done(outs, r1) => ParseTail(version, segwit, ins, outs, r1)
  }

  function ParseTail(version: u32, segwit: bool, ins: seq<TxInput>, outs: seq<TxOutput>, s: seq<byte>): Parse<Tx> {
    match (if segwit then ParseStacks(s, ins, |ins|) else Done(ins, s))
    case Fail => Fail
    case Done(ins', r) =>
      match ParseWord(r)
      case Fail => Fail
      case Done(locktime, r') => Done(Tx(version, ins', outs, locktime), r')
  }
}
