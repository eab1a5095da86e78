/** The Bitcoin transaction object (btctx.go): reading, writing, copying and measuring. */
module BtcTransaction {
  import opened Bytes
  import opened BtcWire
  import opened BtcReader

  // ---------------------------------------------------------------------------------------
  // Sizes
  // ---------------------------------------------------------------------------------------

  function InputSize(x: TxInput): nat {
    32 + 4 + VarIntLen(|x.script|) + |x.script| + 4
  }

  function OutputSize(x: TxOutput): nat {
    8 + VarIntLen(|x.script|) + |x.script|
  }

  /** The virtual size of BIP-141: a quarter of the weight, rounded up; the plain length when
      there is no witness. */
  function VirtualSize(tx: Tx): nat {
    if HasWitness(tx) then (3 * |Exported(tx, false)| + |Exported(tx, true)| + 3) / 4
    else |Exported(tx, false)|
  }

  lemma ExportedLength(tx: Tx)
    ensures |Exported(tx, false)|
            == 8 + VarIntLen(|tx.ins|) + VarIntLen(|tx.outs|) + |InputsBytes(tx.ins)| + |OutputsBytes(tx.outs)|
    ensures |Exported(tx, true)| == |Exported(tx, false)| + 2 + |StacksBytes(tx.ins)|
  {
    VarIntLength(|tx.ins|);
    VarIntLength(|tx.outs|);
  }

  lemma Quarter(base: nat, wit: nat)
    ensures base + wit / 4 + (if wit % 4 != 0 then 1 else 0) == (3 * base + (base + wit) + 3) / 4
  {
  }

  lemma Flatten(a: seq<byte>, b: seq<byte>, c: seq<byte>, d: seq<byte>,
                e: seq<byte>, f: seq<byte>, g: seq<byte>, h: seq<byte>)
    ensures a + b + c + d + e + f + g + h == a + (b + (c + (d + (e + (f + (g + h))))))
  {
  }

  /** The written form in the order the pieces are appended. */
  lemma ExportedFlat(tx: Tx, wit: bool)
    ensures Exported(tx, wit) ==
            if wit then
              LE(4, tx.version) + [0, 1] + VarInt(|tx.ins|) + InputsBytes(tx.ins)
              + VarInt(|tx.outs|) + OutputsBytes(tx.outs) + StacksBytes(tx.ins) + LE(4, tx.locktime)
            else
              LE(4, tx.version) + VarInt(|tx.ins|) + InputsBytes(tx.ins)
              + VarInt(|tx.outs|) + OutputsBytes(tx.outs) + LE(4, tx.locktime)
  {
    var stacks := if wit then StacksBytes(tx.ins) else [];
    Flatten(LE(4, tx.version), Marker(wit), VarInt(|tx.ins|), InputsBytes(tx.ins),
            VarInt(|tx.outs|), OutputsBytes(tx.outs), stacks, LE(4, tx.locktime));
    if !wit {
      EmptyParts(LE(4, tx.version), VarInt(|tx.ins|), InputsBytes(tx.ins),
                 VarInt(|tx.outs|), OutputsBytes(tx.outs), LE(4, tx.locktime));
    }
  }

  lemma EmptyParts(a: seq<byte>, c: seq<byte>, d: seq<byte>, e: seq<byte>, f: seq<byte>, h: seq<byte>)
    ensures a + [] + c + d + e + f + [] + h == a + c + d + e + f + h
  {
    assert a + [] == a;
    assert a + c + d + e + f + [] == a + c + d + e + f;
  }

  class BtcTx {
    var version: u32
    var ins: seq<TxInput>
    var outs: seq<TxOutput>
    var locktime: u32

    constructor (tx: Tx)
      ensures Value() == tx
    {
      version, ins, outs, locktime := tx.version, tx.ins, tx.outs, tx.locktime;
    }

    function Value(): Tx
      reads this
    {
      Tx(version, ins, outs, locktime)
    }

    method HasWitnessLoop() returns (r: bool)
      ensures r <==> HasWitness(Value())
    {
      var i := 0;
      while i < |ins|
        invariant 0 <= i <= |ins|
        invariant forall j :: 0 <= j < i ==> ins[j].witnesses == []
      {
        if |ins[i].witnesses| > 0 {
          return true;
        }
        i := i + 1;
      }
      return false;
    }

    method ExportBytes(wit: bool) returns (buf: seq<byte>)
      ensures buf == Exported(Value(), wit)
    {
      buf := LE(4, version);
      if wit {
        buf := buf + [0, 1];
      }
      buf := buf + VarInt(|ins|);
      var inputs := InputsLoop(ins);
      buf := buf + inputs;
      buf := buf + VarInt(|outs|);
      var outputs := OutputsLoop(outs);
      buf := buf + outputs;
      if wit {
        var stacks := StacksLoop(ins);
        buf := buf + stacks;
      }
      buf := buf + LE(4, locktime);
      ExportedFlat(Value(), wit);
    }

    /** `MarshalBinary` and `Bytes`. */
    method Marshal() returns (buf: seq<byte>)
      ensures buf == TxBytes(Value())
    {
      var wit := HasWitnessLoop();
      buf := ExportBytes(wit);
    }

    /** `ReadFrom`: on success the fields are what the parser says, and the count is the number
        of bytes taken; a failure is reported whenever the parser fails. */
    method ReadFrom(s: ByteStream) returns (used: nat, failed: bool)
      modifies this, s
      ensures used <= |old(s.rest)| && s.rest == old(s.rest)[used..]
      ensures Follows(false, ParseTx(old(s.rest)), failed, Value(), s.rest)
    {
      var h := new ReadHelper(s);
      version := h.ReadUint32le();
      failed := ReadCounted(h);
      return h.n, failed;
    }

    method ReadCounted(h: ReadHelper) returns (bad: bool)
      requires h.Valid()
      modifies this, h, h.source
      ensures h.Valid()
      ensures Follows(old(h.failed), ParseCounted(old(version), old(h.source.rest)), bad, Value(), h.source.rest)
    {
      var count := h.ReadVarInt();
      var segwit := false;
      if count == 0 {
        segwit := true;
        var _ := h.ReadByte();
        count := h.ReadVarInt();
      }
      bad := ReadBody(h, segwit, count);
    }

    method ReadBody(h: ReadHelper, segwit: bool, count: nat) returns (bad: bool)
      requires h.Valid()
      modifies this, h, h.source
      ensures h.Valid()
      ensures Follows(old(h.failed), ParseBody(old(version), segwit, count, old(h.source.rest)),
                      bad, Value(), h.source.rest)
    {
      if count > MAX_INPUTS {
        return true;
      }
      ins := ReadInputs(h, count);
      bad := ReadOuts(h, segwit);
    }

    method ReadOuts(h: ReadHelper, segwit: bool) returns (bad: bool)
      requires h.Valid()
      modifies this, h, h.source
      ensures h.Valid()
      ensures Follows(old(h.failed), ParseOuts(old(version), segwit, old(ins), old(h.source.rest)),
                      bad, Value(), h.source.rest)
    {
      var count := h.ReadVarInt();
      if count > MAX_OUTPUTS {
        return true;
      }
      outs := ReadOutputs(h, count);
      bad := ReadTail(h, segwit);
    }

    method ReadTail(h: ReadHelper, segwit: bool) returns (bad: bool)
      requires h.Valid()
      modifies this, h, h.source
      ensures h.Valid()
      ensures Follows(old(h.failed), ParseTail(old(version), segwit, old(ins), old(outs), old(h.source.rest)),
                      bad, Value(), h.source.rest)
    {
      if segwit {
        var tooMany;
        ins, tooMany := ReadStacks(h, ins);
        if tooMany {
          return true;
        }
      }
      locktime := h.ReadUint32le();
      return h.failed;
    }

    /** `ClearInputs`: scripts and witnesses go, everything else stays. */
    method ClearInputs()
      modifies this
      ensures Value() == Cleared(old(Value()))
    {
      ghost var before := ins;
      var i := 0;
      while i < |ins|
        invariant 0 <= i <= |ins| == |before|
        invariant version == old(version) && outs == old(outs) && locktime == old(locktime)
        invariant ins == ClearedInputs(before)[..i] + before[i..]
      {
        ClearedStep(before, i);
        ins := ins[i := ins[i].(script := [], witnesses := [])];
        i := i + 1;
      }
    }

    method Dup() returns (res: BtcTx)
      ensures fresh(res) && res.Value() == Value()
    {
      res := new BtcTx(Tx(version, ins, outs, locktime));
    }

    /** `ComputeSize`, which adds up lengths without writing anything. */
    method ComputeSize() returns (size: nat)
      requires forall k :: 0 <= k < |ins| ==> |ins[k].txid| == 32
      ensures size == VirtualSize(Value())
    {
      var ln := 4 + VarIntLen(|ins|) + VarIntLen(|outs|) + 4;
      var inputs, witln := InputsSize(ins);
      var outputs := OutputsSize(outs);
      ln := ln + inputs + outputs;
      ExportedLength(Value());
      var wit := HasWitnessLoop();
      if !wit {
        return ln;
      }
      witln := witln + 2;
      Quarter(ln, witln);
      var add := witln % 4;
      if add != 0 {
        add := 1;
      }
      return ln + witln / 4 + add;
    }
  }

  function ClearedInputs(xs: seq<TxInput>): seq<TxInput> {
    seq(|xs|, i requires 0 <= i < |xs| => xs[i].(script := [], witnesses := []))
  }

  lemma ClearedStep(xs: seq<TxInput>, i: nat)
    requires i < |xs|
    ensures var now := ClearedInputs(xs)[..i] + xs[i..];
            && now[i] == xs[i]
            && now[i := xs[i].(script := [], witnesses := [])] == ClearedInputs(xs)[..i + 1] + xs[i + 1..]
  {
  }

  function Cleared(tx: Tx): Tx {
    tx.(ins := ClearedInputs(tx.ins))
  }

  // ---------------------------------------------------------------------------------------
  // Writing loops
  // ---------------------------------------------------------------------------------------

  lemma InputsBytesSnoc(xs: seq<TxInput>, i: nat)
    requires i < |xs|
    ensures InputsBytes(xs[..i + 1]) == InputsBytes(xs[..i]) + InputBytes(xs[i])
    ensures StacksBytes(xs[..i + 1]) == StacksBytes(xs[..i]) + StackBytes(xs[i].witnesses)
    ensures |xs[i].txid| == 32 ==> |InputsBytes(xs[..i + 1])| == |InputsBytes(xs[..i])| + InputSize(xs[i])
  {
    assert xs[..i + 1][..i] == xs[..i];
    VarIntLength(|xs[i].script|);
  }

  lemma OutputsBytesSnoc(xs: seq<TxOutput>, i: nat)
    requires i < |xs|
    ensures OutputsBytes(xs[..i + 1]) == OutputsBytes(xs[..i]) + OutputBytes(xs[i])
    ensures |OutputsBytes(xs[..i + 1])| == |OutputsBytes(xs[..i])| + OutputSize(xs[i])
  {
    assert xs[..i + 1][..i] == xs[..i];
    VarIntLength(|xs[i].script|);
  }

  lemma ItemsBytesSnoc(ws: seq<seq<byte>>, i: nat)
    requires i < |ws|
    ensures ItemsBytes(ws[..i + 1]) == ItemsBytes(ws[..i]) + (VarInt(|ws[i]|) + ws[i])
    ensures |ItemsBytes(ws[..i + 1])| == |ItemsBytes(ws[..i])| + VarIntLen(|ws[i]|) + |ws[i]|
  {
    assert ws[..i + 1][..i] == ws[..i];
    VarIntLength(|ws[i]|);
  }

  method InputsLoop(xs: seq<TxInput>) returns (buf: seq<byte>)
    ensures buf == InputsBytes(xs)
  {
    buf := [];
    var i := 0;
    while i < |xs|
      invariant 0 <= i <= |xs| && buf == InputsBytes(xs[..i])
    {
      InputsBytesSnoc(xs, i);
      buf := buf + InputBytes(xs[i]);
      i := i + 1;
    }
    assert xs[..i] == xs;
  }

  method OutputsLoop(xs: seq<TxOutput>) returns (buf: seq<byte>)
    ensures buf == OutputsBytes(xs)
  {
    buf := [];
    var i := 0;
    while i < |xs|
      invariant 0 <= i <= |xs| && buf == OutputsBytes(xs[..i])
    {
      OutputsBytesSnoc(xs, i);
      buf := buf + OutputBytes(xs[i]);
      i := i + 1;
    }
    assert xs[..i] == xs;
  }

  method StacksLoop(xs: seq<TxInput>) returns (buf: seq<byte>)
    ensures buf == StacksBytes(xs)
  {
    buf := [];
    var i := 0;
    while i < |xs|
      invariant 0 <= i <= |xs| && buf == StacksBytes(xs[..i])
    {
      InputsBytesSnoc(xs, i);
      var items := ItemsLoop(xs[i].witnesses);
      buf := buf + (VarInt(|xs[i].witnesses|) + items);
      i := i + 1;
    }
    assert xs[..i] == xs;
  }

  method ItemsLoop(ws: seq<seq<byte>>) returns (buf: seq<byte>)
    ensures buf == ItemsBytes(ws)
  {
    buf := [];
    var i := 0;
    while i < |ws|
      invariant 0 <= i <= |ws| && buf == ItemsBytes(ws[..i])
    {
      ItemsBytesSnoc(ws, i);
      buf := buf + (VarInt(|ws[i]|) + ws[i]);
      i := i + 1;
    }
    assert ws[..i] == ws;
  }

  /** `computeWitnessSize`. */
  method StackSize(ws: seq<seq<byte>>) returns (ln: nat)
    ensures ln == |StackBytes(ws)|
  {
    VarIntLength(|ws|);
    ghost var count := VarIntLen(|ws|);
    ln := VarIntLen(|ws|);
    var i := 0;
    while i < |ws|
      invariant 0 <= i <= |ws|
      invariant ln == count + |ItemsBytes(ws[..i])|
    {
      ItemsBytesSnoc(ws, i);
      ln := ln + VarIntLen(|ws[i]|) + |ws[i]|;
      i := i + 1;
    }
    assert ws[..i] == ws;
  }

  /** The measuring loop over the inputs: stripped and witness lengths. */
  method InputsSize(xs: seq<TxInput>) returns (ln: nat, witln: nat)
    requires forall k :: 0 <= k < |xs| ==> |xs[k].txid| == 32
    ensures ln == |InputsBytes(xs)| && witln == |StacksBytes(xs)|
  {
    ln, witln := 0, 0;
    var i := 0;
    while i < |xs|
      invariant 0 <= i <= |xs|
      invariant ln == |InputsBytes(xs[..i])| && witln == |StacksBytes(xs[..i])|
    {
      InputsBytesSnoc(xs, i);
      ln := ln + InputSize(xs[i]);
      var w := StackSize(xs[i].witnesses);
      witln := witln + w;
      i := i + 1;
    }
    assert xs[..i] == xs;
  }

  method OutputsSize(xs: seq<TxOutput>) returns (ln: nat)
    ensures ln == |OutputsBytes(xs)|
  {
    ln := 0;
    var i := 0;
    while i < |xs|
      invariant 0 <= i <= |xs| && ln == |OutputsBytes(xs[..i])|
    {
      OutputsBytesSnoc(xs, i);
      ln := ln + OutputSize(xs[i]);
      i := i + 1;
    }
    assert xs[..i] == xs;
  }

  // ---------------------------------------------------------------------------------------
  // Reading loops
  // ---------------------------------------------------------------------------------------

  /** The outcome of a read of several parts, some of which report failure on their own. */
  ghost predicate Follows<T>(wasFailed: bool, p: Parse<T>, failed: bool, value: T, after: seq<byte>) {
    if wasFailed || p.Fail? then failed else !failed && value == p.value && after == p.rest
  }

  method ReadInputs(h: ReadHelper, count: nat) returns (xs: seq<TxInput>)
    requires h.Valid()
    modifies h, h.source
    ensures h.Valid()
    ensures Agrees(old(h.failed), old(h.source.rest), ParseInputs(old(h.source.rest), count),
                   h.failed, xs, h.source.rest)
  {
    xs := [];
    ghost var s := h.source.rest;
    var i := 0;
    while i < count
      invariant 0 <= i <= count && h.Valid()
      invariant Agrees(old(h.failed), s, ParseInputs(s, i), h.failed, xs, h.source.rest)
    {
      var x := h.ReadInput();
      xs := xs + [x];
      i := i + 1;
    }
  }

  method ReadOutputs(h: ReadHelper, count: nat) returns (xs: seq<TxOutput>)
    requires h.Valid()
    modifies h, h.source
    ensures h.Valid()
    ensures Agrees(old(h.failed), old(h.source.rest), ParseOutputs(old(h.source.rest), count),
                   h.failed, xs, h.source.rest)
  {
    xs := [];
    ghost var s := h.source.rest;
    var i := 0;
    while i < count
      invariant 0 <= i <= count && h.Valid()
      invariant Agrees(old(h.failed), s, ParseOutputs(s, i), h.failed, xs, h.source.rest)
    {
      var x := h.ReadOutput(i);
      xs := xs + [x];
      i := i + 1;
    }
  }

  method ReadItems(h: ReadHelper, count: nat) returns (ws: seq<seq<byte>>)
    requires h.Valid()
    modifies h, h.source
    ensures h.Valid()
    ensures Agrees(old(h.failed), old(h.source.rest), ParseItems(old(h.source.rest), count),
                   h.failed, ws, h.source.rest)
  {
    ws := [];
    ghost var s := h.source.rest;
    var i := 0;
    while i < count
      invariant 0 <= i <= count && h.Valid()
      invariant Agrees(old(h.failed), s, ParseItems(s, i), h.failed, ws, h.source.rest)
    {
      var w := h.ReadVarBuf();
      ws := ws + [w];
      i := i + 1;
    }
  }

  /** One stack; a count over the limit is reported at once, not through the helper. */
  method ReadStack(h: ReadHelper) returns (ws: seq<seq<byte>>, tooMany: bool)
    requires h.Valid()
    modifies h, h.source
    ensures h.Valid()
    ensures Follows(old(h.failed), ParseStack(old(h.source.rest)), h.failed || tooMany, ws, h.source.rest)
  {
    var count := h.ReadVarInt();
    if count > MAX_WITNESSES {
      return [], true;
    }
    ws := ReadItems(h, count);
    return ws, false;
  }

  method ReadStacks(h: ReadHelper, xs0: seq<TxInput>) returns (xs: seq<TxInput>, tooMany: bool)
    requires h.Valid()
    modifies h, h.source
    ensures h.Valid()
    ensures Follows(old(h.failed), ParseStacks(old(h.source.rest), xs0, |xs0|),
                    h.failed || tooMany, xs, h.source.rest)
  {
    xs := xs0;
    ghost var s := h.source.rest;
    var i := 0;
    while i < |xs0|
      invariant 0 <= i <= |xs0| == |xs| && h.Valid()
      invariant Follows(old(h.failed), ParseStacks(s, xs0, i), h.failed, xs, h.source.rest)
    {
      var ws;
      ws, tooMany := ReadStack(h);
      if tooMany {
        if !old(h.failed) {
          StacksFailOn(s, xs0, i + 1, |xs0|);
        }
        return xs, true;
      }
      xs := xs[i := xs[i].(witnesses := ws)];
      i := i + 1;
    }
    return xs, false;
  }

  lemma {:induction false} StacksFailOn(s: seq<byte>, xs: seq<TxInput>, k: nat, n: nat)
    requires k <= n <= |xs| && ParseStacks(s, xs, k).Fail?
    ensures ParseStacks(s, xs, n).Fail?
    decreases n
  {
    if k < n {
      StacksFailOn(s, xs, k, n - 1);
    }
  }
}
