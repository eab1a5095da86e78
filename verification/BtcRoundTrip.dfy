/** Exactly which transactions survive being written and read back. */
module BtcRoundTrip {
  import opened Bytes
  import opened BtcWire

  /** Reading the written transaction, followed by anything, gives the same transaction (outputs
      numbered by position) and stops exactly at the end of it. */
  ghost predicate RoundTrips(tx: Tx, rest: seq<byte>) {
    ParseTx(TxBytes(tx) + rest) == Done(tx.(outs := Renumbered(tx.outs)), rest)
  }

  /** The limits of the reader. */
  predicate WithinLimits(tx: Tx) {
    && |tx.ins| <= MAX_INPUTS && ScriptsFit(tx.ins)
    && |tx.outs| <= MAX_OUTPUTS && OutputsFit(tx.outs)
    && StacksFit(tx.ins)
  }

  /** The limits in figures: 10,000 inputs and witness items, 65,536 outputs, 100,000 bytes a string. */
  lemma LimitsAre(tx: Tx)
    ensures WithinLimits(tx)
       <==> |tx.ins| <= 10_000 && |tx.outs| <= 65_536
            && (forall i :: 0 <= i < |tx.outs| ==> |tx.outs[i].script| <= 100_000)
            && (forall i :: 0 <= i < |tx.ins| ==> |tx.ins[i].script| <= 100_000 && |tx.ins[i].witnesses| <= 10_000)
            && (forall i, j :: 0 <= i < |tx.ins| && 0 <= j < |tx.ins[i].witnesses| ==>
                  |tx.ins[i].witnesses[j]| <= 100_000)
  {
  }

  lemma TailOfSegwit(tx: Tx, outs: seq<TxOutput>, rest: seq<byte>)
    requires WellSized(tx)
    ensures ParseTail(tx.version, true, Bare(tx.ins), outs, TailBytes(tx, true) + rest)
            == if StacksFit(tx.ins) then Done(Tx(tx.version, tx.ins, outs, tx.locktime), rest) else Fail
  {
    var r := LE(4, tx.locktime) + rest;
    ParseWordOf(tx.locktime, rest);
    assert TailBytes(tx, true) + rest == StacksBytes(tx.ins) + r;
    assert tx.ins[..|tx.ins|] == tx.ins;
    ParseStacksOf(tx.ins, |tx.ins|, r);
    assert tx.ins + Bare(tx.ins)[|tx.ins|..] == tx.ins;
  }

  lemma TailOfLegacy(tx: Tx, outs: seq<TxOutput>, rest: seq<byte>)
    requires !HasWitness(tx)
    ensures ParseTail(tx.version, false, Bare(tx.ins), outs, TailBytes(tx, false) + rest)
            == Done(Tx(tx.version, tx.ins, outs, tx.locktime), rest)
  {
    ParseWordOf(tx.locktime, rest);
    assert TailBytes(tx, false) + rest == LE(4, tx.locktime) + rest;
    BareIsSame(tx);
  }

  lemma TailOf(tx: Tx, wit: bool, outs: seq<TxOutput>, rest: seq<byte>)
    requires WellSized(tx) && (HasWitness(tx) ==> wit)
    ensures ParseTail(tx.version, wit, Bare(tx.ins), outs, TailBytes(tx, wit) + rest)
            == if StacksFit(tx.ins) then Done(tx.(outs := outs), rest) else Fail
  {
    if wit {
      TailOfSegwit(tx, outs, rest);
    } else {
      BareIsSame(tx);
      TailOfLegacy(tx, outs, rest);
    }
  }

  lemma BareIsSame(tx: Tx)
    requires !HasWitness(tx)
    ensures Bare(tx.ins) == tx.ins && StacksFit(tx.ins)
  {
    forall i | 0 <= i < |tx.ins|
      ensures tx.ins[i].witnesses == []
    {
    }
  }

  /** The outputs part, whatever follows it. */
  lemma OutputsThen(tx: Tx, wit: bool, ins: seq<TxInput>, r: seq<byte>)
    requires WellSized(tx)
    ensures ParseOuts(tx.version, wit, ins, VarInt(|tx.outs|) + (OutputsBytes(tx.outs) + r))
            == if |tx.outs| <= MAX_OUTPUTS && OutputsFit(tx.outs)
               then ParseTail(tx.version, wit, ins, Renumbered(tx.outs), r) else Fail
  {
    ParseVarIntOf(|tx.outs|, OutputsBytes(tx.outs) + r);
    ParseOutputsOf(tx.outs, r);
  }

  lemma OutsOf(tx: Tx, wit: bool, rest: seq<byte>)
    requires WellSized(tx) && (HasWitness(tx) ==> wit)
    ensures ParseOuts(tx.version, wit, Bare(tx.ins), OutsBytes(tx, wit) + rest)
            == if |tx.outs| <= MAX_OUTPUTS && OutputsFit(tx.outs) && StacksFit(tx.ins)
               then Done(tx.(outs := Renumbered(tx.outs)), rest) else Fail
  {
    var r := TailBytes(tx, wit) + rest;
    assert OutsBytes(tx, wit) + rest == VarInt(|tx.outs|) + (OutputsBytes(tx.outs) + r);
    OutputsThen(tx, wit, Bare(tx.ins), r);
    TailOf(tx, wit, Renumbered(tx.outs), rest);
  }

  /** The inputs part, whatever follows it. */
  lemma InputsThen(tx: Tx, wit: bool, r: seq<byte>)
    requires WellSized(tx)
    ensures ParseBody(tx.version, wit, |tx.ins|, InputsBytes(tx.ins) + r)
            == if |tx.ins| <= MAX_INPUTS && ScriptsFit(tx.ins) then ParseOuts(tx.version, wit, Bare(tx.ins), r)
               else Fail
  {
    ParseInputsOf(tx.ins, r);
  }

  lemma BodySplit(tx: Tx, wit: bool, rest: seq<byte>)
    ensures BodyBytes(tx, wit) + rest == InputsBytes(tx.ins) + (OutsBytes(tx, wit) + rest)
  {
    Associates(InputsBytes(tx.ins), OutsBytes(tx, wit), rest);
  }

  lemma BodyOf(tx: Tx, wit: bool, rest: seq<byte>)
    requires WellSized(tx) && (HasWitness(tx) ==> wit)
    ensures ParseBody(tx.version, wit, |tx.ins|, BodyBytes(tx, wit) + rest)
            == if WithinLimits(tx) then Done(tx.(outs := Renumbered(tx.outs)), rest) else Fail
  {
    var r := OutsBytes(tx, wit) + rest;
    BodySplit(tx, wit, rest);
    InputsThen(tx, wit, r);
    OutsOf(tx, wit, rest);
  }

  lemma ExportedSplit(tx: Tx, wit: bool, rest: seq<byte>)
    ensures Exported(tx, wit) + rest
            == LE(4, tx.version) + (Marker(wit) + (VarInt(|tx.ins|) + (BodyBytes(tx, wit) + rest)))
  {
    var a, b, c, d := LE(4, tx.version), Marker(wit), VarInt(|tx.ins|), BodyBytes(tx, wit);
    assert (a + (b + (c + d))) + rest == a + (b + (c + (d + rest)));
  }

  lemma CountedLegacy(tx: Tx, body: seq<byte>)
    requires WellSized(tx) && tx.ins != []
    ensures ParseCounted(tx.version, VarInt(|tx.ins|) + body) == ParseBody(tx.version, false, |tx.ins|, body)
  {
    ParseVarIntOf(|tx.ins|, body);
  }

  lemma CountedSegwit(tx: Tx, flag: byte, body: seq<byte>)
    requires WellSized(tx)
    ensures ParseCounted(tx.version, [0, flag] + (VarInt(|tx.ins|) + body))
            == ParseBody(tx.version, true, |tx.ins|, body)
  {
    var s := [0, flag] + (VarInt(|tx.ins|) + body);
    assert s[1..][1..] == VarInt(|tx.ins|) + body;
    ParseVarIntOf(|tx.ins|, body);
  }

  /** With at least one input, the first count tells the two forms apart. */
  lemma ParseWithInputs(tx: Tx, rest: seq<byte>)
    requires WellSized(tx) && tx.ins != []
    ensures ParseTx(TxBytes(tx) + rest)
            == if WithinLimits(tx) then Done(tx.(outs := Renumbered(tx.outs)), rest) else Fail
  {
    var wit := HasWitness(tx);
    var body := BodyBytes(tx, wit) + rest;
    var counted := Marker(wit) + (VarInt(|tx.ins|) + body);
    ExportedSplit(tx, wit, rest);
    ParseWordOf(tx.version, counted);
    BodyOf(tx, wit, rest);
    if wit {
      CountedSegwit(tx, 1, body);
    } else {
      assert counted == VarInt(|tx.ins|) + body;
      CountedLegacy(tx, body);
    }
  }

  lemma ParseOutsSize(version: u32, segwit: bool, ins: seq<TxInput>, s: seq<byte>)
    requires ParseOuts(version, segwit, ins, s).Done? && ins == []
    ensures var Done(tx, rest) := ParseOuts(version, segwit, ins, s);
            tx.ins == [] && |s| >= |VarInt(|tx.outs|)| + |OutputsBytes(tx.outs)| + 4 + |rest|
  {
    ParseVarIntSize(s);
    var Done(count, r) := ParseVarInt(s);
    ParseOutputsSize(r, count);
  }

  /** What is left after a segwit read that found no inputs. */
  lemma ParseSegwitSize(version: u32, s: seq<byte>)
    requires ParseSegwit(version, s).Done? && ParseSegwit(version, s).value.ins == []
    ensures var Done(tx, rest) := ParseSegwit(version, s);
            |s| >= 2 + |VarInt(|tx.outs|)| + |OutputsBytes(tx.outs)| + 4 + |rest|
  {
    ParseVarIntSize(s[1..]);
    var Done(count, r) := ParseVarInt(s[1..]);
    ParseBodyCount(version, count, r);
    ParseOutsSize(version, true, [], r);
  }

  /** Without inputs the written form is the legacy one, but it is read as segwit: if it is read
      at all, the reader goes too far. */
  lemma NoInputsNeverRoundTrips(tx: Tx, rest: seq<byte>)
    requires tx.ins == []
    ensures !RoundTrips(tx, rest)
  {
    var body := BodyBytes(tx, false) + rest;
    ExportedSplit(tx, false, rest);
    assert [] + (VarInt(0) + body) == [0] + body;
    ParseWordOf(tx.version, [0] + body);
    assert ([0] + body)[1..] == body;
    assert ParseTx(TxBytes(tx) + rest) == ParseSegwit(tx.version, body);
    assert |body| == |VarInt(|tx.outs|)| + |OutputsBytes(tx.outs)| + 4 + |rest|;
    RenumberedSize(tx.outs);
    if RoundTrips(tx, rest) {
      ParseSegwitSize(tx.version, body);
    }
  }

  lemma ParseBodyCount(version: u32, count: nat, s: seq<byte>)
    requires ParseBody(version, true, count, s).Done?
    ensures |ParseBody(version, true, count, s).value.ins| == count
  {
    ParseInputsLength(s, count);
  }

  lemma {:induction false} RenumberedSize(os: seq<TxOutput>)
    ensures |OutputsBytes(Renumbered(os))| == |OutputsBytes(os)|
  {
    if os != [] {
      var k := |os| - 1;
      assert Renumbered(os)[..k] == Renumbered(os[..k]);
      RenumberedSize(os[..k]);
    }
  }

  /** The transactions that round-trip, whatever follows them in the stream, are exactly those
      with an input and within the reader's limits. */
  lemma RoundTripsExactly(tx: Tx, rest: seq<byte>)
    requires WellSized(tx)
    ensures RoundTrips(tx, rest) <==> tx.ins != [] && WithinLimits(tx)
  {
    if tx.ins == [] {
      NoInputsNeverRoundTrips(tx, rest);
    } else {
      ParseWithInputs(tx, rest);
    }
  }
}
