/**
  The sticky-error, byte-counting reader (util.go) over a byte stream, and the readers built on
  it (btcvarint.go, btctx.go).

  Once a read has failed, later reads do nothing. Each reading method is tied to the parser of
  BtcWire for the same thing by `Agrees`; and a helper's count is at all times the number of
  bytes taken from the stream, also after a failure (`Valid`).
*/
module BtcReader {
  import opened Bytes
  import opened BtcWire

  /** The io.Reader: the bytes not yet taken. */
  class ByteStream {
    var rest: seq<byte>

    constructor (data: seq<byte>)
      ensures rest == data
    {
      rest := data;
    }
  }

  /** A read that follows the parser's outcome p, started with the given error state. */
  ghost predicate Agrees<T>(wasFailed: bool, before: seq<byte>, p: Parse<T>, failed: bool, value: T, after: seq<byte>) {
    if wasFailed then failed && after == before
    else
      match p
      case Fail => failed
      case Done(v, r) => !failed && value == v && after == r
  }

  class ReadHelper {
    const source: ByteStream
    var n: nat
    var failed: bool
    ghost const start: seq<byte>

    /** What was taken and what is left make up the stream as it was at the start. */
    ghost predicate Valid()
      reads this, source
    {
      n <= |start| && source.rest == start[n..]
    }

    constructor (s: ByteStream)
      ensures Valid() && source == s && start == s.rest && n == 0 && !failed
    {
      source := s;
      start := s.rest;
      n := 0;
      failed := false;
    }

    method ReadByte() returns (b: byte)
      requires Valid()
      modifies this, source
      ensures Valid()
      ensures var before := old(source.rest);
              Agrees(old(failed), before, if before == [] then Fail else Done(before[0], before[1..]),
                     failed, b, source.rest)
      ensures failed ==> b == 0
    {
      if failed {
        return 0;
      }
      if source.rest == [] {
        failed := true;
        return 0;
      }
      b := source.rest[0];
      source.rest := source.rest[1..];
      n := n + 1;
    }

    /** io.ReadFull: a short stream is emptied, and fails. */
    method ReadFull(k: nat) returns (buf: seq<byte>)
      requires Valid()
      modifies this, source
      ensures Valid() && |buf| == k
      ensures Agrees(old(failed), old(source.rest), Take(old(source.rest), k), failed, buf, source.rest)
      ensures !old(failed) && |old(source.rest)| < k ==> source.rest == []
      ensures old(failed) ==> source.rest == old(source.rest)
    {
      if failed {
        return seq(k, _ => 0);
      }
      if |source.rest| < k {
        buf := source.rest + seq(k - |source.rest|, _ => 0);
        n := n + |source.rest|;
        source.rest := [];
        failed := true;
      } else {
        buf := source.rest[..k];
        source.rest := source.rest[k..];
        n := n + k;
      }
    }

    method ReadLE(k: nat) returns (v: nat)
      requires Valid()
      modifies this, source
      ensures Valid()
      ensures v < Arith.Pow(256, k)
      ensures Agrees(old(failed), old(source.rest), ParseLE(old(source.rest), k), failed, v, source.rest)
    {
      var buf := ReadFull(k);
      v := FromLE(buf);
      FromLEBound(buf);
    }

    method ReadUint32le() returns (v: u32)
      requires Valid()
      modifies this, source
      ensures Valid()
      ensures Agrees(old(failed), old(source.rest), ParseWord(old(source.rest)), failed, v, source.rest)
    {
      Widths();
      var w := ReadLE(4);
      v := w;
    }

    /** `readTo` of a variable-length integer: a helper of its own reads from the same stream. */
    method ReadVarInt() returns (v: nat)
      requires Valid()
      modifies this, source
      ensures Valid()
      ensures Agrees(old(failed), old(source.rest), ParseVarInt(old(source.rest)), failed, v, source.rest)
    {
      if failed {
        return 0;
      }
      var used, bad;
      v, used, bad := VarIntReadFrom(source);
      n := n + used;
      failed := bad;
    }

    method ReadVarBuf() returns (buf: seq<byte>)
      requires Valid()
      modifies this, source
      ensures Valid()
      ensures Agrees(old(failed), old(source.rest), ParseVarBuf(old(source.rest)), failed, buf, source.rest)
    {
      if failed {
        return [];
      }
      var len := ReadVarInt();
      if len == 0 {
        return [];
      }
      if len > MAX_BUFFER {
        failed := true;
        return [];
      }
      buf := ReadFull(len);
    }

    /** `readTo` of an input and of an output. */
    method ReadInput() returns (x: TxInput)
      requires Valid()
      modifies this, source
      ensures Valid()
      ensures Agrees(old(failed), old(source.rest), ParseInput(old(source.rest)), failed, x, source.rest)
    {
      if failed {
        return TxInput(seq(32, _ => 0), 0, [], 0, []);
      }
      var used, bad;
      x, used, bad := InputReadFrom(source);
      n := n + used;
      failed := bad;
    }

    method ReadOutput(index: nat) returns (x: TxOutput)
      requires Valid()
      modifies this, source
      ensures Valid()
      ensures Agrees(old(failed), old(source.rest), ParseOutput(old(source.rest), index), failed, x, source.rest)
    {
      if failed {
        return TxOutput(0, index, []);
      }
      var used, bad;
      x, used, bad := OutputReadFrom(source, index);
      n := n + used;
      failed := bad;
    }
  }

  /** What every ReadFrom promises: the parser's outcome, and the number of bytes taken. */
  ghost predicate ReadsAs<T>(before: seq<byte>, p: Parse<T>, value: T, used: nat, failed: bool, after: seq<byte>) {
    && used <= |before| && after == before[used..]
    && Agrees(false, before, p, failed, value, after)
  }

  method VarIntReadFrom(s: ByteStream) returns (v: nat, used: nat, failed: bool)
    modifies s
    ensures ReadsAs(old(s.rest), ParseVarInt(old(s.rest)), v, used, failed, s.rest)
  {
    var h := new ReadHelper(s);
    var t := h.ReadByte();
    if t <= 0xfc {
      v := t;
    } else if t == 0xfd {
      v := h.ReadLE(2);
    } else if t == 0xfe {
      v := h.ReadLE(4);
    } else {
      v := h.ReadLE(8);
    }
    return v, h.n, h.failed;
  }

  method InputReadFrom(s: ByteStream) returns (x: TxInput, used: nat, failed: bool)
    modifies s
    ensures ReadsAs(old(s.rest), ParseInput(old(s.rest)), x, used, failed, s.rest)
  {
    var h := new ReadHelper(s);
    var txid := h.ReadFull(32);
    var vout := h.ReadUint32le();
    var script := h.ReadVarBuf();
    var sequence := h.ReadUint32le();
    x := TxInput(Reverse(txid), vout, script, sequence, []);
    return x, h.n, h.failed;
  }

  method OutputReadFrom(s: ByteStream, index: nat) returns (x: TxOutput, used: nat, failed: bool)
    modifies s
    ensures ReadsAs(old(s.rest), ParseOutput(old(s.rest), index), x, used, failed, s.rest)
  {
    Widths();
    var h := new ReadHelper(s);
    var amount := h.ReadLE(8);
    var script := h.ReadVarBuf();
    x := TxOutput(amount, index, script);
    return x, h.n, h.failed;
  }
}
