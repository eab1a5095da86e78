/** Transaction objects written and read, and read and written (btctx.go). */
module BtcReplay {
  import opened Bytes
  import opened BtcWire
  import opened BtcReader
  import opened BtcTransaction
  import opened BtcRoundTrip
  import opened BtcCanonical

  /** What the reader of a written transaction gets is that transaction, and no byte more. */
  ghost predicate Replayed(tx: Tx, back: Tx, used: nat, failed: bool) {
    !failed && back == tx.(outs := Renumbered(tx.outs)) && used == |TxBytes(tx)|
  }

  lemma ReplayIsRoundTrip(tx: Tx, rest: seq<byte>, back: Tx, used: nat, failed: bool, after: seq<byte>)
    requires WellSized(tx)
    requires used <= |TxBytes(tx) + rest| && after == (TxBytes(tx) + rest)[used..]
    requires Follows(false, ParseTx(TxBytes(tx) + rest), failed, back, after)
    ensures Replayed(tx, back, used, failed) <==> tx.ins != [] && WithinLimits(tx)
  {
    RoundTripsExactly(tx, rest);
    if used == |TxBytes(tx)| {
      assert after == rest;
    }
  }

  /**
   * One object is written, another one reads the bytes off a stream that goes on behind them: it
   * becomes the same transaction and stops at its end, exactly when there is an input and all is
   * within the limits.
   */
  method WriteThenRead(tx: BtcTx, rest: seq<byte>) returns (back: BtcTx, used: nat, failed: bool)
    requires WellSized(tx.Value())
    ensures fresh(back) && tx.Value() == old(tx.Value())
    ensures Replayed(tx.Value(), back.Value(), used, failed) <==> tx.ins != [] && WithinLimits(tx.Value())
  {
    var buf := tx.Marshal();
    var stream := new ByteStream(buf + rest);
    back := new BtcTx(Tx(0, [], [], 0));
    used, failed := back.ReadFrom(stream);
    ReplayIsRoundTrip(tx.Value(), rest, back.Value(), used, failed, stream.rest);
  }

  lemma RewriteOf(s: seq<byte>, tx: Tx, used: nat, after: seq<byte>)
    requires ParseTx(s).Done? && used <= |s| && after == s[used..]
    requires Follows(false, ParseTx(s), false, tx, after)
    ensures TxBytes(tx) == s[..used] <==> ShortCounts(s) && (Marked(s) ==> FlagOf(s) == 1 && HasWitness(tx))
    ensures |TxBytes(tx)| <= used
  {
    RewritesExactly(s);
    assert s == s[..used] + s[used..];
    if s == TxBytes(tx) + after {
      assert TxBytes(tx) == s[..used];
    }
  }

  /**
   * An object reads a transaction off a stream and is written again: never longer than what was
   * read, and the same bytes exactly when every count was short and the segwit form, where it was
   * used, was called for.
   */
  method ReadThenWrite(s: ByteStream) returns (tx: BtcTx, used: nat, failed: bool, buf: seq<byte>)
    modifies s
    ensures fresh(tx) && used <= |old(s.rest)| && s.rest == old(s.rest)[used..]
    ensures failed <==> ParseTx(old(s.rest)).Fail?
    ensures !failed ==> |buf| <= used
    ensures !failed ==>
              (buf == old(s.rest)[..used]
               <==> ShortCounts(old(s.rest))
                    && (Marked(old(s.rest)) ==> FlagOf(old(s.rest)) == 1 && HasWitness(tx.Value())))
  {
    ghost var before := s.rest;
    tx := new BtcTx(Tx(0, [], [], 0));
    used, failed := tx.ReadFrom(s);
    buf := [];
    if !failed {
      buf := tx.Marshal();
      RewriteOf(before, tx.Value(), used, s.rest);
    }
  }
}
