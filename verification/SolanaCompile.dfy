/**
 * Compiling Solana instructions into an account table and indices (solanatx.go): accounts are
 * merged in a map, split into four groups by walking the map in no particular order, sorted
 * within each group, and numbered.
 */
module SolanaCompile {
  import opened Bytes
  import opened KeyOrder
  import opened Outcome
  import opened SolanaCodec
  import opened SolanaTransaction
  import opened SolanaWire

  datatype Meta = Meta(key: Key, signer: bool, writable: bool)

  /** An instruction before compilation. */
  datatype Call = Call(program: Key, accounts: seq<Meta>, data: seq<byte>)

  datatype Perm = Perm(signer: bool, writable: bool)

  // ---------------------------------------------------------------------------------------
  // Merging requests
  // ---------------------------------------------------------------------------------------

  function Merge(seen: map<Key, Perm>, m: Meta): map<Key, Perm> {
    if m.key in seen then seen[m.key := Perm(seen[m.key].signer || m.signer, seen[m.key].writable || m.writable)]
    else seen[m.key := Perm(m.signer, m.writable)]
  }

  function MergeAll(seen: map<Key, Perm>, ms: seq<Meta>): map<Key, Perm> {
    if ms == [] then seen else Merge(MergeAll(seen, ms[..|ms| - 1]), ms[|ms| - 1])
  }

  function AddProgram(seen: map<Key, Perm>, program: Key): map<Key, Perm> {
    if program in seen then seen else seen[program := Perm(false, false)]
  }

  function Collect(fee: Key, calls: seq<Call>): map<Key, Perm> {
    if calls == [] then map[fee := Perm(true, true)]
    else
      var n := |calls| - 1;
      AddProgram(MergeAll(Collect(fee, calls[..n]), calls[n].accounts), calls[n].program)
  }

  /** Some account entry asks for the key to sign, to be written, or just to be there. */
  ghost predicate AsksSigner(ms: seq<Meta>, k: Key) {
    exists i :: 0 <= i < |ms| && ms[i].key == k && ms[i].signer
  }

  ghost predicate AsksWritable(ms: seq<Meta>, k: Key) {
    exists i :: 0 <= i < |ms| && ms[i].key == k && ms[i].writable
  }

  ghost predicate Names(ms: seq<Meta>, k: Key) {
    exists i :: 0 <= i < |ms| && ms[i].key == k
  }

  ghost predicate MustSign(fee: Key, calls: seq<Call>, k: Key) {
    k == fee || exists c :: 0 <= c < |calls| && AsksSigner(calls[c].accounts, k)
  }

  ghost predicate MustWrite(fee: Key, calls: seq<Call>, k: Key) {
    k == fee || exists c :: 0 <= c < |calls| && AsksWritable(calls[c].accounts, k)
  }

  ghost predicate Used(fee: Key, calls: seq<Call>, k: Key) {
    k == fee || exists c :: 0 <= c < |calls| && (calls[c].program == k || Names(calls[c].accounts, k))
  }

  lemma {:induction false} MergeAllIs(seen: map<Key, Perm>, ms: seq<Meta>, k: Key)
    ensures k in MergeAll(seen, ms) <==> k in seen || Names(ms, k)
    ensures k in MergeAll(seen, ms) ==>
              && (MergeAll(seen, ms)[k].signer <==> (k in seen && seen[k].signer) || AsksSigner(ms, k))
              && (MergeAll(seen, ms)[k].writable <==> (k in seen && seen[k].writable) || AsksWritable(ms, k))
    decreases |ms|
  {
    if ms != [] {
      var n := |ms| - 1;
      MergeAllIs(seen, ms[..n], k);
      LastMeta(ms, k);
    }
  }

  lemma LastMeta(ms: seq<Meta>, k: Key)
    requires ms != []
    ensures Names(ms, k) <==> Names(ms[..|ms| - 1], k) || ms[|ms| - 1].key == k
    ensures AsksSigner(ms, k) <==> AsksSigner(ms[..|ms| - 1], k) || (ms[|ms| - 1].key == k && ms[|ms| - 1].signer)
    ensures AsksWritable(ms, k) <==> AsksWritable(ms[..|ms| - 1], k) || (ms[|ms| - 1].key == k && ms[|ms| - 1].writable)
  {
    var n := |ms| - 1;
    assert forall i :: 0 <= i < n ==> ms[..n][i] == ms[i];
  }

  lemma LastCall(fee: Key, calls: seq<Call>, k: Key)
    requires calls != []
    ensures var n, last := |calls| - 1, calls[|calls| - 1];
            && (Used(fee, calls, k) <==> Used(fee, calls[..n], k) || last.program == k || Names(last.accounts, k))
            && (MustSign(fee, calls, k) <==> MustSign(fee, calls[..n], k) || AsksSigner(last.accounts, k))
            && (MustWrite(fee, calls, k) <==> MustWrite(fee, calls[..n], k) || AsksWritable(last.accounts, k))
  {
    var n := |calls| - 1;
    assert forall c :: 0 <= c < n ==> calls[..n][c] == calls[c];
  }

  /** The map holds exactly the keys in use, each with the union of what was asked for it. */
  lemma {:induction false} CollectIs(fee: Key, calls: seq<Call>, k: Key)
    ensures k in Collect(fee, calls) <==> Used(fee, calls, k)
    ensures k in Collect(fee, calls) ==>
              && (Collect(fee, calls)[k].signer <==> MustSign(fee, calls, k))
              && (Collect(fee, calls)[k].writable <==> MustWrite(fee, calls, k))
    decreases |calls|
  {
    if calls != [] {
      var n := |calls| - 1;
      CollectIs(fee, calls[..n], k);
      MergeAllIs(Collect(fee, calls[..n]), calls[n].accounts, k);
      LastCall(fee, calls, k);
    }
  }

  /** The keys somebody wants to sign, counted off the instructions. */
  ghost function SignerKeys(fee: Key, calls: seq<Call>): set<Key> {
    {fee} + set c, i | 0 <= c < |calls| && 0 <= i < |calls[c].accounts| && calls[c].accounts[i].signer
                     :: calls[c].accounts[i].key
  }

  /** All keys the instructions mention. */
  ghost function UsedKeys(fee: Key, calls: seq<Call>): set<Key> {
    {fee} + (set c | 0 <= c < |calls| :: calls[c].program)
    + set c, i | 0 <= c < |calls| && 0 <= i < |calls[c].accounts| :: calls[c].accounts[i].key
  }

  lemma SignerKeysAre(fee: Key, calls: seq<Call>, k: Key)
    ensures k in SignerKeys(fee, calls) <==> MustSign(fee, calls, k)
  {
    if MustSign(fee, calls, k) && k != fee {
      var c :| 0 <= c < |calls| && AsksSigner(calls[c].accounts, k);
      var i :| 0 <= i < |calls[c].accounts| && calls[c].accounts[i].key == k && calls[c].accounts[i].signer;
    }
  }

  lemma UsedKeysAre(fee: Key, calls: seq<Call>, k: Key)
    ensures k in UsedKeys(fee, calls) <==> Used(fee, calls, k)
  {
    if Used(fee, calls, k) && k != fee {
      var c :| 0 <= c < |calls| && (calls[c].program == k || Names(calls[c].accounts, k));
      if calls[c].program != k {
        var i :| 0 <= i < |calls[c].accounts| && calls[c].accounts[i].key == k;
      }
    }
  }

  /** No key is asked to sign without being asked to be written. */
  ghost predicate AllSignersWrite(fee: Key, calls: seq<Call>) {
    forall k :: k in SignerKeys(fee, calls) ==> MustWrite(fee, calls, k)
  }

  // ---------------------------------------------------------------------------------------
  // The account table
  // ---------------------------------------------------------------------------------------

  /** The keys with given permissions, without the fee payer. */
  function Group(seen: map<Key, Perm>, fee: Key, p: Perm): set<Key> {
    set k | k in seen && k != fee && seen[k] == p
  }

  ghost function TableOf(seen: map<Key, Perm>, fee: Key): seq<Key> {
    [fee] + (SortedOf(Group(seen, fee, Perm(true, true))) + (SortedOf(Group(seen, fee, Perm(true, false)))
    + (SortedOf(Group(seen, fee, Perm(false, true))) + SortedOf(Group(seen, fee, Perm(false, false))))))
  }

  datatype Counts = Counts(signers: nat, readonlySigned: nat, readonlyUnsigned: nat)

  ghost function CountsOf(seen: map<Key, Perm>, fee: Key): Counts {
    Counts(1 + |Group(seen, fee, Perm(true, true))| + |Group(seen, fee, Perm(true, false))|,
           |Group(seen, fee, Perm(true, false))|, |Group(seen, fee, Perm(false, false))|)
  }

  /** Conversion to uint8. */
  function Byte(n: nat): (b: byte)
    ensures n < 256 ==> b == n
  {
    n % 256
  }

  function HeaderFrom(c: Counts): Header {
    Header(Byte(c.signers), Byte(c.readonlySigned), Byte(c.readonlyUnsigned))
  }

  /** The position of a key, as the index map gives it. */
  function IndexOf(keys: seq<Key>, k: Key): (i: nat)
    ensures k in keys ==> i < |keys| && keys[i] == k
  {
    if keys == [] || keys[0] == k then 0 else
      assert k in keys ==> k in keys[1..] by { assert keys == [keys[0]] + keys[1..]; }
      1 + IndexOf(keys[1..], k)
  }

  function CompileCall(keys: seq<Key>, c: Call): Instruction {
    Instruction(Byte(IndexOf(keys, c.program)),
                seq(|c.accounts|, i requires 0 <= i < |c.accounts| => Byte(IndexOf(keys, c.accounts[i].key))),
                c.data)
  }

  function CompileCalls(keys: seq<Key>, calls: seq<Call>): seq<Instruction> {
    seq(|calls|, i requires 0 <= i < |calls| => CompileCall(keys, calls[i]))
  }

  datatype CompileError = TooManyAccounts

  /** A compiled message and the number of empty signature slots beside it. */
  datatype Compiled = Compiled(message: Message, slots: nat)

  /** The result as a function of the input alone: no trace of the order the map was walked in. */
  ghost function Compile(fee: Key, blockhash: Key, calls: seq<Call>): Result<Compiled, CompileError> {
    var seen := Collect(fee, calls);
    var keys, counts := TableOf(seen, fee), CountsOf(seen, fee);
    if |keys| > 256 then Err(TooManyAccounts)
    else Ok(Compiled(Message(HeaderFrom(counts), keys, blockhash, CompileCalls(keys, calls)), counts.signers))
  }

  // ---------------------------------------------------------------------------------------
  // What the table says
  // ---------------------------------------------------------------------------------------

  lemma {:induction false} GroupDistinct(seen: map<Key, Perm>, fee: Key, p: Perm)
    ensures Distinct(SortedOf(Group(seen, fee, p))) && |SortedOf(Group(seen, fee, p))| == |Group(seen, fee, p)|
  {
    SortedIsDistinct(SortedOf(Group(seen, fee, p)));
  }

  /** Keys are distinct, and they are exactly the keys of the map. */
  lemma TableDistinct(seen: map<Key, Perm>, fee: Key)
    ensures Distinct(TableOf(seen, fee))
  {
    var tt, tf, ft, ff := Perm(true, true), Perm(true, false), Perm(false, true), Perm(false, false);
    var a, b := SortedOf(Group(seen, fee, tt)), SortedOf(Group(seen, fee, tf));
    var c, d := SortedOf(Group(seen, fee, ft)), SortedOf(Group(seen, fee, ff));
    GroupDistinct(seen, fee, tt);
    GroupDistinct(seen, fee, tf);
    GroupDistinct(seen, fee, ft);
    GroupDistinct(seen, fee, ff);
    DistinctConcat(c, d);
    DistinctConcat(b, c + d);
    DistinctConcat(a, b + (c + d));
    DistinctConcat([fee], a + (b + (c + d)));
  }

  lemma TableMembers(seen: map<Key, Perm>, fee: Key, k: Key)
    requires fee in seen
    ensures k in TableOf(seen, fee) <==> k in seen
  {
    if k in seen && k != fee {
      assert k in SortedOf(Group(seen, fee, seen[k]));
    }
  }

  /** The signer and writable status a reader takes from a header and a position. */
  predicate ReadsSigner(h: Header, i: nat) {
    i < h.required
  }

  predicate ReadsWritable(h: Header, n: nat, i: nat) {
    i < h.required as int - h.readonlySigned || (h.required <= i && i < n - h.readonlyUnsigned)
  }

  /** Which group a position falls into, before the counts are cut to bytes. */
  lemma GroupAt(seen: map<Key, Perm>, fee: Key, i: nat)
    requires fee in seen && seen[fee] == Perm(true, true) && i < |TableOf(seen, fee)|
    ensures var keys, c := TableOf(seen, fee), CountsOf(seen, fee);
            && keys[i] in seen
            && (seen[keys[i]].signer <==> i < c.signers)
            && (seen[keys[i]].writable
                <==> i < c.signers - c.readonlySigned || (c.signers <= i < |keys| - c.readonlyUnsigned))
  {
    var tt, tf, ft, ff := Perm(true, true), Perm(true, false), Perm(false, true), Perm(false, false);
    var a, b := SortedOf(Group(seen, fee, tt)), SortedOf(Group(seen, fee, tf));
    var c, d := SortedOf(Group(seen, fee, ft)), SortedOf(Group(seen, fee, ff));
    var k := TableOf(seen, fee)[i];
    if i == 0 {
      assert k == fee;
    } else if i < 1 + |a| {
      assert k == a[i - 1] && k in a;
    } else if i < 1 + |a| + |b| {
      assert k == b[i - 1 - |a|] && k in b;
    } else if i < 1 + |a| + |b| + |c| {
      assert k == c[i - 1 - |a| - |b|] && k in c;
    } else {
      assert k == d[i - 1 - |a| - |b| - |c|] && k in d;
    }
  }

  /** Behind the fee payer, keys with the same permissions stand in byte order. */
  lemma GroupsAscend(seen: map<Key, Perm>, fee: Key, i: nat, j: nat)
    requires fee in seen && seen[fee] == Perm(true, true) && 0 < i < j < |TableOf(seen, fee)|
    requires TableOf(seen, fee)[i] in seen && TableOf(seen, fee)[j] in seen
    requires seen[TableOf(seen, fee)[i]] == seen[TableOf(seen, fee)[j]]
    ensures Less(TableOf(seen, fee)[i], TableOf(seen, fee)[j])
  {
    var tt, tf, ft, ff := Perm(true, true), Perm(true, false), Perm(false, true), Perm(false, false);
    var a, b := SortedOf(Group(seen, fee, tt)), SortedOf(Group(seen, fee, tf));
    var c, d := SortedOf(Group(seen, fee, ft)), SortedOf(Group(seen, fee, ff));
    InGroup(a, b, c, d, i);
    InGroup(a, b, c, d, j);
    assert TableOf(seen, fee) == [fee] + (a + (b + (c + d)));
  }

  /** Where a place behind the fee payer falls among four lists. */
  lemma InGroup(a: seq<Key>, b: seq<Key>, c: seq<Key>, d: seq<Key>, i: nat)
    requires 0 < i < 1 + |a| + |b| + |c| + |d|
    ensures forall fee: Key ::
              var k := ([fee] + (a + (b + (c + d))))[i];
              if i < 1 + |a| then k == a[i - 1] && k in a
              else if i < 1 + |a| + |b| then k == b[i - 1 - |a|] && k in b
              else if i < 1 + |a| + |b| + |c| then k == c[i - 1 - |a| - |b|] && k in c
              else k == d[i - 1 - |a| - |b| - |c|] && k in d
  {
  }

  lemma FeeIsFull(fee: Key, calls: seq<Call>)
    ensures fee in Collect(fee, calls) && Collect(fee, calls)[fee] == Perm(true, true)
  {
    CollectIs(fee, calls, fee);
  }

  /** In the compiled table, keys that are asked for in the same ways stand in byte order. */
  lemma KeysAscend(fee: Key, blockhash: Key, calls: seq<Call>, i: nat, j: nat)
    requires Compile(fee, blockhash, calls).Ok?
    requires 0 < i < j < |Compile(fee, blockhash, calls).value.message.keys|
    requires var keys := Compile(fee, blockhash, calls).value.message.keys;
             && (MustSign(fee, calls, keys[i]) <==> MustSign(fee, calls, keys[j]))
             && (MustWrite(fee, calls, keys[i]) <==> MustWrite(fee, calls, keys[j]))
    ensures var keys := Compile(fee, blockhash, calls).value.message.keys; Less(keys[i], keys[j])
  {
    var seen := Collect(fee, calls);
    var keys := TableOf(seen, fee);
    FeeIsFull(fee, calls);
    GroupAt(seen, fee, i);
    GroupAt(seen, fee, j);
    CollectIs(fee, calls, keys[i]);
    CollectIs(fee, calls, keys[j]);
    GroupsAscend(seen, fee, i, j);
  }

  ghost predicate StatusRight(fee: Key, calls: seq<Call>, h: Header, keys: seq<Key>, i: nat)
    requires i < |keys|
  {
    && (ReadsSigner(h, i) <==> MustSign(fee, calls, keys[i]))
    && (ReadsWritable(h, |keys|, i) <==> MustWrite(fee, calls, keys[i]))
  }

  lemma CountsFit(seen: map<Key, Perm>, fee: Key)
    ensures var c := CountsOf(seen, fee);
            c.readonlySigned < c.signers && c.signers + c.readonlyUnsigned <= |TableOf(seen, fee)|
  {
  }

  /** The number of signature slots is the number of keys that somebody wants to sign. */
  lemma SlotsAreSigners(fee: Key, calls: seq<Call>)
    ensures CountsOf(Collect(fee, calls), fee).signers == |SignerKeys(fee, calls)|
  {
    var seen := Collect(fee, calls);
    var both, signed := Group(seen, fee, Perm(true, true)), Group(seen, fee, Perm(true, false));
    forall k ensures k in SignerKeys(fee, calls) <==> k in {fee} + (both + signed) {
      SignerKeysAre(fee, calls, k);
      CollectIs(fee, calls, k);
    }
    assert SignerKeys(fee, calls) == {fee} + (both + signed);
    assert both !! signed && fee !in both + signed;
  }

  /** The read-only signers are the ones nobody wants to write. */
  lemma ReadonlySigners(fee: Key, calls: seq<Call>)
    ensures CountsOf(Collect(fee, calls), fee).readonlySigned == 0 <==> AllSignersWrite(fee, calls)
  {
    var seen := Collect(fee, calls);
    var signed := Group(seen, fee, Perm(true, false));
    forall k ensures k in signed <==> k in SignerKeys(fee, calls) && !MustWrite(fee, calls, k) {
      SignerKeysAre(fee, calls, k);
      CollectIs(fee, calls, k);
    }
    if signed != {} {
      var k :| k in signed;
    }
  }

  lemma StatusAt(fee: Key, blockhash: Key, calls: seq<Call>, i: nat)
    requires Compile(fee, blockhash, calls).Ok?
    requires Compile(fee, blockhash, calls).value.slots <= 255
    requires i < |Compile(fee, blockhash, calls).value.message.keys|
    ensures var m := Compile(fee, blockhash, calls).value.message;
            StatusRight(fee, calls, m.header, m.keys, i)
  {
    var seen := Collect(fee, calls);
    FeeIsFull(fee, calls);
    CountsFit(seen, fee);
    GroupAt(seen, fee, i);
    CollectIs(fee, calls, TableOf(seen, fee)[i]);
  }

  ghost predicate AllStatusRight(fee: Key, calls: seq<Call>, m: Message) {
    forall i :: 0 <= i < |m.keys| ==> StatusRight(fee, calls, m.header, m.keys, i)
  }

  /**
   * Reading signer and writable back from header and position gives exactly the union of what
   * was asked for every key (both for the fee payer), precisely when at most 255 keys sign.
   */
  lemma StatusExactly(fee: Key, blockhash: Key, calls: seq<Call>)
    requires Compile(fee, blockhash, calls).Ok?
    ensures Compile(fee, blockhash, calls).value.slots == |SignerKeys(fee, calls)|
    ensures AllStatusRight(fee, calls, Compile(fee, blockhash, calls).value.message)
       <==> |SignerKeys(fee, calls)| <= 255
  {
    var r := Compile(fee, blockhash, calls).value;
    var h, keys := r.message.header, r.message.keys;
    SlotsAreSigners(fee, calls);
    CountsFit(Collect(fee, calls), fee);
    if r.slots <= 255 {
      forall i | 0 <= i < |keys| ensures StatusRight(fee, calls, h, keys, i) {
        StatusAt(fee, blockhash, calls, i);
      }
    } else {
      assert h.required == 0 && keys[0] == fee;
      assert !StatusRight(fee, calls, h, keys, 0);
    }
  }

  /** Counts cut to bytes still make a valid header, unless 256 signers leave a read-only one behind. */
  lemma HeaderOfCounts(c: Counts, keys: nat)
    requires c.readonlySigned < c.signers && c.signers + c.readonlyUnsigned <= keys <= 256
    ensures HeaderValid(HeaderFrom(c), keys) <==> c.signers <= 255 || c.readonlySigned == 0
    ensures HeaderFrom(c).required == if c.signers == 256 then 0 else c.signers
  {
  }

  /** The header of a compiled message passes validation exactly so. */
  lemma CompiledHeaderValid(fee: Key, blockhash: Key, calls: seq<Call>)
    requires Compile(fee, blockhash, calls).Ok?
    ensures var m, n := Compile(fee, blockhash, calls).value.message, |SignerKeys(fee, calls)|;
            && n <= 256 && m.header.required == (if n == 256 then 0 else n)
            && (HeaderValid(m.header, |m.keys|) <==> n <= 255 || AllSignersWrite(fee, calls))
  {
    CountsFit(Collect(fee, calls), fee);
    SlotsAreSigners(fee, calls);
    ReadonlySigners(fee, calls);
    HeaderOfCounts(CountsOf(Collect(fee, calls), fee), |TableOf(Collect(fee, calls), fee)|);
  }

  lemma TableUsed(fee: Key, calls: seq<Call>)
    ensures Distinct(TableOf(Collect(fee, calls), fee))
    ensures forall k :: k in TableOf(Collect(fee, calls), fee) <==> Used(fee, calls, k)
  {
    var seen := Collect(fee, calls);
    FeeIsFull(fee, calls);
    TableDistinct(seen, fee);
    forall k ensures k in TableOf(seen, fee) <==> Used(fee, calls, k) {
      TableMembers(seen, fee, k);
      CollectIs(fee, calls, k);
    }
  }

  /** The fee payer is first, keys are distinct, and they are exactly the keys in use. */
  lemma TableIsRight(fee: Key, blockhash: Key, calls: seq<Call>)
    requires Compile(fee, blockhash, calls).Ok?
    ensures var keys := Compile(fee, blockhash, calls).value.message.keys;
            keys[0] == fee && Distinct(keys) && forall k :: k in keys <==> Used(fee, calls, k)
  {
    TableUsed(fee, calls);
  }

  lemma {:induction false} TableSize(seen: map<Key, Perm>, fee: Key)
    requires fee in seen
    ensures |TableOf(seen, fee)| == |seen.Keys|
  {
    TableDistinct(seen, fee);
    forall k ensures k in TableOf(seen, fee) <==> k in seen.Keys {
      TableMembers(seen, fee, k);
    }
    ListingSize(TableOf(seen, fee), seen.Keys);
  }

  lemma {:induction false} ListingSize(xs: seq<Key>, s: set<Key>)
    requires Distinct(xs) && Lists(xs, s)
    ensures |xs| == |s|
    decreases |xs|
  {
    if xs == [] {
      assert s == {};
    } else {
      var n := |xs| - 1;
      assert xs == xs[..n] + [xs[n]];
      assert xs[n] in s;
      ListingSize(xs[..n], s - {xs[n]});
    }
  }

  /** Compilation fails exactly when more than 256 different keys are in use. */
  lemma FailsExactly(fee: Key, blockhash: Key, calls: seq<Call>)
    ensures Compile(fee, blockhash, calls).Err? <==> |UsedKeys(fee, calls)| > 256
  {
    FeeIsFull(fee, calls);
    TableSize(Collect(fee, calls), fee);
    forall k ensures k in Collect(fee, calls).Keys <==> k in UsedKeys(fee, calls) {
      CollectIs(fee, calls, k);
      UsedKeysAre(fee, calls, k);
    }
    assert Collect(fee, calls).Keys == UsedKeys(fee, calls);
  }

  lemma IndexResolves(keys: seq<Key>, k: Key)
    requires k in keys && |keys| <= 256
    ensures Byte(IndexOf(keys, k)) < |keys| && keys[Byte(IndexOf(keys, k))] == k
  {
  }

  /** Every compiled index leads back to the key it was compiled from; data is kept. */
  lemma IndexesResolve(fee: Key, blockhash: Key, calls: seq<Call>, c: nat)
    requires Compile(fee, blockhash, calls).Ok? && c < |calls|
    ensures var m := Compile(fee, blockhash, calls).value.message;
            && |m.instructions| == |calls| && |m.instructions[c].accounts| == |calls[c].accounts|
            && m.instructions[c].data == calls[c].data
            && IndexesBelow(m.instructions[c], |m.keys|)
            && m.keys[m.instructions[c].program] == calls[c].program
            && forall j :: 0 <= j < |calls[c].accounts| ==>
                 m.keys[m.instructions[c].accounts[j]] == calls[c].accounts[j].key
  {
    var keys := Compile(fee, blockhash, calls).value.message.keys;
    TableIsRight(fee, blockhash, calls);
    assert Used(fee, calls, calls[c].program);
    IndexResolves(keys, calls[c].program);
    forall j | 0 <= j < |calls[c].accounts|
      ensures var b := Byte(IndexOf(keys, calls[c].accounts[j].key)); b < |keys| && keys[b] == calls[c].accounts[j].key
    {
      assert Names(calls[c].accounts, calls[c].accounts[j].key);
      assert Used(fee, calls, calls[c].accounts[j].key);
      IndexResolves(keys, calls[c].accounts[j].key);
    }
  }

  // ---------------------------------------------------------------------------------------
  // Compiled transactions on the wire
  // ---------------------------------------------------------------------------------------

  /** The signature slots of a fresh transaction are empty. */
  function EmptySlots(n: nat): (sigs: seq<seq<byte>>)
    ensures |sigs| == n && SignaturesSized(sigs)
  {
    seq(n, _ => [])
  }

  /** The Go types: keys and block hashes are 32-byte arrays. */
  ghost predicate TypedCalls(fee: Key, blockhash: Key, calls: seq<Call>) {
    |blockhash| == 32 && forall k :: Used(fee, calls, k) ==> |k| == 32
  }

  /** Counts the writer has room for. */
  predicate CountableCalls(calls: seq<Call>) {
    && |calls| <= MAX_COMPACT
    && forall c :: 0 <= c < |calls| ==> |calls[c].accounts| <= MAX_COMPACT && |calls[c].data| <= MAX_COMPACT
  }

  lemma CompiledShape(fee: Key, blockhash: Key, calls: seq<Call>)
    requires Compile(fee, blockhash, calls).Ok? && TypedCalls(fee, blockhash, calls) && CountableCalls(calls)
    ensures var m := Compile(fee, blockhash, calls).value.message;
            Typed(m) && MessageCounts(m) && |m.keys| <= MAX_KEYS && AllIndexesBelow(m.instructions, |m.keys|)
  {
    var m := Compile(fee, blockhash, calls).value.message;
    TableIsRight(fee, blockhash, calls);
    forall i | 0 <= i < |m.keys| ensures |m.keys[i]| == 32 {
      assert Used(fee, calls, m.keys[i]);
    }
    forall c | 0 <= c < |m.instructions|
      ensures IndexesBelow(m.instructions[c], |m.keys|)
      ensures |m.instructions[c].accounts| <= MAX_COMPACT && |m.instructions[c].data| <= MAX_COMPACT
    {
      IndexesResolve(fee, blockhash, calls, c);
    }
  }

  /** Reading the marshalled transaction back gives it again, with zeros for the signatures. */
  ghost predicate Travels(slots: nat, body: Body, rest: seq<byte>) {
    && Marshal(EmptySlots(slots), body).Written?
    && TxCodec().read(Marshal(EmptySlots(slots), body).bytes + rest) == Got((Slots(EmptySlots(slots)), body), rest)
  }

  lemma TravelsIfTransportable(slots: nat, body: Body, rest: seq<byte>)
    requires slots <= MAX_SIGNATURES && TypedBody(body) && BodyCounts(body)
    ensures Travels(slots, body, rest) <==> BodyValid(body)
  {
    RoundTripsExactly(EmptySlots(slots), body, rest);
  }

  /**
   * A compiled legacy transaction comes back from the wire exactly with at most 127 signers, or
   * with 256 none of which is read-only: then the header, cut to bytes, asks for no signature.
   * From 128 to 255 its first byte reads as a version prefix.
   */
  lemma CompiledTravels(fee: Key, blockhash: Key, calls: seq<Call>, rest: seq<byte>)
    requires Compile(fee, blockhash, calls).Ok? && TypedCalls(fee, blockhash, calls) && CountableCalls(calls)
    ensures var r, n := Compile(fee, blockhash, calls).value, |SignerKeys(fee, calls)|;
            Travels(r.slots, Left(r.message), rest) <==> n <= 127 || (n == 256 && AllSignersWrite(fee, calls))
  {
    var r := Compile(fee, blockhash, calls).value;
    CompiledShape(fee, blockhash, calls);
    CompiledHeaderValid(fee, blockhash, calls);
    SlotsAreSigners(fee, calls);
    TravelsIfTransportable(r.slots, Left(r.message), rest);
  }

  lemma {:induction false} AddressableAtLeast(keys: nat, lookups: seq<Lookup>)
    ensures Addressable(keys, lookups) >= keys
  {
    if lookups != [] {
      AddressableAtLeast(keys, lookups[..|lookups| - 1]);
    }
  }

  lemma IndexesBelowMore(ixs: seq<Instruction>, a: nat, b: nat)
    requires AllIndexesBelow(ixs, a) && a <= b
    ensures AllIndexesBelow(ixs, b)
  {
    forall i | 0 <= i < |ixs| ensures IndexesBelow(ixs[i], b) {
      assert IndexesBelow(ixs[i], a);
    }
  }

  /** The version prefix is written out in version 0, so only the header counts decide. */
  lemma CompiledV0Travels(fee: Key, blockhash: Key, lookups: seq<Lookup>, calls: seq<Call>, rest: seq<byte>)
    requires Compile(fee, blockhash, calls).Ok? && TypedCalls(fee, blockhash, calls) && CountableCalls(calls)
    requires TypedLookups(lookups) && LookupCounts(lookups)
    ensures var r, n := Compile(fee, blockhash, calls).value, |SignerKeys(fee, calls)|;
            Travels(r.slots, Right(MessageV0(r.message, lookups)), rest) <==> n <= 255 || AllSignersWrite(fee, calls)
  {
    var r := Compile(fee, blockhash, calls).value;
    CompiledShape(fee, blockhash, calls);
    CompiledHeaderValid(fee, blockhash, calls);
    SlotsAreSigners(fee, calls);
    AddressableAtLeast(|r.message.keys|, lookups);
    IndexesBelowMore(r.message.instructions, |r.message.keys|, Addressable(|r.message.keys|, lookups));
    TravelsIfTransportable(r.slots, Right(MessageV0(r.message, lookups)), rest);
  }

  /** The signers of the message are the keys somebody wants to sign, each once. */
  lemma SignersOfMessage(fee: Key, blockhash: Key, calls: seq<Call>)
    requires Compile(fee, blockhash, calls).Ok? && |SignerKeys(fee, calls)| <= 255
    ensures var m := Compile(fee, blockhash, calls).value.message;
            && m.header.required <= |m.keys| && Distinct(m.keys[..m.header.required])
            && forall k :: k in m.keys[..m.header.required] <==> MustSign(fee, calls, k)
  {
    var m := Compile(fee, blockhash, calls).value.message;
    CompiledHeaderValid(fee, blockhash, calls);
    StatusExactly(fee, blockhash, calls);
    TableIsRight(fee, blockhash, calls);
    var signers := m.keys[..m.header.required];
    forall k ensures k in signers <==> MustSign(fee, calls, k) {
      if k in signers {
        var i :| 0 <= i < |signers| && signers[i] == k;
        assert StatusRight(fee, calls, m.header, m.keys, i);
      }
      if MustSign(fee, calls, k) {
        assert Used(fee, calls, k) by { SignerIsUsed(fee, calls, k); }
        var i :| 0 <= i < |m.keys| && m.keys[i] == k;
        assert StatusRight(fee, calls, m.header, m.keys, i);
        assert signers[i] == k;
      }
    }
  }

  lemma SignerIsUsed(fee: Key, calls: seq<Call>, k: Key)
    requires MustSign(fee, calls, k)
    ensures Used(fee, calls, k)
  {
    if k != fee {
      var c :| 0 <= c < |calls| && AsksSigner(calls[c].accounts, k);
      assert Names(calls[c].accounts, k);
    }
  }

  /**
   * Secrets for exactly the keys that must sign, in any order and with repetitions, sign a
   * compiled transaction without error, and all its signatures verify then.
   */
  lemma CompiledSigns(ed: Ed25519, fee: Key, blockhash: Key, calls: seq<Call>, msg: seq<byte>, secrets: seq<seq<byte>>)
    requires SolanaTransaction.Sound(ed) && Compile(fee, blockhash, calls).Ok? && |SignerKeys(fee, calls)| <= 255
    requires forall s :: 0 <= s < |secrets| ==> MustSign(fee, calls, ed.public(secrets[s]))
    requires forall k :: MustSign(fee, calls, k) ==> HasSecret(ed, secrets, k)
    ensures var r := Compile(fee, blockhash, calls).value;
            r.message.header.required <= |r.message.keys|
    ensures var r := Compile(fee, blockhash, calls).value;
            var signers := r.message.keys[..r.message.header.required];
            var signed := SignWith(ed, msg, signers, EmptySlots(r.slots), secrets);
            signed.err == None && AllVerify(ed, msg, signers, signed.sigs)
  {
    var r := Compile(fee, blockhash, calls).value;
    SignersOfMessage(fee, blockhash, calls);
    CompiledHeaderValid(fee, blockhash, calls);
    SlotsAreSigners(fee, calls);
    var signers := r.message.keys[..r.message.header.required];
    forall i | 0 <= i < |signers|
      ensures HasSecret(ed, secrets, signers[i])
    {
      assert signers[i] in signers;
    }
    forall s | 0 <= s < |secrets| ensures ed.public(secrets[s]) in signers {
      assert MustSign(fee, calls, ed.public(secrets[s]));
    }
    SigningCompletes(ed, msg, signers, EmptySlots(r.slots), secrets);
  }

  // ---------------------------------------------------------------------------------------
  // The limits are reachable
  // ---------------------------------------------------------------------------------------

  function KeyNumber(i: nat): (k: Key)
    ensures |k| == 32
  {
    [Byte(i)] + Zeros(31)
  }

  function Numbered(n: nat): (xs: seq<Key>)
    ensures |xs| == n
  {
    seq(n, i requires 0 <= i < n => KeyNumber(i))
  }

  /** One instruction that asks n numbered keys to sign, writable or not. */
  function SigningCalls(n: nat, writable: bool): seq<Call> {
    [Call(KeyNumber(0), seq(n, i requires 0 <= i < n => Meta(Numbered(n)[i], true, writable)), [])]
  }

  lemma NumberedDistinct(n: nat)
    requires n <= 256
    ensures Distinct(Numbered(n))
  {
    forall i, j | 0 <= i < j < n ensures Numbered(n)[i] != Numbered(n)[j] {
      assert Numbered(n)[i][0] == i && Numbered(n)[j][0] == j;
    }
  }

  /** The numbered keys are the ones that sign, and no other key is used. */
  lemma SigningCallsAsk(n: nat, writable: bool, k: Key)
    requires n >= 1
    ensures MustSign(KeyNumber(0), SigningCalls(n, writable), k) <==> k in Numbered(n)
    ensures Used(KeyNumber(0), SigningCalls(n, writable), k) <==> k in Numbered(n)
  {
    var calls := SigningCalls(n, writable);
    assert Numbered(n)[0] == KeyNumber(0);
    if k in Numbered(n) {
      var i :| 0 <= i < n && Numbered(n)[i] == k;
      assert calls[0].accounts[i].key == k;
      assert AsksSigner(calls[0].accounts, k) && Names(calls[0].accounts, k);
    }
  }

  lemma SigningCallsCount(n: nat, writable: bool)
    requires 1 <= n <= 256
    ensures |SignerKeys(KeyNumber(0), SigningCalls(n, writable))| == n
    ensures |UsedKeys(KeyNumber(0), SigningCalls(n, writable))| == n
  {
    var fee, calls := KeyNumber(0), SigningCalls(n, writable);
    NumberedDistinct(n);
    forall k
      ensures k in SignerKeys(fee, calls) <==> k in Numbered(n)
      ensures k in UsedKeys(fee, calls) <==> k in Numbered(n)
    {
      SigningCallsAsk(n, writable, k);
      SignerKeysAre(fee, calls, k);
      UsedKeysAre(fee, calls, k);
    }
    ListingSize(Numbered(n), SignerKeys(fee, calls));
    ListingSize(Numbered(n), UsedKeys(fee, calls));
  }

  /** Every number of signers from 1 to 256 compiles; at 256 the roles are lost. */
  lemma SignerCountsReachable(n: nat, writable: bool, blockhash: Key)
    requires 1 <= n <= 256
    ensures var fee, calls := KeyNumber(0), SigningCalls(n, writable);
            && Compile(fee, blockhash, calls).Ok? && |SignerKeys(fee, calls)| == n
            && (n == 256 ==> !AllStatusRight(fee, calls, Compile(fee, blockhash, calls).value.message))
  {
    SigningCallsCount(n, writable);
    FailsExactly(KeyNumber(0), blockhash, SigningCalls(n, writable));
    StatusExactly(KeyNumber(0), blockhash, SigningCalls(n, writable));
  }

  // ---------------------------------------------------------------------------------------
  // The compiler
  // ---------------------------------------------------------------------------------------

  method CollectLoop(fee: Key, calls: seq<Call>) returns (seen: map<Key, Perm>)
    ensures seen == Collect(fee, calls)
  {
    seen := map[fee := Perm(true, true)];
    for c := 0 to |calls|
      invariant seen == Collect(fee, calls[..c])
    {
      assert calls[..c + 1][..c] == calls[..c];
      seen := MergeLoop(seen, calls[c].accounts);
      if calls[c].program !in seen {
        seen := seen[calls[c].program := Perm(false, false)];
      }
    }
    assert calls[..|calls|] == calls;
  }

  method MergeLoop(seen: map<Key, Perm>, ms: seq<Meta>) returns (merged: map<Key, Perm>)
    ensures merged == MergeAll(seen, ms)
  {
    merged := seen;
    for i := 0 to |ms|
      invariant merged == MergeAll(seen, ms[..i])
    {
      assert ms[..i + 1][..i] == ms[..i];
      var m := ms[i];
      if m.key in merged {
        var info := merged[m.key];
        merged := merged[m.key := Perm(info.signer || m.signer, info.writable || m.writable)];
      } else {
        merged := merged[m.key := Perm(m.signer, m.writable)];
      }
    }
    assert ms[..|ms|] == ms;
  }

  /** One more key of the map goes into its group. */
  ghost predicate Listed(xs: seq<Key>, seen: map<Key, Perm>, fee: Key, p: Perm, left: set<Key>) {
    Distinct(xs) && forall k :: k in xs <==> k in Group(seen, fee, p) && k !in left
  }

  lemma ListedStep(xs: seq<Key>, seen: map<Key, Perm>, fee: Key, p: Perm, left: set<Key>, k: Key)
    requires Listed(xs, seen, fee, p, left) && k in left && k in seen
    ensures k in Group(seen, fee, p) ==> Listed(xs + [k], seen, fee, p, left - {k})
    ensures k !in Group(seen, fee, p) ==> Listed(xs, seen, fee, p, left - {k})
  {
    DistinctConcat(xs, [k]);
  }

  /** Walks the map in whatever order it comes. */
  method GroupLoop(seen: map<Key, Perm>, fee: Key) returns (tt: seq<Key>, tf: seq<Key>, ft: seq<Key>, ff: seq<Key>)
    ensures Listed(tt, seen, fee, Perm(true, true), {}) && Listed(tf, seen, fee, Perm(true, false), {})
    ensures Listed(ft, seen, fee, Perm(false, true), {}) && Listed(ff, seen, fee, Perm(false, false), {})
  {
    tt, tf, ft, ff := [], [], [], [];
    var left := seen.Keys;
    while left != {}
      invariant left <= seen.Keys
      invariant Listed(tt, seen, fee, Perm(true, true), left) && Listed(tf, seen, fee, Perm(true, false), left)
      invariant Listed(ft, seen, fee, Perm(false, true), left) && Listed(ff, seen, fee, Perm(false, false), left)
      decreases |left|
    {
      var k :| k in left;
      ListedStep(tt, seen, fee, Perm(true, true), left, k);
      ListedStep(tf, seen, fee, Perm(true, false), left, k);
      ListedStep(ft, seen, fee, Perm(false, true), left, k);
      ListedStep(ff, seen, fee, Perm(false, false), left, k);
      left := left - {k};
      if k == fee {
        continue;
      }
      var info := seen[k];
      if info.signer && info.writable {
        tt := tt + [k];
      } else if info.signer {
        tf := tf + [k];
      } else if info.writable {
        ft := ft + [k];
      } else {
        ff := ff + [k];
      }
    }
  }

  method BuildIndex(keys: seq<Key>) returns (index: map<Key, byte>)
    requires Distinct(keys)
    ensures forall k :: k in keys ==> k in index && index[k] == Byte(IndexOf(keys, k))
  {
    index := map[];
    for i := 0 to |keys|
      invariant forall j :: 0 <= j < i ==> keys[j] in index && index[keys[j]] == Byte(j)
    {
      index := index[keys[i] := Byte(i)];
    }
    forall k | k in keys ensures k in index && index[k] == Byte(IndexOf(keys, k)) {
      assert keys[IndexOf(keys, k)] == k;
    }
  }

  method CompileLoop(keys: seq<Key>, index: map<Key, byte>, calls: seq<Call>) returns (compiled: seq<Instruction>)
    requires forall k :: k in keys ==> k in index && index[k] == Byte(IndexOf(keys, k))
    requires forall c :: 0 <= c < |calls| ==>
               calls[c].program in keys && forall j :: 0 <= j < |calls[c].accounts| ==> calls[c].accounts[j].key in keys
    ensures compiled == CompileCalls(keys, calls)
  {
    compiled := [];
    for c := 0 to |calls|
      invariant compiled == CompileCalls(keys, calls[..c])
    {
      var ix := calls[c];
      var indices := [];
      for j := 0 to |ix.accounts|
        invariant |indices| == j
        invariant forall i :: 0 <= i < j ==> indices[i] == Byte(IndexOf(keys, ix.accounts[i].key))
      {
        indices := indices + [index[ix.accounts[j].key]];
      }
      assert indices == CompileCall(keys, ix).accounts;
      compiled := compiled + [Instruction(index[ix.program], indices, ix.data)];
    }
    assert calls[..|calls|] == calls;
  }

  lemma GroupSorted(xs: seq<Key>, seen: map<Key, Perm>, fee: Key, p: Perm)
    requires Listed(xs, seen, fee, p, {})
    ensures Sort(xs) == SortedOf(Group(seen, fee, p)) && |Sort(xs)| == |Group(seen, fee, p)|
  {
    SortLists(xs, Group(seen, fee, p));
  }

  /** The groups are gathered in any order; sorted, they are the same four lists every time. */
  method SortedGroups(seen: map<Key, Perm>, fee: Key) returns (tt: seq<Key>, tf: seq<Key>, ft: seq<Key>, ff: seq<Key>)
    ensures tt == SortedOf(Group(seen, fee, Perm(true, true))) && tf == SortedOf(Group(seen, fee, Perm(true, false)))
    ensures ft == SortedOf(Group(seen, fee, Perm(false, true))) && ff == SortedOf(Group(seen, fee, Perm(false, false)))
  {
    tt, tf, ft, ff := GroupLoop(seen, fee);
    GroupSorted(tt, seen, fee, Perm(true, true));
    GroupSorted(tf, seen, fee, Perm(true, false));
    GroupSorted(ft, seen, fee, Perm(false, true));
    GroupSorted(ff, seen, fee, Perm(false, false));
    tt, tf, ft, ff := Sort(tt), Sort(tf), Sort(ft), Sort(ff);
  }

  method BuildTable(fee: Key, calls: seq<Call>) returns (keys: seq<Key>, counts: Counts)
    ensures keys == TableOf(Collect(fee, calls), fee) && counts == CountsOf(Collect(fee, calls), fee)
  {
    var seen := CollectLoop(fee, calls);
    var tt, tf, ft, ff := SortedGroups(seen, fee);
    keys := [fee] + (tt + (tf + (ft + ff)));
    counts := Counts(1 + |tt| + |tf|, |tf|, |ff|);
  }

  method NewSolanaTx(fee: Key, blockhash: Key, calls: seq<Call>) returns (r: Result<Compiled, CompileError>)
    ensures r == Compile(fee, blockhash, calls)
  {
    var keys, counts := BuildTable(fee, calls);
    if |keys| > 256 {
      return Err(TooManyAccounts);
    }
    TableUsed(fee, calls);
    var index := BuildIndex(keys);
    CallsInTable(fee, calls, keys);
    var compiled := CompileLoop(keys, index, calls);
    return Ok(Compiled(Message(HeaderFrom(counts), keys, blockhash, compiled), counts.signers));
  }

  lemma CallsInTable(fee: Key, calls: seq<Call>, keys: seq<Key>)
    requires forall k :: k in keys <==> Used(fee, calls, k)
    ensures forall c :: 0 <= c < |calls| ==>
              calls[c].program in keys && forall j :: 0 <= j < |calls[c].accounts| ==> calls[c].accounts[j].key in keys
  {
    forall c | 0 <= c < |calls|
      ensures calls[c].program in keys && forall j :: 0 <= j < |calls[c].accounts| ==> calls[c].accounts[j].key in keys
    {
      assert Used(fee, calls, calls[c].program);
      forall j | 0 <= j < |calls[c].accounts| ensures calls[c].accounts[j].key in keys {
        assert Names(calls[c].accounts, calls[c].accounts[j].key);
        assert Used(fee, calls, calls[c].accounts[j].key);
      }
    }
  }

  /** Version 0 compiles the same way, keeps every account static, and carries the lookups along. */
  method NewSolanaTxV0(fee: Key, blockhash: Key, lookups: seq<Lookup>, calls: seq<Call>)
      returns (r: Result<(MessageV0, nat), CompileError>)
    ensures r == match Compile(fee, blockhash, calls)
                 case Err(e) => Err(e)
                 case Ok(c) => Ok((MessageV0(c.message, lookups), c.slots))
  {
    var keys, counts := BuildTable(fee, calls);
    if |keys| > 256 {
      return Err(TooManyAccounts);
    }
    TableUsed(fee, calls);
    var index := BuildIndex(keys);
    CallsInTable(fee, calls, keys);
    var compiled := CompileLoop(keys, index, calls);
    var message := Message(HeaderFrom(counts), keys, blockhash, compiled);
    return Ok((MessageV0(message, lookups), counts.signers));
  }
}
