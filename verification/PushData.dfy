/** Bitcoin script pushes (pushbytes.go). */
module PushData {
  import opened Arith
  import opened Bytes
  import opened Outcome

  function PushBytes(v: seq<byte>): (p: seq<byte>)
    ensures |p| > |v|
  {
    if |v| <= 75 then [|v|] + v
    else if |v| <= 0xff then [0x4c, |v|] + v
    else if |v| <= 0xffff then [0x4d] + LE(2, |v|) + v
    else [0x4e] + LE(4, |v|) + v
  }

  /** The push, form by form: a length byte, or an opcode with the length in 1, 2 or 4 bytes. */
  lemma PushIs(v: seq<byte>)
    ensures |v| < 76 ==> PushBytes(v) == [|v|] + v
    ensures 76 <= |v| < 0x100 ==> PushBytes(v) == [0x4c, |v|] + v
    ensures 0x100 <= |v| < 0x1_0000 ==> PushBytes(v) == [0x4d] + LE(2, |v|) + v
    ensures 0x1_0000 <= |v| ==> PushBytes(v) == [0x4e] + LE(4, |v|) + v
  {
  }

  /** The data and the number of bytes consumed. */
  datatype Pushed = Pushed(data: seq<byte>, used: nat)

  function Cut(v: seq<byte>, head: nat, len: nat): Option<Pushed>
    requires head <= |v|
  {
    if |v| - head >= len then Some(Pushed(v[head..head + len], head + len)) else None
  }

  /** None stands for the source's (nil, 0). */
  function ParsePushBytes(v: seq<byte>): (r: Option<Pushed>)
    ensures r.Some? ==> 0 < r.value.used <= |v|
  {
    if v == [] then None
    else if v[0] <= 75 then Cut(v, 1, v[0])
    else if v[0] == 0x4c then if |v| < 2 then None else Cut(v, 2, v[1])
    else if v[0] == 0x4d then if |v| < 3 then None else Cut(v, 3, FromLE(v[1..3]))
    else if v[0] == 0x4e then if |v| < 5 then None else Cut(v, 5, FromLE(v[1..5]))
    else None
  }

  const MAX_PUSH := 0x1_0000_0000

  lemma {:induction false} LEWraps(k: nat, v: nat)
    ensures FromLE(LE(k, v)) < Pow(256, k)
  {
    FromLEBound(LE(k, v));
  }

  lemma CutOf(head: seq<byte>, v: seq<byte>, rest: seq<byte>, len: nat)
    requires len == |v|
    ensures Cut(head + v + rest, |head|, len) == Some(Pushed(v, |head + v|))
  {
    assert (head + v + rest)[|head|..|head| + len] == v;
  }

  lemma ParseOfPush(v: seq<byte>, rest: seq<byte>)
    requires |v| < MAX_PUSH
    ensures ParsePushBytes(PushBytes(v) + rest) == Some(Pushed(v, |PushBytes(v)|))
  {
    var s := PushBytes(v) + rest;
    Widths();
    if |v| <= 75 {
      CutOf([|v|], v, rest, |v|);
    } else if |v| <= 0xff {
      CutOf([0x4c, |v|], v, rest, |v|);
    } else if |v| <= 0xffff {
      assert s[1..3] == LE(2, |v|);
      FromLEOfLE(2, |v|);
      CutOf([0x4d] + LE(2, |v|), v, rest, |v|);
    } else {
      assert s[1..5] == LE(4, |v|);
      FromLEOfLE(4, |v|);
      CutOf([0x4e] + LE(4, |v|), v, rest, |v|);
    }
  }

  /** A push is read back, with anything after it, exactly when its length fits 32 bits; a longer
      one loses the upper bits of its length. */
  lemma PushRoundTripsExactly(v: seq<byte>, rest: seq<byte>)
    ensures ParsePushBytes(PushBytes(v) + rest) == Some(Pushed(v, |PushBytes(v)|)) <==> |v| < MAX_PUSH
  {
    if |v| < MAX_PUSH {
      ParseOfPush(v, rest);
    } else {
      var s := PushBytes(v) + rest;
      Widths();
      assert s[1..5] == LE(4, |v|);
      LEWraps(4, |v|);
    }
  }

  // ---------------------------------------------------------------------------------------
  // Scripts that consist of pushes
  // ---------------------------------------------------------------------------------------

  function Pushes(ds: seq<seq<byte>>): seq<byte> {
    if ds == [] then [] else PushBytes(ds[0]) + Pushes(ds[1..])
  }

  function ParsePushes(s: seq<byte>): Option<seq<seq<byte>>> {
    if s == [] then Some([])
    else
      var p := ParsePushBytes(s);
      if p.None? then None
      else
        var tail := ParsePushes(s[p.value.used..]);
        if tail.None? then None else Some([p.value.data] + tail.value)
  }

  ghost predicate Pushable(ds: seq<seq<byte>>) {
    forall i :: 0 <= i < |ds| ==> |ds[i]| < MAX_PUSH
  }

  lemma {:induction false} ParseOfPushes(ds: seq<seq<byte>>)
    requires Pushable(ds)
    ensures ParsePushes(Pushes(ds)) == Some(ds)
  {
    if ds != [] {
      var rest := Pushes(ds[1..]);
      ParseOfPush(ds[0], rest);
      assert (PushBytes(ds[0]) + rest)[|PushBytes(ds[0])|..] == rest;
      ParseOfPushes(ds[1..]);
      assert ds == [ds[0]] + ds[1..];
    }
  }

  function After(done: seq<seq<byte>>, tail: Option<seq<seq<byte>>>): Option<seq<seq<byte>>> {
    if tail.None? then None else Some(done + tail.value)
  }

  lemma AfterOne(done: seq<seq<byte>>, d: seq<byte>, tail: Option<seq<seq<byte>>>)
    ensures After(done, After([d], tail)) == After(done + [d], tail)
  {
    if tail.Some? {
      assert done + ([d] + tail.value) == done + [d] + tail.value;
    }
  }

  lemma AfterNone(r: Option<seq<seq<byte>>>)
    ensures After([], r) == r
  {
    if r.Some? {
      assert [] + r.value == r.value;
    }
  }

  /** The loop both multisig parsers use: takes pushes off the front until nothing is left. */
  method PushLoop(script: seq<byte>) returns (r: Option<seq<seq<byte>>>)
    ensures r == ParsePushes(script)
  {
    var cur := script;
    var pushes := [];
    AfterNone(ParsePushes(script));
    while cur != []
      invariant ParsePushes(script) == After(pushes, ParsePushes(cur))
      decreases |cur|
    {
      var p := ParsePushBytes(cur);
      if p.None? {
        return None;
      }
      AfterOne(pushes, p.value.data, ParsePushes(cur[p.value.used..]));
      pushes := pushes + [p.value.data];
      cur := cur[p.value.used..];
    }
    assert pushes + [] == pushes;
    return Some(pushes);
  }
}
