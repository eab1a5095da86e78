/** The memoising script generator (script.go). */
module ScriptCache {
  import opened Bytes
  import opened Outcome
  import opened ScriptFormats

  class Script {
    const env: Env
    var cache: map<Name, seq<byte>>

    /** Every cached value is what evaluation without a cache gives. */
    ghost predicate Valid()
      reads this
    {
      forall name :: name in cache ==> Eval(env, name) == Some(cache[name])
    }

    constructor (env: Env)
      ensures Valid() && this.env == env && cache == map[]
    {
      this.env := env;
      cache := map[];
    }

    /** Nothing that was cached is lost or changed. */
    twostate predicate Grows()
      reads this
    {
      forall name :: name in old(cache) ==> name in cache && cache[name] == old(cache[name])
    }

    /** `Generate`: the result is the uncached one, whatever is in the cache; a success is
        remembered, and a failure leaves at most correct values of inner scripts behind. */
    method Generate(name: Name) returns (r: Option<seq<byte>>)
      requires Valid()
      modifies this
      ensures Valid() && Grows()
      ensures r == Eval(env, name)
      ensures r.Some? ==> name in cache
      decreases Rank(name), 2, 0
    {
      if name in cache {
        return Some(cache[name]);
      }
      if IsPubkeyName(name) {
        r := env.export_(name);
        if r.Some? {
          cache := cache[name := r.value];
        }
        return r;
      }
      var f := Format(name);
      if f.None? {
        return None;
      }
      FormatsAreAcyclic(name);
      r := GenerateAll(f.value, Rank(name));
      if r.Some? {
        cache := cache[name := r.value];
      }
    }

    /** The loop over the pieces of a format. */
    method GenerateAll(f: seq<Piece>, rank: nat) returns (r: Option<seq<byte>>)
      requires Valid() && AllLookBelow(f, rank)
      modifies this
      ensures Valid() && Grows()
      ensures r == EvalAll(env, f, rank)
      decreases rank, 1, |f|
    {
      var res: seq<byte> := [];
      var i := 0;
      while i < |f|
        invariant 0 <= i <= |f|
        invariant Valid() && Grows()
        invariant EvalAll(env, f[..i], rank) == Some(res)
      {
        assert f[..i + 1][..i] == f[..i];
        var v := PieceBytes(f[i], rank);
        if v.None? {
          PiecesFailOn(f, rank, i + 1);
          return None;
        }
        res := res + v.value;
        i := i + 1;
      }
      assert f[..i] == f;
      return Some(res);
    }

    lemma {:induction false} PiecesFailOn(f: seq<Piece>, rank: nat, n: nat)
      requires n <= |f| && AllLookBelow(f, rank) && EvalAll(env, f[..n], rank).None?
      ensures EvalAll(env, f, rank).None?
      decreases |f| - n
    {
      if n < |f| {
        assert f[..n + 1][..n] == f[..n];
        PiecesFailOn(f, rank, n + 1);
      } else {
        assert f[..n] == f;
      }
    }

    /** The `Bytes` methods of the pieces; a lookup goes back to the generator. */
    method PieceBytes(p: Piece, rank: nat) returns (r: Option<seq<byte>>)
      requires Valid() && LooksBelow(p, rank)
      modifies this
      ensures Valid() && Grows()
      ensures r == EvalPiece(env, p, rank)
      decreases rank, 0, p
    {
      match p
      case Literal(b) =>
        r := Some(b);
      case Lookup(name) =>
        r := Generate(name);
      case Push(v) =>
        var b := PieceBytes(v, rank);
        r := PushOf(b);
      case Hashed(v, chain) =>
        var b := PieceBytes(v, rank);
        r := HashOf(env, b, chain);
      case Tweaked(v) =>
        var b := PieceBytes(v, rank);
        r := TweakOf(env, b);
    }

    /** Any sequence of calls, succeeding or failing, answers each as if there were no cache. */
    method GenerateMany(names: seq<Name>) returns (rs: seq<Option<seq<byte>>>)
      requires Valid()
      modifies this
      ensures Valid() && Grows()
      ensures |rs| == |names|
      ensures forall i :: 0 <= i < |names| ==> rs[i] == Eval(env, names[i])
      ensures forall i :: 0 <= i < |names| && rs[i].Some? ==> names[i] in cache
    {
      rs := [];
      var i := 0;
      while i < |names|
        invariant 0 <= i <= |names| && |rs| == i
        invariant Valid() && Grows()
        invariant forall j :: 0 <= j < i ==> rs[j] == Eval(env, names[j])
        invariant forall j :: 0 <= j < i && rs[j].Some? ==> names[j] in cache
      {
        var r := Generate(names[i]);
        rs := rs + [r];
        i := i + 1;
      }
    }
  }
}
