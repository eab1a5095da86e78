/** Byte-wise ordering of keys and the sorted listing of a set of keys (solanatx.go). */
module KeyOrder {
  import opened Bytes

  /** `slices.Compare(a, b) < 0`. */
  predicate Less(a: seq<byte>, b: seq<byte>) {
    if b == [] then false
    else if a == [] then true
    else if a[0] != b[0] then a[0] < b[0]
    else Less(a[1..], b[1..])
  }

  lemma {:induction false} Trichotomy(a: seq<byte>, b: seq<byte>)
    ensures Less(a, b) || a == b || Less(b, a)
    ensures !(Less(a, b) && Less(b, a))
    ensures !Less(a, a)
  {
    if a != [] {
      Trichotomy(a[1..], if b != [] then b[1..] else []);
      if b != [] && a[0] == b[0] && a[1..] == b[1..] {
        assert a == [a[0]] + a[1..] && b == [b[0]] + b[1..];
      }
    }
  }

  /** One key comes before another exactly if they agree up to a place where it has the smaller byte. */
  lemma {:induction false} LessExactly(a: seq<byte>, b: seq<byte>)
    requires |a| == |b|
    ensures Less(a, b) <==> exists i :: 0 <= i < |a| && a[..i] == b[..i] && a[i] < b[i]
  {
    if a != [] {
      LessExactly(a[1..], b[1..]);
      if a[0] == b[0] {
        if j :| 0 <= j < |a[1..]| && a[1..][..j] == b[1..][..j] && a[1..][j] < b[1..][j] {
          assert a[..j + 1] == [a[0]] + a[1..][..j] && b[..j + 1] == [b[0]] + b[1..][..j];
          assert a[j + 1] < b[j + 1];
        }
        if i :| 0 <= i < |a| && a[..i] == b[..i] && a[i] < b[i] {
          assert a[1..][..i - 1] == a[..i][1..] && b[1..][..i - 1] == b[..i][1..];
          assert a[1..][i - 1] < b[1..][i - 1];
        }
      } else {
        assert a[..0] == b[..0];
        if i :| 0 <= i < |a| && a[..i] == b[..i] && a[i] < b[i] {
          assert i > 0 ==> a[..i][0] == b[..i][0];
        }
      }
    }
  }

  lemma {:induction false} Transitive(a: seq<byte>, b: seq<byte>, c: seq<byte>)
    requires Less(a, b) && Less(b, c)
    ensures Less(a, c)
  {
    if a != [] && a[0] == b[0] && b[0] == c[0] {
      Transitive(a[1..], b[1..], c[1..]);
    }
  }

  predicate Sorted(xs: seq<seq<byte>>) {
    forall i, j :: 0 <= i < j < |xs| ==> Less(xs[i], xs[j])
  }

  /** The list has exactly the members of the set. */
  ghost predicate Lists(xs: seq<seq<byte>>, s: set<seq<byte>>) {
    forall k :: k in xs <==> k in s
  }

  lemma TailMembers(xs: seq<seq<byte>>)
    requires Sorted(xs) && xs != []
    ensures forall k :: k in xs[1..] <==> k in xs && k != xs[0]
  {
    HeadNotInTail(xs);
    assert xs == [xs[0]] + xs[1..];
  }

  /** Two sorted lists of one set are the same list. */
  lemma {:induction false} SortedIsUnique(xs: seq<seq<byte>>, ys: seq<seq<byte>>)
    requires Sorted(xs) && Sorted(ys) && forall k :: k in xs <==> k in ys
    ensures xs == ys
  {
    assert ys != [] ==> ys[0] in xs;
    if xs != [] {
      assert xs[0] in ys && ys[0] in xs;
      HeadIsLeast(xs, ys[0]);
      HeadIsLeast(ys, xs[0]);
      Trichotomy(xs[0], ys[0]);
      TailMembers(xs);
      TailMembers(ys);
      SortedIsUnique(xs[1..], ys[1..]);
      assert xs == [xs[0]] + xs[1..] && ys == [ys[0]] + ys[1..];
    }
  }

  lemma HeadIsLeast(xs: seq<seq<byte>>, k: seq<byte>)
    requires Sorted(xs) && k in xs
    ensures xs[0] == k || Less(xs[0], k)
  {
    var i :| 0 <= i < |xs| && xs[i] == k;
    if i > 0 {
      assert Less(xs[0], xs[i]);
    }
  }

  lemma HeadNotInTail(xs: seq<seq<byte>>)
    requires Sorted(xs) && xs != []
    ensures xs[0] !in xs[1..]
  {
    if xs[0] in xs[1..] {
      var i :| 0 <= i < |xs| - 1 && xs[1..][i] == xs[0];
      assert Less(xs[0], xs[i + 1]);
      Trichotomy(xs[0], xs[0]);
    }
  }

  // ---------------------------------------------------------------------------------------
  // Sorting
  // ---------------------------------------------------------------------------------------

  function Insert(xs: seq<seq<byte>>, k: seq<byte>): seq<seq<byte>> {
    if xs == [] then [k]
    else if Less(k, xs[0]) then [k] + xs
    else [xs[0]] + Insert(xs[1..], k)
  }

  function Sort(xs: seq<seq<byte>>): seq<seq<byte>> {
    if xs == [] then [] else Insert(Sort(xs[..|xs| - 1]), xs[|xs| - 1])
  }

  lemma {:induction false} InsertMembers(xs: seq<seq<byte>>, k: seq<byte>)
    ensures forall m :: m in Insert(xs, k) <==> m == k || m in xs
    ensures |Insert(xs, k)| == |xs| + 1
  {
    if xs != [] {
      InsertMembers(xs[1..], k);
      assert xs == [xs[0]] + xs[1..];
    }
  }

  lemma ConsSorted(x: seq<byte>, xs: seq<seq<byte>>)
    requires Sorted(xs) && forall k :: k in xs ==> Less(x, k)
    ensures Sorted([x] + xs)
  {
    forall i, j | 0 <= i < j < |xs| + 1
      ensures Less(([x] + xs)[i], ([x] + xs)[j])
    {
      assert ([x] + xs)[j] == xs[j - 1];
      if i > 0 {
        assert ([x] + xs)[i] == xs[i - 1];
      }
    }
  }

  lemma {:induction false} InsertSorts(xs: seq<seq<byte>>, k: seq<byte>)
    requires Sorted(xs) && k !in xs
    ensures Sorted(Insert(xs, k))
  {
    if xs == [] {
    } else if Less(k, xs[0]) {
      forall m | m in xs ensures Less(k, m) {
        HeadIsLeast(xs, m);
        if m != xs[0] {
          Transitive(k, xs[0], m);
        }
      }
      ConsSorted(k, xs);
    } else {
      Trichotomy(k, xs[0]);
      InsertMembers(xs[1..], k);
      InsertSorts(xs[1..], k);
      forall m | m in Insert(xs[1..], k) ensures Less(xs[0], m) {
        if m != k {
          HeadIsLeast(xs, m);
          HeadNotInTail(xs);
        }
      }
      ConsSorted(xs[0], Insert(xs[1..], k));
    }
  }

  predicate Distinct(xs: seq<seq<byte>>) {
    forall i, j :: 0 <= i < j < |xs| ==> xs[i] != xs[j]
  }

  lemma {:induction false} SortSorts(xs: seq<seq<byte>>)
    requires Distinct(xs)
    ensures Sorted(Sort(xs)) && |Sort(xs)| == |xs|
    ensures forall k :: k in Sort(xs) <==> k in xs
  {
    if xs != [] {
      var n := |xs| - 1;
      SortSorts(xs[..n]);
      InsertMembers(Sort(xs[..n]), xs[n]);
      InsertSorts(Sort(xs[..n]), xs[n]);
      assert xs == xs[..n] + [xs[n]];
    }
  }

  lemma SortedIsDistinct(xs: seq<seq<byte>>)
    requires Sorted(xs)
    ensures Distinct(xs)
  {
    forall i, j | 0 <= i < j < |xs| ensures xs[i] != xs[j] {
      Trichotomy(xs[i], xs[j]);
    }
  }

  lemma DistinctConcat(xs: seq<seq<byte>>, ys: seq<seq<byte>>)
    requires Distinct(xs) && Distinct(ys) && forall k :: k in xs ==> k !in ys
    ensures Distinct(xs + ys)
  {
    forall i, j | 0 <= i < j < |xs + ys| ensures (xs + ys)[i] != (xs + ys)[j] {
      if i < |xs| <= j {
        assert xs[i] in xs && ys[j - |xs|] in ys;
      }
    }
  }

  /** The members of a set in increasing order. */
  ghost function SortedOf(s: set<seq<byte>>): (xs: seq<seq<byte>>)
    ensures Sorted(xs) && Lists(xs, s) && |xs| == |s|
  {
    ListingExists(s);
    var xs :| Sorted(xs) && Lists(xs, s) && |xs| == |s|;
    xs
  }

  lemma {:induction false} ListingExists(s: set<seq<byte>>)
    ensures exists xs: seq<seq<byte>> :: Sorted(xs) && Lists(xs, s) && |xs| == |s|
    decreases |s|
  {
    if s == {} {
      var none: seq<seq<byte>> := [];
      assert Sorted(none) && Lists(none, s) && |none| == |s|;
    } else {
      var k :| k in s;
      ListingExists(s - {k});
      var xs: seq<seq<byte>> :| Sorted(xs) && Lists(xs, s - {k}) && |xs| == |s - {k}|;
      InsertMembers(xs, k);
      InsertSorts(xs, k);
      assert Sorted(Insert(xs, k)) && Lists(Insert(xs, k), s) && |Insert(xs, k)| == |s|;
    }
  }

  /** Sorting any listing of a set gives the sorted listing of the set. */
  lemma SortLists(xs: seq<seq<byte>>, s: set<seq<byte>>)
    requires Distinct(xs) && Lists(xs, s)
    ensures Sort(xs) == SortedOf(s)
  {
    SortSorts(xs);
    SortedIsUnique(Sort(xs), SortedOf(s));
  }
}
