/** Sorted buckets that keep at most the least 32 of the values added to them.

    A bucket is specified by the set of values that belong in it: `Top(less, s)` lists the
    least 32 of s in order. */
module CappedBuckets {
  import opened Wrappers

  const FANOUT: nat := 32

  ghost predicate StrictOrder<T(!new)>(less: (T, T) -> bool) {
    && (forall x :: !less(x, x))
    && (forall x, y, z :: less(x, y) && less(y, z) ==> less(x, z))
    && (forall x, y :: x != y ==> less(x, y) || less(y, x))
  }

  predicate Ordered<T>(less: (T, T) -> bool, s: seq<T>) {
    forall i, j :: 0 <= i < j < |s| ==> less(s[i], s[j])
  }

  // ----- The operations on one bucket -----

  function Insert<T>(less: (T, T) -> bool, s: seq<T>, x: T): seq<T> {
    if s == [] || less(s[|s| - 1], x) then s + [x] else Insert(less, s[..|s| - 1], x) + [s[|s| - 1]]
  }

  /** What sorting does to a list without repetitions. */
  function Sort<T>(less: (T, T) -> bool, s: seq<T>): seq<T> {
    if s == [] then [] else Insert(less, Sort(less, s[..|s| - 1]), s[|s| - 1])
  }

  function Cap<T>(s: seq<T>): seq<T> {
    if |s| <= FANOUT then s else s[..FANOUT]
  }

  /** Adds a value: push, sort, truncate, unless the bucket has it already. */
  function Add<T(==)>(less: (T, T) -> bool, s: seq<T>, x: T): seq<T> {
    if x in s then s else Cap(Sort(less, s + [x]))
  }

  function Without<T(==)>(s: seq<T>, gone: set<T>): seq<T> {
    if s == [] then []
    else
      var front, last := Without(s[..|s| - 1], gone), s[|s| - 1];
      if last in gone then front else front + [last]
  }

  // ----- The listing of a set -----

  ghost function Listing<T(!new)>(less: (T, T) -> bool, s: set<T>): seq<T> {
    if s == {} then []
    else
      var x :| x in s;
      Insert(less, Listing(less, s - {x}), x)
  }

  ghost function Top<T(!new)>(less: (T, T) -> bool, s: set<T>): seq<T> {
    Cap(Listing(less, s))
  }

  lemma {:induction false} InsertOrdered<T(!new)>(less: (T, T) -> bool, s: seq<T>, x: T)
    requires StrictOrder(less) && Ordered(less, s) && x !in s
    ensures Ordered(less, Insert(less, s, x))
    ensures |Insert(less, s, x)| == |s| + 1
    ensures forall y :: y in Insert(less, s, x) <==> y in s || y == x
  {
    if s == [] || less(s[|s| - 1], x) {
    } else {
      var n := |s| - 1;
      var front, last := s[..n], s[n];
      assert forall y :: y in s <==> y in front || y == last;
      InsertOrdered(less, front, x);
      var r := Insert(less, front, x);
      forall i | 0 <= i < |r| ensures less(r[i], last) {
        assert r[i] in r;
      }
    }
  }

  lemma {:induction false} ListingIsOrdered<T(!new)>(less: (T, T) -> bool, s: set<T>)
    requires StrictOrder(less)
    ensures Ordered(less, Listing(less, s)) && |Listing(less, s)| == |s|
    ensures forall y :: y in Listing(less, s) <==> y in s
    decreases |s|
  {
    if s != {} {
      var x :| x in s && Listing(less, s) == Insert(less, Listing(less, s - {x}), x);
      ListingIsOrdered(less, s - {x});
      InsertOrdered(less, Listing(less, s - {x}), x);
    }
  }

  /** An ordered sequence is determined by its elements. */
  lemma {:induction false} OrderedIsUnique<T(!new)>(less: (T, T) -> bool, u: seq<T>, v: seq<T>)
    requires StrictOrder(less) && Ordered(less, u) && Ordered(less, v)
    requires forall y :: y in u <==> y in v
    ensures u == v
    decreases |u|
  {
    assert v != [] ==> v[0] in u;
    if u != [] {
      var m := |u| - 1;
      assert u[m] in v;
      var n := |v| - 1;
      assert v[n] in u;
      assert u[m] == v[n];
      FrontElements(less, u);
      FrontElements(less, v);
      forall y ensures y in u[..m] <==> y in v[..n] {
        assert y in u <==> y in v;
      }
      OrderedIsUnique(less, u[..m], v[..n]);
      assert u == u[..m] + [u[m]] && v == v[..n] + [v[n]];
    }
  }

  lemma FrontElements<T(!new)>(less: (T, T) -> bool, u: seq<T>)
    requires StrictOrder(less) && Ordered(less, u) && u != []
    ensures forall y :: y in u[..|u| - 1] <==> y in u && y != u[|u| - 1]
  {
  }

  /** Any ordered sequence of the elements of s is its listing. */
  lemma ListingIs<T(!new)>(less: (T, T) -> bool, u: seq<T>, s: set<T>)
    requires StrictOrder(less) && Ordered(less, u) && forall y :: y in u <==> y in s
    ensures u == Listing(less, s) && |u| == |s|
  {
    ListingIsOrdered(less, s);
    OrderedIsUnique(less, u, Listing(less, s));
  }

  lemma {:induction false} SortOfOrdered<T(!new)>(less: (T, T) -> bool, s: seq<T>)
    requires StrictOrder(less) && Ordered(less, s)
    ensures Sort(less, s) == s
  {
    if s != [] {
      var n := |s| - 1;
      SortOfOrdered(less, s[..n]);
      assert s == s[..n] + [s[n]];
    }
  }

  lemma AddToOrdered<T(!new)>(less: (T, T) -> bool, s: seq<T>, x: T)
    requires StrictOrder(less) && Ordered(less, s)
    ensures Add(less, s, x) == if x in s then s else Cap(Insert(less, s, x))
  {
    assert (s + [x])[..|s|] == s;
    SortOfOrdered(less, s);
  }

  /** Capping before or after an insertion gives the same bucket. */
  lemma {:induction false} CapInsert<T(!new)>(less: (T, T) -> bool, s: seq<T>, x: T)
    requires StrictOrder(less) && Ordered(less, s) && x !in s
    ensures Cap(Insert(less, Cap(s), x)) == Cap(Insert(less, s, x))
    decreases |s|
  {
    if |s| > FANOUT {
      var n := |s| - 1;
      var front := s[..n];
      InsertOrdered(less, front, x);
      if less(s[n], x) {
        assert Cap(Insert(less, s, x)) == Cap(s);
        assert less(s[FANOUT - 1], s[n]);
        assert Insert(less, Cap(s), x) == Cap(s) + [x];
      } else {
        CapInsert(less, front, x);
        assert Cap(front) == Cap(s);
        assert Cap(Insert(less, front, x) + [s[n]]) == Cap(Insert(less, front, x));
      }
    }
  }

  /** Adding to the least 32 of a set gives the least 32 of the larger set, also when the
      bucket overflows and also when the value had been dropped before. */
  lemma AddTop<T(!new)>(less: (T, T) -> bool, s: set<T>, x: T)
    requires StrictOrder(less)
    ensures Add(less, Top(less, s), x) == Top(less, s + {x})
  {
    var all := Listing(less, s);
    ListingIsOrdered(less, s);
    AddToOrdered(less, Top(less, s), x);
    if x !in s {
      InsertOrdered(less, all, x);
      ListingIs(less, Insert(less, all, x), s + {x});
      CapInsert(less, all, x);
    } else {
      assert s + {x} == s;
      if x !in Top(less, s) {
        var k :| 0 <= k < |all| && all[k] == x;
        assert less(all[FANOUT - 1], all[k]);
        assert Insert(less, Top(less, s), x) == Top(less, s) + [x];
      }
    }
  }

  lemma {:induction false} WithoutElements<T(!new)>(s: seq<T>, gone: set<T>)
    ensures forall y :: y in Without(s, gone) <==> y in s && y !in gone
    ensures |Without(s, gone)| <= |s|
  {
    if s != [] {
      var n := |s| - 1;
      assert s == s[..n] + [s[n]];
      WithoutElements(s[..n], gone);
    }
  }

  lemma {:induction false} WithoutOrdered<T(!new)>(less: (T, T) -> bool, s: seq<T>, gone: set<T>)
    requires Ordered(less, s)
    ensures Ordered(less, Without(s, gone))
  {
    if s != [] {
      var n := |s| - 1;
      var front := s[..n];
      WithoutOrdered(less, front, gone);
      WithoutElements(front, gone);
      var r := Without(front, gone);
      forall i | 0 <= i < |r| ensures less(r[i], s[n]) {
        assert r[i] in front;
      }
    }
  }

  lemma {:induction false} WithoutNothing<T(!new)>(s: seq<T>, gone: set<T>)
    requires forall y :: y in s ==> y !in gone
    ensures Without(s, gone) == s
  {
    if s != [] {
      var n := |s| - 1;
      WithoutNothing(s[..n], gone);
      assert s == s[..n] + [s[n]];
    }
  }

  /** Removing from an unfilled bucket leaves the listing of what remains. */
  lemma WithoutListing<T(!new)>(less: (T, T) -> bool, s: set<T>, gone: set<T>)
    requires StrictOrder(less)
    ensures Without(Listing(less, s), gone) == Listing(less, s - gone)
  {
    ListingIsOrdered(less, s);
    WithoutElements(Listing(less, s), gone);
    WithoutOrdered(less, Listing(less, s), gone);
    ListingIs(less, Without(Listing(less, s), gone), s - gone);
  }

  /** After an overflow a removal is exact only in two cases: no kept value is removed, or
      every dropped value is removed as well.  Otherwise a dropped value is missing. */
  lemma WithoutTopIff<T(!new)>(less: (T, T) -> bool, s: set<T>, gone: set<T>)
    requires StrictOrder(less)
    ensures Without(Top(less, s), gone) == Top(less, s - gone)
      <==> (forall y :: y in Top(less, s) ==> y !in gone) || (forall y :: y in s && y !in Top(less, s) ==> y in gone)
  {
    if forall y :: y in s && y !in Top(less, s) ==> y in gone {
      AllDroppedRemoved(less, s, gone);
    } else if forall y :: y in Top(less, s) ==> y !in gone {
      NoKeptRemoved(less, s, gone);
    } else {
      DroppedValueIsMissing(less, s, gone);
    }
  }

  lemma NoKeptRemoved<T(!new)>(less: (T, T) -> bool, s: set<T>, gone: set<T>)
    requires StrictOrder(less) && forall y :: y in Top(less, s) ==> y !in gone
    ensures Without(Top(less, s), gone) == Top(less, s - gone)
  {
    var all := Listing(less, s);
    WithoutNothing(Top(less, s), gone);
    WithoutListing(less, s, gone);
    WithoutElements(all, gone);
    WithoutKeepsPrefix(all, |Top(less, s)|, gone);
    if |all| <= FANOUT {
      assert all[..|all|] == all;
    }
  }

  lemma TopElements<T(!new)>(less: (T, T) -> bool, s: set<T>)
    requires StrictOrder(less)
    ensures Ordered(less, Top(less, s)) && Elements(Top(less, s)) <= s
    ensures |Top(less, s)| == if |s| <= FANOUT then |s| else FANOUT
    ensures |Elements(Top(less, s))| == |Top(less, s)|
  {
    ListingIsOrdered(less, s);
    OrderedHasSize(less, Top(less, s));
  }

  lemma AllDroppedRemoved<T(!new)>(less: (T, T) -> bool, s: set<T>, gone: set<T>)
    requires StrictOrder(less) && forall y :: y in s && y !in Top(less, s) ==> y in gone
    ensures Without(Top(less, s), gone) == Top(less, s - gone)
  {
    TopElements(less, s);
    WithoutElements(Top(less, s), gone);
    WithoutOrdered(less, Top(less, s), gone);
    forall y ensures y in Without(Top(less, s), gone) <==> y in s - gone {
      assert y in Top(less, s) <==> y in Elements(Top(less, s));
    }
    ListingIs(less, Without(Top(less, s), gone), s - gone);
  }

  lemma DroppedValueIsMissing<T(!new)>(less: (T, T) -> bool, s: set<T>, gone: set<T>)
    requires StrictOrder(less)
    requires exists d :: d in s && d !in Top(less, s) && d !in gone
    requires exists g :: g in Top(less, s) && g in gone
    ensures Without(Top(less, s), gone) != Top(less, s - gone)
  {
    var top := Top(less, s);
    var rest := Without(top, gone);
    var d :| d in s && d !in top && d !in gone;
    var g :| g in top && g in gone;
    TopElements(less, s);
    TopElements(less, s - gone);
    WithoutElements(top, gone);
    WithoutOrdered(less, top, gone);
    ShorterWithout(top, gone, g);
    OrderedHasSize(less, rest);
    assert Elements(rest) <= Elements(top);
    assert Elements(rest) + {d} <= s - gone;
    SubsetSize(Elements(rest) + {d}, s - gone);
  }

  lemma {:induction false} WithoutKeepsPrefix<T(!new)>(s: seq<T>, k: nat, gone: set<T>)
    requires k <= |s| && forall y :: y in s[..k] ==> y !in gone
    ensures |Without(s, gone)| >= k && Without(s, gone)[..k] == s[..k]
  {
    if k == |s| {
      assert s[..k] == s;
      WithoutNothing(s, gone);
    } else {
      assert s[..|s| - 1][..k] == s[..k];
      WithoutKeepsPrefix(s[..|s| - 1], k, gone);
    }
  }

  lemma {:induction false} ShorterWithout<T(!new)>(s: seq<T>, gone: set<T>, g: T)
    requires g in s && g in gone
    ensures |Without(s, gone)| < |s|
  {
    var n := |s| - 1;
    WithoutElements(s[..n], gone);
    assert s == s[..n] + [s[n]];
    if s[n] !in gone {
      ShorterWithout(s[..n], gone, g);
    }
  }

  lemma {:induction false} OrderedHasSize<T(!new)>(less: (T, T) -> bool, s: seq<T>)
    requires StrictOrder(less) && Ordered(less, s)
    ensures |Elements(s)| == |s|
  {
    ListingIs(less, s, Elements(s));
  }

  lemma LeastIsOnTop<T(!new)>(less: (T, T) -> bool, s: set<T>, x: T)
    requires StrictOrder(less) && x in s && forall y :: y in s && y != x ==> less(x, y)
    ensures x in Top(less, s)
  {
    var all := Listing(less, s);
    ListingIsOrdered(less, s);
    assert all[0] in all;
    assert all[0] == x by {
      var k :| 0 <= k < |all| && all[k] == x;
    }
  }

  lemma SomethingIsDropped<T(!new)>(less: (T, T) -> bool, s: set<T>)
    requires StrictOrder(less) && |s| > FANOUT
    ensures exists y :: y in s && y !in Top(less, s)
  {
    TopElements(less, s);
    var kept := Elements(Top(less, s));
    if forall y :: y in s ==> y in Top(less, s) {
      assert s <= kept;
      SubsetSize(s, kept);
    }
  }

  // ----- Maps of buckets -----

  function Bucket<K(==), T>(m: map<K, seq<T>>, k: K): seq<T> {
    if k in m then m[k] else []
  }

  function AddTo<K(==), T(==)>(less: (T, T) -> bool, m: map<K, seq<T>>, k: K, x: T): map<K, seq<T>> {
    m[k := Add(less, Bucket(m, k), x)]
  }

  /** Removes a value; a bucket that becomes empty disappears. */
  function RemoveFrom<K(==), T(==)>(m: map<K, seq<T>>, k: K, x: T): map<K, seq<T>> {
    if k !in m then m
    else
      var rest := Without(m[k], {x});
      if rest == [] then m - {k} else m[k := rest]
  }

  function AddAll<K(==), T(==)>(less: (T, T) -> bool, m: map<K, seq<T>>, es: seq<(K, T)>): map<K, seq<T>> {
    if es == [] then m
    else AddTo(less, AddAll(less, m, es[..|es| - 1]), es[|es| - 1].0, es[|es| - 1].1)
  }

  function RemoveAll<K(==), T(==)>(m: map<K, seq<T>>, es: seq<(K, T)>): map<K, seq<T>> {
    if es == [] then m
    else RemoveFrom(RemoveAll(m, es[..|es| - 1]), es[|es| - 1].0, es[|es| - 1].1)
  }

  /** The entries that were in their bucket right after they were added. */
  function Recorded<K(==), T(==)>(less: (T, T) -> bool, m: map<K, seq<T>>, es: seq<(K, T)>): seq<(K, T)> {
    if es == [] then []
    else
      var front, (k, x) := Recorded(less, m, es[..|es| - 1]), es[|es| - 1];
      if x in Bucket(AddAll(less, m, es), k) then front + [(k, x)] else front
  }

  ghost function Values<K, T(!new)>(es: seq<(K, T)>, k: K): set<T> {
    set i | 0 <= i < |es| && es[i].0 == k :: es[i].1
  }

  predicate NoEmptyBucket<K(!new), T(==)>(m: map<K, seq<T>>) {
    forall k :: k in m ==> m[k] != []
  }

  lemma ValuesStep<K, T(!new)>(es: seq<(K, T)>, k: K)
    requires es != []
    ensures var n := |es| - 1;
      Values(es, k) == Values(es[..n], k) + (if es[n].0 == k then {es[n].1} else {})
  {
    var n := |es| - 1;
    forall y ensures y in Values(es, k) <==> y in Values(es[..n], k) || (es[n].0 == k && es[n].1 == y) {
      if y in Values(es, k) {
        var i :| 0 <= i < |es| && es[i].0 == k && es[i].1 == y;
        assert i < n ==> es[..n][i] == es[i];
      }
      if y in Values(es[..n], k) {
        var i :| 0 <= i < n && es[..n][i].0 == k && es[..n][i].1 == y;
        assert es[i].0 == k;
      }
    }
  }

  lemma {:induction false} AddAllTop<K(!new), T(!new)>(
    less: (T, T) -> bool, m: map<K, seq<T>>, es: seq<(K, T)>, k: K, s: set<T>)
    requires StrictOrder(less) && Bucket(m, k) == Top(less, s)
    ensures Bucket(AddAll(less, m, es), k) == Top(less, s + Values(es, k))
  {
    if es == [] {
      assert s + Values(es, k) == s;
    } else {
      var n := |es| - 1;
      AddAllTop(less, m, es[..n], k, s);
      ValuesStep(es, k);
      if es[n].0 == k {
        AddTop(less, s + Values(es[..n], k), es[n].1);
        assert s + Values(es, k) == s + Values(es[..n], k) + {es[n].1};
      } else {
        assert s + Values(es, k) == s + Values(es[..n], k);
      }
    }
  }

  lemma {:induction false} WithoutTwice<T(!new)>(s: seq<T>, a: set<T>, b: set<T>)
    ensures Without(Without(s, a), b) == Without(s, a + b)
  {
    if s != [] {
      var n := |s| - 1;
      WithoutTwice(s[..n], a, b);
      var front := Without(s[..n], a);
      if s[n] !in a {
        assert (front + [s[n]])[..|front|] == front;
      }
    }
  }

  lemma {:induction false} RemoveAllWithout<K(!new), T(!new)>(m: map<K, seq<T>>, es: seq<(K, T)>, k: K)
    ensures Bucket(RemoveAll(m, es), k) == Without(Bucket(m, k), Values(es, k))
  {
    if es == [] {
      WithoutNothing(Bucket(m, k), {});
      assert Values(es, k) == {};
    } else {
      var n := |es| - 1;
      RemoveAllWithout(m, es[..n], k);
      ValuesStep(es, k);
      WithoutTwice(Bucket(m, k), Values(es[..n], k), {es[n].1});
      if es[n].0 != k {
        assert Values(es, k) == Values(es[..n], k);
      }
    }
  }

  lemma {:induction false} BucketsStayNonEmpty<K(!new), T(!new)>(
    less: (T, T) -> bool, m: map<K, seq<T>>, es: seq<(K, T)>)
    requires NoEmptyBucket(m)
    ensures NoEmptyBucket(AddAll(less, m, es)) && NoEmptyBucket(RemoveAll(m, es))
  {
    if es != [] {
      var n := |es| - 1;
      BucketsStayNonEmpty(less, m, es[..n]);
      AddIsNonEmpty(less, Bucket(AddAll(less, m, es[..n]), es[n].0), es[n].1);
    }
  }

  lemma AddIsNonEmpty<T(!new)>(less: (T, T) -> bool, s: seq<T>, x: T)
    ensures Add(less, s, x) != []
  {
    SortKeepsLength(less, s + [x]);
  }

  lemma {:induction false} InsertKeepsLength<T>(less: (T, T) -> bool, s: seq<T>, x: T)
    ensures |Insert(less, s, x)| == |s| + 1
  {
    if s != [] && !less(s[|s| - 1], x) {
      InsertKeepsLength(less, s[..|s| - 1], x);
    }
  }

  lemma {:induction false} SortKeepsLength<T>(less: (T, T) -> bool, s: seq<T>)
    ensures |Sort(less, s)| == |s|
  {
    if s != [] {
      SortKeepsLength(less, s[..|s| - 1]);
      InsertKeepsLength(less, Sort(less, s[..|s| - 1]), s[|s| - 1]);
    }
  }

  lemma SameBuckets<K(!new), T(!new)>(a: map<K, seq<T>>, b: map<K, seq<T>>)
    requires NoEmptyBucket(a) && NoEmptyBucket(b) && forall k :: Bucket(a, k) == Bucket(b, k)
    ensures a == b
  {
    forall k ensures k in a <==> k in b {
      assert Bucket(a, k) == Bucket(b, k);
    }
    forall k | k in a ensures a[k] == b[k] {
      assert Bucket(a, k) == Bucket(b, k);
    }
  }

  /** While a bucket does not overflow, it has every value added to it. */
  lemma LastIsRecorded<K(!new), T(!new)>(
    less: (T, T) -> bool, m: map<K, seq<T>>, es: seq<(K, T)>, k: K, ideal: set<T>)
    requires StrictOrder(less) && es != [] && es[|es| - 1].0 == k
    requires Bucket(m, k) == Listing(less, ideal) && |ideal + Values(es, k)| <= FANOUT
    ensures es[|es| - 1].1 in Bucket(AddAll(less, m, es), k)
  {
    var all := ideal + Values(es, k);
    SubsetSize(ideal, all);
    ListingIsOrdered(less, ideal);
    AddAllTop(less, m, es, k, ideal);
    ListingIsOrdered(less, all);
    assert es[|es| - 1].1 in Values(es, k);
  }

  lemma FrontFits<K(!new), T(!new)>(es: seq<(K, T)>, k: K, ideal: set<T>)
    requires es != [] && |ideal + Values(es, k)| <= FANOUT
    ensures |ideal + Values(es[..|es| - 1], k)| <= FANOUT
  {
    ValuesStep(es, k);
    SubsetSize(ideal + Values(es[..|es| - 1], k), ideal + Values(es, k));
  }

  /** While nothing overflows, every entry that is added is recorded. */
  lemma {:induction false} AllRecorded<K(!new), T(!new)>(
    less: (T, T) -> bool, m: map<K, seq<T>>, es: seq<(K, T)>, ideal: K -> set<T>)
    requires StrictOrder(less)
    requires forall k :: Bucket(m, k) == Listing(less, ideal(k)) && |ideal(k) + Values(es, k)| <= FANOUT
    ensures Recorded(less, m, es) == es
  {
    hide Values;
    hide Bucket;
    hide Listing;
    hide StrictOrder;
    hide AddAll;
    if es != [] {
      var n := |es| - 1;
      forall j ensures |ideal(j) + Values(es[..n], j)| <= FANOUT {
        FrontFits(es, j, ideal(j));
      }
      AllRecorded(less, m, es[..n], ideal);
      LastIsRecorded(less, m, es, es[n].0, ideal(es[n].0));
      assert es == es[..n] + [es[n]];
    }
  }

  /** Every value of a bucket was there before or is among the recorded entries. */
  lemma {:induction false} BucketFromRecorded<K(!new), T(!new)>(
    less: (T, T) -> bool, m: map<K, seq<T>>, es: seq<(K, T)>, k: K, y: T)
    requires StrictOrder(less) && forall j :: Ordered(less, Bucket(m, j)) && |Bucket(m, j)| <= FANOUT
    requires y in Bucket(AddAll(less, m, es), k)
    ensures y in Bucket(m, k) || (k, y) in Recorded(less, m, es)
  {
    if es != [] {
      var n := |es| - 1;
      AddAllStaysOrdered(less, m, es[..n], es[n].0);
      AddElements(less, Bucket(AddAll(less, m, es[..n]), es[n].0), es[n].1);
      if y in Bucket(AddAll(less, m, es[..n]), k) {
        BucketFromRecorded(less, m, es[..n], k, y);
      }
    }
  }

  lemma AddElements<T(!new)>(less: (T, T) -> bool, s: seq<T>, x: T)
    requires StrictOrder(less) && Ordered(less, s) && |s| <= FANOUT
    ensures Ordered(less, Add(less, s, x)) && |Add(less, s, x)| <= FANOUT
    ensures forall y :: y in Add(less, s, x) ==> y in s || y == x
  {
    AddToOrdered(less, s, x);
    if x !in s {
      InsertOrdered(less, s, x);
    }
  }

  lemma {:induction false} AddAllStaysOrdered<K(!new), T(!new)>(
    less: (T, T) -> bool, m: map<K, seq<T>>, es: seq<(K, T)>, k: K)
    requires StrictOrder(less) && forall j :: Ordered(less, Bucket(m, j)) && |Bucket(m, j)| <= FANOUT
    ensures Ordered(less, Bucket(AddAll(less, m, es), k)) && |Bucket(AddAll(less, m, es), k)| <= FANOUT
  {
    if es != [] {
      AddAllStaysOrdered(less, m, es[..|es| - 1], k);
      AddElements(less, Bucket(AddAll(less, m, es[..|es| - 1]), k), es[|es| - 1].1);
    }
  }
}
