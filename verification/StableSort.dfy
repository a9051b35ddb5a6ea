/** Python's `sorted(..., reverse=True)`: descending by key, equal keys in their original order. */
module StableSort {

  function Insert<T>(sorted: seq<T>, x: T, key: T -> int): seq<T>
  {
    if |sorted| == 0 then [x]
    else
      var n := |sorted| - 1;
      if key(sorted[n]) >= key(x) then sorted + [x]
      else Insert(sorted[..n], x, key) + [sorted[n]]
  }

  function SortDescending<T>(s: seq<T>, key: T -> int): seq<T>
  {
    if |s| == 0 then []
    else Insert(SortDescending(s[..|s| - 1], key), s[|s| - 1], key)
  }

  ghost predicate Descending<T>(s: seq<T>, key: T -> int)
  {
    forall i, j :: 0 <= i < j < |s| ==> key(s[i]) >= key(s[j])
  }

  /** The elements of one key, in order */
  function WithKey<T>(s: seq<T>, key: T -> int, k: int): seq<T>
  {
    if |s| == 0 then []
    else
      var n := |s| - 1;
      WithKey(s[..n], key, k) + if key(s[n]) == k then [s[n]] else []
  }

  lemma WithKeySnoc<T>(s: seq<T>, x: T, key: T -> int, k: int)
    ensures WithKey(s + [x], key, k) == WithKey(s, key, k) + if key(x) == k then [x] else []
  {
    assert (s + [x])[..|s|] == s;
  }

  lemma {:induction false} InsertPermutes<T>(sorted: seq<T>, x: T, key: T -> int)
    ensures multiset(Insert(sorted, x, key)) == multiset(sorted) + multiset{x}
  {
    if |sorted| != 0 {
      var n := |sorted| - 1;
      assert sorted == sorted[..n] + [sorted[n]];
      InsertPermutes(sorted[..n], x, key);
    }
  }

  lemma {:induction false} InsertKeepsOrder<T>(sorted: seq<T>, x: T, key: T -> int)
    requires Descending(sorted, key)
    ensures Descending(Insert(sorted, x, key), key)
  {
    if |sorted| != 0 && key(sorted[|sorted| - 1]) < key(x) {
      var n := |sorted| - 1;
      var r := Insert(sorted[..n], x, key);
      InsertKeepsOrder(sorted[..n], x, key);
      InsertPermutes(sorted[..n], x, key);
      forall y | y in r
        ensures key(y) >= key(sorted[n])
      {
        assert y in multiset(r);
      }
    }
  }

  lemma {:induction false} InsertIsStable<T>(sorted: seq<T>, x: T, key: T -> int, k: int)
    ensures WithKey(Insert(sorted, x, key), key, k) == WithKey(sorted, key, k) + if key(x) == k then [x] else []
  {
    if |sorted| == 0 || key(sorted[|sorted| - 1]) >= key(x) {
      WithKeySnoc(sorted, x, key, k);
    } else {
      var n := |sorted| - 1;
      InsertIsStable(sorted[..n], x, key, k);
      WithKeySnoc(Insert(sorted[..n], x, key), sorted[n], key, k);
    }
  }

  /** Sorting permutes, orders, and keeps the order of elements with the same key. */
  lemma {:induction false} SortSpec<T>(s: seq<T>, key: T -> int, k: int)
    ensures var r := SortDescending(s, key);
            Descending(r, key) && multiset(r) == multiset(s) && WithKey(r, key, k) == WithKey(s, key, k)
  {
    hide Insert;
    if |s| != 0 {
      var n := |s| - 1;
      assert s == s[..n] + [s[n]];
      SortSpec(s[..n], key, k);
      var before := SortDescending(s[..n], key);
      InsertPermutes(before, s[n], key);
      InsertKeepsOrder(before, s[n], key);
      InsertIsStable(before, s[n], key, k);
    }
  }

  lemma SortElements<T>(s: seq<T>, key: T -> int)
    ensures |SortDescending(s, key)| == |s|
    ensures forall x :: x in SortDescending(s, key) <==> x in s
  {
    var r := SortDescending(s, key);
    SortSpec(s, key, 0);
    assert |multiset(r)| == |multiset(s)|;
    forall x
      ensures x in r <==> x in s
    {
      assert x in r <==> x in multiset(r);
    }
  }
}
