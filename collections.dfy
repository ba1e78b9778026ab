/** Sequence operations shared by the models: java.util.List.remove(Object),
    filtering, counting, and the ordering a repository's `ORDER BY ... DESC`
    query delivers. */
module Collections {

  /** No element occurs twice. */
  predicate NoDup<T(==)>(xs: seq<T>) {
    forall i, j :: 0 <= i < j < |xs| ==> xs[i] != xs[j]
  }

  /** List.remove(Object): drops the first element equal to `x`, if any. */
  function RemoveFirst<T(==)>(xs: seq<T>, x: T): (r: seq<T>)
    ensures x !in xs ==> r == xs
    ensures x in xs ==> |r| == |xs| - 1
  {
    if xs == [] then []
    else if xs[0] == x then xs[1..]
    else [xs[0]] + RemoveFirst(xs[1..], x)
  }

  /** List.remove(Object) takes away exactly one copy of `x`, if there is one. */
  lemma {:induction false} RemoveFirstMultiset<T>(xs: seq<T>, x: T)
    ensures multiset(RemoveFirst(xs, x)) == multiset(xs) - multiset{x}
  {
    if xs != [] {
      assert xs == [xs[0]] + xs[1..];
      RemoveFirstMultiset(xs[1..], x);
    }
  }

  /** The elements before the first `x` are kept, and so is everything after it. */
  lemma {:induction false} RemoveFirstSplits<T>(xs: seq<T>, x: T, k: nat)
    requires k < |xs| && xs[k] == x && x !in xs[..k]
    ensures RemoveFirst(xs, x) == xs[..k] + xs[k + 1..]
  {
    if k > 0 {
      assert xs[1..][..k - 1] == xs[1..k];
      RemoveFirstSplits(xs[1..], x, k - 1);
      assert xs[1..][k..] == xs[k + 1..];
    }
  }

  /** Appending an element that is not present and removing it again restores the list. */
  lemma {:induction false} RemoveFirstOfAppended<T>(xs: seq<T>, x: T)
    requires x !in xs
    ensures RemoveFirst(xs + [x], x) == xs
  {
    if xs != [] {
      assert (xs + [x])[1..] == xs[1..] + [x];
      RemoveFirstOfAppended(xs[1..], x);
      assert xs == [xs[0]] + xs[1..];
    }
  }

  /** In a list without duplicates, removing `x` removes every trace of it. */
  lemma {:induction false} RemoveFirstNoDup<T>(xs: seq<T>, x: T)
    requires NoDup(xs)
    ensures NoDup(RemoveFirst(xs, x))
    ensures forall y :: y in RemoveFirst(xs, x) <==> y in xs && y != x
  {
    if xs != [] {
      assert NoDup(xs[1..]);
      RemoveFirstNoDup(xs[1..], x);
      assert xs[0] !in xs[1..] by {
        forall j | 0 <= j < |xs[1..]| ensures xs[1..][j] != xs[0] { assert xs[1..][j] == xs[j + 1]; }
      }
      if xs[0] != x {
        var r := [xs[0]] + RemoveFirst(xs[1..], x);
        forall i, j | 0 <= i < j < |r| ensures r[i] != r[j] {
          if i > 0 { assert r[i] == RemoveFirst(xs[1..], x)[i - 1]; }
        }
      }
    }
  }

  /** One List.remove(Object) per element of `S`, applied in any order: the
      first occurrence of each member of `S` is dropped. */
  function RemoveEach<T(==)>(xs: seq<T>, S: set<T>): (r: seq<T>)
    decreases |xs|
  {
    if xs == [] then []
    else if xs[0] in S then RemoveEach(xs[1..], S - {xs[0]})
    else [xs[0]] + RemoveEach(xs[1..], S)
  }

  lemma {:induction false} RemoveEachNone<T>(xs: seq<T>)
    ensures RemoveEach(xs, {}) == xs
  {
    if xs != [] {
      RemoveEachNone(xs[1..]);
      assert xs == [xs[0]] + xs[1..];
    }
  }

  /** Removing one more element after RemoveEach is RemoveEach of the larger set. */
  lemma {:induction false} RemoveEachThenFirst<T>(xs: seq<T>, S: set<T>, x: T)
    requires x !in S
    ensures RemoveFirst(RemoveEach(xs, S), x) == RemoveEach(xs, S + {x})
    decreases |xs|
  {
    if xs != [] {
      var h := xs[0];
      if h in S {
        assert (S + {x}) - {h} == (S - {h}) + {x};
        RemoveEachThenFirst(xs[1..], S - {h}, x);
      } else if h == x {
        assert (S + {x}) - {h} == S;
      } else {
        RemoveEachThenFirst(xs[1..], S, x);
      }
    }
  }

  /** Removing a sequence of distinct elements one at a time, by List.remove(Object). */
  function RemoveAllInOrder<T(==)>(xs: seq<T>, us: seq<T>): seq<T>
    decreases |us|
  {
    if us == [] then xs else RemoveFirst(RemoveAllInOrder(xs, us[..|us| - 1]), us[|us| - 1])
  }

  /** The order in which distinct elements are removed does not matter. */
  lemma {:induction false} RemoveAllInOrderIsRemoveEach<T>(xs: seq<T>, us: seq<T>)
    requires NoDup(us)
    ensures RemoveAllInOrder(xs, us) == RemoveEach(xs, set u | u in us)
    decreases |us|
  {
    if us == [] {
      RemoveEachNone(xs);
      assert (set u | u in us) == {};
    } else {
      var init := us[..|us| - 1];
      var x := us[|us| - 1];
      var S := set u | u in init;
      assert us == init + [x];
      assert NoDup(init);
      RemoveAllInOrderIsRemoveEach(xs, init);
      assert x !in S by {
        forall j | 0 <= j < |init| ensures init[j] != x { assert init[j] == us[j]; }
      }
      assert (set u | u in us) == S + {x};
      calc {
        RemoveAllInOrder(xs, us);
        RemoveFirst(RemoveAllInOrder(xs, init), x);
        RemoveFirst(RemoveEach(xs, S), x);
        { RemoveEachThenFirst(xs, S, x); }
        RemoveEach(xs, S + {x});
      }
    }
  }

  /** Without duplicates, RemoveEach keeps exactly the elements outside `S`. */
  lemma {:induction false} RemoveEachNoDup<T>(xs: seq<T>, S: set<T>, y: T)
    requires NoDup(xs)
    ensures y in RemoveEach(xs, S) <==> y in xs && y !in S
    decreases |xs|
  {
    if xs != [] {
      assert NoDup(xs[1..]);
      assert xs[0] !in xs[1..] by {
        forall j | 0 <= j < |xs[1..]| ensures xs[1..][j] != xs[0] { assert xs[1..][j] == xs[j + 1]; }
      }
      assert xs == [xs[0]] + xs[1..];
      if xs[0] in S {
        RemoveEachNoDup(xs[1..], S - {xs[0]}, y);
      } else {
        RemoveEachNoDup(xs[1..], S, y);
      }
    }
  }

  /** RemoveEach only drops elements: the result is never longer. */
  lemma {:induction false} RemoveEachShorter<T>(xs: seq<T>, S: set<T>)
    ensures |RemoveEach(xs, S)| <= |xs|
    decreases |xs|
  {
    if xs != [] {
      if xs[0] in S {
        RemoveEachShorter(xs[1..], S - {xs[0]});
      } else {
        RemoveEachShorter(xs[1..], S);
      }
    }
  }

  /** RemoveEach of a list without duplicates has no duplicates. */
  lemma {:induction false} RemoveEachKeepsNoDup<T>(xs: seq<T>, S: set<T>)
    requires NoDup(xs)
    ensures NoDup(RemoveEach(xs, S))
    decreases |xs|
  {
    if xs != [] {
      assert NoDup(xs[1..]);
      if xs[0] in S {
        RemoveEachKeepsNoDup(xs[1..], S - {xs[0]});
      } else {
        RemoveEachKeepsNoDup(xs[1..], S);
        var rest := RemoveEach(xs[1..], S);
        assert xs[0] !in rest by {
          assert xs[0] !in xs[1..] by {
            forall j | 0 <= j < |xs[1..]| ensures xs[1..][j] != xs[0] { assert xs[1..][j] == xs[j + 1]; }
          }
          RemoveEachNoDup(xs[1..], S, xs[0]);
        }
        var r := [xs[0]] + rest;
        forall i, j | 0 <= i < j < |r| ensures r[i] != r[j] {
          if i == 0 { assert r[j] == rest[j - 1]; } else { assert r[i] == rest[i - 1] && r[j] == rest[j - 1]; }
        }
      }
    }
  }

  /** Map.remove of an absent key changes nothing. */
  lemma RemoveAbsentKey<K, V>(m: map<K, V>, k: K)
    requires k !in m
    ensures m - {k} == m
  {
  }

  /** Removing keys in two steps is removing them at once. */
  lemma RemoveKeysTwice<K, V>(m: map<K, V>, S: set<K>, T: set<K>)
    ensures (m - S) - T == m - (S + T)
  {
  }

  /** The elements that satisfy `p`, in their original order. */
  function Filter<T>(xs: seq<T>, p: T -> bool): (r: seq<T>)
    ensures |r| <= |xs|
    ensures forall i :: 0 <= i < |r| ==> p(r[i])
    ensures multiset(r) <= multiset(xs)
    ensures forall y :: y in xs && p(y) ==> y in r
  {
    if xs == [] then []
    else
      assert xs == [xs[0]] + xs[1..];
      if p(xs[0]) then [xs[0]] + Filter(xs[1..], p) else Filter(xs[1..], p)
  }

  /** A sequence whose every element satisfies `p` is its own filter. */
  lemma {:induction false} FilterKeepsAll<T>(xs: seq<T>, p: T -> bool)
    requires forall i :: 0 <= i < |xs| ==> p(xs[i])
    ensures Filter(xs, p) == xs
  {
    if xs != [] { FilterKeepsAll(xs[1..], p); }
  }

  /** Filtering distributes over concatenation: what is kept from the front
      comes before what is kept from the back, so the order is preserved. */
  lemma {:induction false} FilterAppend<T>(xs: seq<T>, ys: seq<T>, p: T -> bool)
    ensures Filter(xs + ys, p) == Filter(xs, p) + Filter(ys, p)
  {
    if xs == [] {
      assert xs + ys == ys;
    } else {
      assert (xs + ys)[1..] == xs[1..] + ys;
      FilterAppend(xs[1..], ys, p);
    }
  }

  /** Filtering keeps exactly the elements that satisfy `p`. */
  lemma FilterMembers<T>(xs: seq<T>, p: T -> bool, y: T)
    ensures y in Filter(xs, p) <==> y in xs && p(y)
  {
    if y in Filter(xs, p) {
      assert y in multiset(Filter(xs, p));
    }
  }

  /** The number of elements that satisfy `p`. */
  function Count<T>(xs: seq<T>, p: T -> bool): (n: nat)
    ensures n <= |xs|
    ensures n == 0 <==> forall i :: 0 <= i < |xs| ==> !p(xs[i])
    ensures n == |xs| <==> forall i :: 0 <= i < |xs| ==> p(xs[i])
  {
    if xs == [] then 0
    else
      assert forall i :: 1 <= i < |xs| ==> xs[i] == xs[1..][i - 1];
      (if p(xs[0]) then 1 else 0) + Count(xs[1..], p)
  }

  /** Counting is the length of the filtered list. */
  lemma {:induction false} CountIsFilterLength<T>(xs: seq<T>, p: T -> bool)
    ensures Count(xs, p) == |Filter(xs, p)|
  {
    if xs != [] { CountIsFilterLength(xs[1..], p); }
  }

  /** Keys descend (ties in any order). */
  predicate SortedDesc<T>(xs: seq<T>, key: T -> int) {
    forall i, j :: 0 <= i < j < |xs| ==> key(xs[i]) >= key(xs[j])
  }

  function InsertDesc<T>(x: T, xs: seq<T>, key: T -> int): (r: seq<T>)
    requires SortedDesc(xs, key)
    ensures SortedDesc(r, key)
    ensures |r| == |xs| + 1
    ensures xs != [] ==> forall i :: 0 <= i < |r| ==> r[i] == x || key(r[i]) <= key(xs[0])
  {
    if xs == [] || key(xs[0]) <= key(x) then
      ConsSorted(x, xs, key);
      [x] + xs
    else
      var rest := InsertDesc(x, xs[1..], key);
      assert xs == [xs[0]] + xs[1..];
      ConsSorted(xs[0], rest, key);
      [xs[0]] + rest
  }

  /** Insertion adds exactly `x`. */
  lemma {:induction false} InsertDescMultiset<T>(x: T, xs: seq<T>, key: T -> int)
    requires SortedDesc(xs, key)
    ensures multiset(InsertDesc(x, xs, key)) == multiset(xs) + multiset{x}
  {
    if xs != [] && key(xs[0]) > key(x) {
      assert xs == [xs[0]] + xs[1..];
      InsertDescMultiset(x, xs[1..], key);
    }
  }

  /** An element with the largest key in front of a sorted list keeps it sorted. */
  lemma ConsSorted<T>(h: T, rest: seq<T>, key: T -> int)
    requires SortedDesc(rest, key) && forall i :: 0 <= i < |rest| ==> key(rest[i]) <= key(h)
    ensures SortedDesc([h] + rest, key)
    ensures forall i :: 0 <= i < |[h] + rest| ==> ([h] + rest)[i] == h || key(([h] + rest)[i]) <= key(h)
  {
    var r := [h] + rest;
    assert forall i :: 1 <= i < |r| ==> r[i] == rest[i - 1];
  }

  /** The rows ordered by `key` descending: a permutation of `xs` that is sorted. */
  function SortDesc<T>(xs: seq<T>, key: T -> int): (r: seq<T>)
    ensures SortedDesc(r, key)
    ensures multiset(r) == multiset(xs)
    ensures |r| == |xs|
  {
    if xs == [] then []
    else
      assert xs == [xs[0]] + xs[1..];
      InsertDescMultiset(xs[0], SortDesc(xs[1..], key), key);
      InsertDesc(xs[0], SortDesc(xs[1..], key), key)
  }

  /** The elements whose key is `k`. */
  function KeyIs<T>(key: T -> int, k: int): T -> bool {
    (x: T) => key(x) == k
  }

  /** Insertion puts `x` in front of the elements with the same key. */
  lemma {:induction false} InsertDescFilter<T>(x: T, xs: seq<T>, key: T -> int, k: int)
    requires SortedDesc(xs, key)
    ensures Filter(InsertDesc(x, xs, key), KeyIs(key, k)) ==
      (if key(x) == k then [x] + Filter(xs, KeyIs(key, k)) else Filter(xs, KeyIs(key, k)))
  {
    if xs != [] && key(xs[0]) > key(x) {
      assert xs == [xs[0]] + xs[1..];
      InsertDescFilter(x, xs[1..], key, k);
      var rest := InsertDesc(x, xs[1..], key);
      assert InsertDesc(x, xs, key) == [xs[0]] + rest;
      assert ([xs[0]] + rest)[1..] == rest;
    } else {
      assert ([x] + xs)[1..] == xs;
    }
  }

  /** The sort is stable: elements with equal keys keep their input order. */
  lemma {:induction false} SortDescStable<T>(xs: seq<T>, key: T -> int, k: int)
    ensures Filter(SortDesc(xs, key), KeyIs(key, k)) == Filter(xs, KeyIs(key, k))
  {
    if xs != [] {
      SortDescStable(xs[1..], key, k);
      InsertDescFilter(xs[0], SortDesc(xs[1..], key), key, k);
    }
  }

  // ---------------------------------------------------------------------------
  // Keys that identify rows

  /** No two positions carry the same key. */
  predicate DistinctKeys<T, K(==)>(xs: seq<T>, key: T -> K) {
    forall i, j :: 0 <= i < j < |xs| ==> key(xs[i]) != key(xs[j])
  }

  lemma TwoPositions<T>(xs: seq<T>, i: int, j: int)
    requires 0 <= i < j < |xs|
    ensures multiset{xs[i], xs[j]} <= multiset(xs)
  {
    assert xs == xs[..i] + [xs[i]] + xs[i + 1..j] + [xs[j]] + xs[j + 1..];
  }

  lemma {:induction false} TwoOccurrences<T>(xs: seq<T>, a: T, b: T)
    requires multiset{a, b} <= multiset(xs)
    ensures exists i, j :: 0 <= i < |xs| && 0 <= j < |xs| && i != j && xs[i] == a && xs[j] == b
  {
    assert xs == [xs[0]] + xs[1..];
    if xs[0] == a {
      assert b in multiset(xs[1..]);
      var j :| 0 <= j < |xs[1..]| && xs[1..][j] == b;
      assert xs[j + 1] == b;
    } else if xs[0] == b {
      assert a in multiset(xs[1..]);
      var i :| 0 <= i < |xs[1..]| && xs[1..][i] == a;
      assert xs[i + 1] == a;
    } else {
      TwoOccurrences(xs[1..], a, b);
      var i, j :| 0 <= i < |xs[1..]| && 0 <= j < |xs[1..]| && i != j && xs[1..][i] == a && xs[1..][j] == b;
      assert xs[i + 1] == a && xs[j + 1] == b;
    }
  }

  /** A selection or reordering of rows with distinct keys still has distinct keys. */
  lemma DistinctKeysSub<T, K>(xs: seq<T>, ys: seq<T>, key: T -> K)
    requires DistinctKeys(xs, key)
    requires multiset(ys) <= multiset(xs)
    ensures DistinctKeys(ys, key)
  {
    forall i, j | 0 <= i < j < |ys|
      ensures key(ys[i]) != key(ys[j])
    {
      TwoPositions(ys, i, j);
      TwoOccurrences(xs, ys[i], ys[j]);
      var i', j' :| 0 <= i' < |xs| && 0 <= j' < |xs| && i' != j' && xs[i'] == ys[i] && xs[j'] == ys[j];
      if i' < j' {
        assert key(xs[i']) != key(xs[j']);
      } else {
        assert key(xs[j']) != key(xs[i']);
      }
    }
  }

  /** Appending a row whose key is new keeps the keys distinct. */
  lemma DistinctKeysAppend<T, K>(xs: seq<T>, x: T, key: T -> K)
    requires DistinctKeys(xs, key)
    requires forall i :: 0 <= i < |xs| ==> key(xs[i]) != key(x)
    ensures DistinctKeys(xs + [x], key)
  {
  }
}
