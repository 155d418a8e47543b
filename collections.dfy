/**
 * Listing the values of a dictionary in key order, and Python's stable
 * `list.sort(key=...)`, which the listing operations use.
 */
module Collections {

  /** The values of `m` under the keys `1..n`, in ascending key order. A dict
      whose keys are ids handed out by a counter (and never re-inserted)
      iterates in exactly this order. */
  function ValuesUpTo<V>(m: map<nat, V>, n: nat): seq<V> {
    if n == 0 then [] else ValuesUpTo(m, n - 1) + (if n in m then [m[n]] else [])
  }

  /** `ValuesUpTo(m, n)` lists the values under the keys `1..n`, and only those. */
  lemma {:induction false} ValuesUpToSpec<V>(m: map<nat, V>, n: nat)
    ensures forall v :: v in ValuesUpTo(m, n) ==> exists k :: 1 <= k <= n && k in m && m[k] == v
    ensures forall k :: 1 <= k <= n && k in m ==> m[k] in ValuesUpTo(m, n)
  {
    if n > 0 {
      ValuesUpToSpec(m, n - 1);
    }
  }

  /** When every key lies in `1..n`, `ValuesUpTo(m, n)` lists exactly the values of `m`. */
  lemma ValuesUpToAll<V>(m: map<nat, V>, n: nat)
    requires forall k :: k in m ==> 1 <= k <= n
    ensures forall v :: v in ValuesUpTo(m, n) <==> v in m.Values
  {
    ValuesUpToSpec(m, n);
  }

  /** When `m` holds no value under two keys, `ValuesUpTo(m, n)` lists no value twice. */
  lemma {:induction false} ValuesUpToDistinct<V>(m: map<nat, V>, n: nat)
    requires forall k1, k2 :: k1 in m && k2 in m && m[k1] == m[k2] ==> k1 == k2
    ensures Distinct(ValuesUpTo(m, n))
  {
    if n > 0 {
      ValuesUpToDistinct(m, n - 1);
      ValuesUpToSpec(m, n - 1);
      var init := ValuesUpTo(m, n - 1);
      if n in m {
        forall v | v in init
          ensures v != m[n]
        {
          var k :| 1 <= k <= n - 1 && k in m && m[k] == v;
        }
        var all := init + [m[n]];
        assert ValuesUpTo(m, n) == all;
        forall i, j | 0 <= i < j < |all|
          ensures all[i] != all[j]
        {
          if j == |init| {
            assert all[i] == init[i] && init[i] in init;
          } else {
            assert all[i] == init[i] && all[j] == init[j];
          }
        }
      } else {
        assert ValuesUpTo(m, n) == init;
      }
    }
  }

  /** No element occurs twice in `xs`. */
  ghost predicate Distinct<T>(xs: seq<T>) {
    forall i, j :: 0 <= i < j < |xs| ==> xs[i] != xs[j]
  }

  /** In a sequence without repeats every element occurs at most once. */
  lemma {:induction false} DistinctCount<T>(xs: seq<T>)
    requires Distinct(xs)
    ensures forall x :: multiset(xs)[x] <= 1
  {
    if xs != [] {
      DistinctCount(xs[1..]);
      assert xs == [xs[0]] + xs[1..];
      assert xs[0] !in xs[1..];
    }
  }

  /** An element at two positions occurs at least twice. */
  lemma CountTwice<T>(xs: seq<T>, i: nat, j: nat)
    requires i < j < |xs| && xs[i] == xs[j]
    ensures multiset(xs)[xs[i]] >= 2
  {
    assert xs == xs[..j] + xs[j..];
    assert xs[i] in xs[..j];
    assert xs[j..] == [xs[j]] + xs[j + 1..];
  }

  /** A permutation of a sequence without repeats has none either. */
  lemma DistinctPerm<T>(xs: seq<T>, ys: seq<T>)
    requires Distinct(xs) && multiset(xs) == multiset(ys)
    ensures Distinct(ys)
  {
    DistinctCount(xs);
    forall i, j | 0 <= i < j < |ys| && ys[i] == ys[j]
      ensures multiset(ys)[ys[i]] >= 2
    {
      CountTwice(ys, i, j);
    }
  }

  /** `xs` is in non-decreasing order of `key`. */
  ghost predicate SortedBy<T>(xs: seq<T>, key: T -> int) {
    forall i, j :: 0 <= i < j < |xs| ==> key(xs[i]) <= key(xs[j])
  }

  /** Puts `x` after every element of the sorted `xs` whose key is not larger. */
  function Insert<T>(x: T, xs: seq<T>, key: T -> int): seq<T> {
    if xs == [] then [x]
    else if key(x) < key(xs[0]) then [x] + xs
    else [xs[0]] + Insert(x, xs[1..], key)
  }

  /** `sorted(xs, key=key)`: a stable insertion sort. */
  function SortBy<T>(xs: seq<T>, key: T -> int): seq<T> {
    if xs == [] then [] else Insert(xs[|xs| - 1], SortBy(xs[..|xs| - 1], key), key)
  }

  /** Inserting adds exactly `x` to the elements. */
  lemma {:induction false} InsertPerm<T>(x: T, xs: seq<T>, key: T -> int)
    ensures multiset(Insert(x, xs, key)) == multiset(xs) + multiset{x}
  {
    if xs != [] && key(x) >= key(xs[0]) {
      InsertPerm(x, xs[1..], key);
      assert xs == [xs[0]] + xs[1..];
    }
  }

  /** Inserting into a sorted sequence keeps it sorted and keeps every element. */
  lemma {:induction false} InsertSpec<T>(x: T, xs: seq<T>, key: T -> int)
    requires SortedBy(xs, key)
    ensures SortedBy(Insert(x, xs, key), key)
    ensures multiset(Insert(x, xs, key)) == multiset(xs) + multiset{x}
  {
    InsertPerm(x, xs, key);
    if xs != [] && key(x) >= key(xs[0]) {
      var rest := Insert(x, xs[1..], key);
      InsertSpec(x, xs[1..], key);
      forall k | 0 <= k < |rest|
        ensures key(xs[0]) <= key(rest[k])
      {
        assert rest[k] in multiset(rest);
        if rest[k] != x {
          assert rest[k] in multiset(xs[1..]);
          var j :| 0 <= j < |xs[1..]| && xs[1..][j] == rest[k];
          assert xs[j + 1] == rest[k];
        }
      }
    }
  }

  /** Sorting orders the elements by key and keeps every element (a permutation). */
  lemma {:induction false} SortBySpec<T>(xs: seq<T>, key: T -> int)
    ensures SortedBy(SortBy(xs, key), key)
    ensures multiset(SortBy(xs, key)) == multiset(xs)
  {
    if xs != [] {
      var init := xs[..|xs| - 1];
      SortBySpec(init, key);
      InsertSpec(xs[|xs| - 1], SortBy(init, key), key);
      assert xs == init + [xs[|xs| - 1]];
    }
  }
}
