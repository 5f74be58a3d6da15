/**
 * `Array.prototype.sort` with a numeric comparator `(a, b) => key(a) - key(b)`.
 * The language only promises that the sort is stable; the model is an
 * insertion sort, and `SortedStableUnique` shows that every stable sort
 * gives the same result, so the choice of algorithm does not matter.
 */
module StableSort {
  import opened Sequences

  /** `s` is in non-decreasing order of `key`. */
  predicate SortedBy<T>(s: seq<T>, key: T -> int) {
    forall i, j :: 0 <= i < j < |s| ==> key(s[i]) <= key(s[j])
  }

  /** The elements of `s` whose key is `k`, in their order in `s`. */
  function WithKey<T>(s: seq<T>, key: T -> int, k: int): (r: seq<T>)
    decreases |s|
    ensures |r| <= |s|
    ensures forall x :: x in r ==> x in s && key(x) == k
  {
    if s == [] then []
    else (if key(s[0]) == k then [s[0]] else []) + WithKey(s[1..], key, k)
  }

  /** Puts `x` in front of the first element whose key is at least `key(x)`. */
  function Insert<T>(x: T, s: seq<T>, key: T -> int): (r: seq<T>)
    decreases |s|
    ensures |r| == |s| + 1
  {
    if s == [] || key(x) <= key(s[0]) then [x] + s
    else [s[0]] + Insert(x, s[1..], key)
  }

  /** The stable sort of `s` by ascending `key`. */
  function SortBy<T>(s: seq<T>, key: T -> int): (r: seq<T>)
    decreases |s|
    ensures |r| == |s|
  {
    if s == [] then [] else Insert(s[0], SortBy(s[1..], key), key)
  }

  // ---------------------------------------------------------------------
  // Insertion

  lemma {:induction false} InsertSorted<T>(x: T, s: seq<T>, key: T -> int)
    requires SortedBy(s, key)
    ensures SortedBy(Insert(x, s, key), key)
    decreases |s|
  {
    if s != [] && key(s[0]) < key(x) {
      InsertSorted(x, s[1..], key);
      InsertElements(x, s[1..], key);
      var r := Insert(x, s, key);
      assert r == [s[0]] + Insert(x, s[1..], key);
      forall j | 0 < j < |r| ensures key(r[0]) <= key(r[j]) {
        assert r[j] == Insert(x, s[1..], key)[j - 1];
        if r[j] != x {
          InsertMember(x, s[1..], key, r[j]);
          assert r[j] in s;
          SortedHeadLeast(s, key, r[j]);
        }
      }
    }
  }

  lemma {:induction false} InsertElements<T>(x: T, s: seq<T>, key: T -> int)
    ensures multiset(Insert(x, s, key)) == multiset([x] + s)
    ensures forall y :: y in Insert(x, s, key) <==> y == x || y in s
    decreases |s|
  {
    if s != [] && key(s[0]) < key(x) {
      InsertElements(x, s[1..], key);
      assert s == [s[0]] + s[1..];
      assert multiset([x] + s) == multiset([s[0]]) + multiset([x] + s[1..]);
    }
  }

  lemma InsertMember<T>(x: T, s: seq<T>, key: T -> int, y: T)
    requires y in Insert(x, s, key)
    ensures y == x || y in s
  {
    InsertElements(x, s, key);
  }

  lemma {:induction false} InsertWithKey<T>(x: T, s: seq<T>, key: T -> int, k: int)
    ensures WithKey(Insert(x, s, key), key, k) == (if key(x) == k then [x] else []) + WithKey(s, key, k)
    decreases |s|
  {
    if s == [] || key(x) <= key(s[0]) {
      assert ([x] + s)[1..] == s;
    } else {
      InsertWithKey(x, s[1..], key, k);
      assert ([s[0]] + Insert(x, s[1..], key))[1..] == Insert(x, s[1..], key);
    }
  }

  lemma {:induction false} InsertSumBags<T, U>(x: T, s: seq<T>, key: T -> int, f: T -> multiset<U>)
    ensures SumBags(Insert(x, s, key), f) == f(x) + SumBags(s, f)
    decreases |s|
  {
    if s == [] || key(x) <= key(s[0]) {
      assert ([x] + s)[1..] == s;
    } else {
      InsertSumBags(x, s[1..], key, f);
      assert ([s[0]] + Insert(x, s[1..], key))[1..] == Insert(x, s[1..], key);
    }
  }

  // ---------------------------------------------------------------------
  // What the sort promises

  /** The result is in ascending key order. */
  lemma {:induction false} SortSorted<T>(s: seq<T>, key: T -> int)
    ensures SortedBy(SortBy(s, key), key)
    decreases |s|
  {
    if s != [] {
      SortSorted(s[1..], key);
      InsertSorted(s[0], SortBy(s[1..], key), key);
    }
  }

  /** The result is a permutation of the input. */
  lemma {:induction false} SortPermutes<T>(s: seq<T>, key: T -> int)
    ensures multiset(SortBy(s, key)) == multiset(s)
    decreases |s|
  {
    if s != [] {
      SortPermutes(s[1..], key);
      InsertElements(s[0], SortBy(s[1..], key), key);
      assert s == [s[0]] + s[1..];
    }
  }

  /** Stability: the elements with any one key keep their input order. */
  lemma {:induction false} SortStable<T>(s: seq<T>, key: T -> int, k: int)
    ensures WithKey(SortBy(s, key), key, k) == WithKey(s, key, k)
    decreases |s|
  {
    if s != [] {
      SortStable(s[1..], key, k);
      InsertWithKey(s[0], SortBy(s[1..], key), key, k);
    }
  }

  /** Anything added up over the elements is the same before and after sorting. */
  lemma {:induction false} SortSumBags<T, U>(s: seq<T>, key: T -> int, f: T -> multiset<U>)
    ensures SumBags(SortBy(s, key), f) == SumBags(s, f)
    decreases |s|
  {
    if s != [] {
      SortSumBags(s[1..], key, f);
      InsertSumBags(s[0], SortBy(s[1..], key), key, f);
    }
  }

  // ---------------------------------------------------------------------
  // Uniqueness: sorted + stable determines the result

  lemma {:induction false} WithKeyHas<T>(s: seq<T>, key: T -> int, i: nat)
    requires i < |s|
    ensures s[i] in WithKey(s, key, key(s[i]))
    decreases i
  {
    if i > 0 {
      WithKeyHas(s[1..], key, i - 1);
    }
  }

  /** In a sorted sequence the elements with the first element's key form a prefix: dropping the head drops it from its key class only. */
  lemma WithKeyTail<T>(s: seq<T>, key: T -> int, k: int)
    requires s != []
    ensures WithKey(s[1..], key, k) == if key(s[0]) == k then WithKey(s, key, k)[1..] else WithKey(s, key, k)
  {
  }

  /** A sorted sequence starts with its least key. */
  lemma SortedHeadLeast<T>(s: seq<T>, key: T -> int, x: T)
    requires SortedBy(s, key) && x in s
    ensures key(s[0]) <= key(x)
  {
    var i :| 0 <= i < |s| && s[i] == x;
  }

  lemma SortedTail<T>(s: seq<T>, key: T -> int)
    requires s != [] && SortedBy(s, key)
    ensures SortedBy(s[1..], key)
  {
    forall i, j | 0 <= i < j < |s| - 1 ensures key(s[1..][i]) <= key(s[1..][j]) {
      assert s[1..][i] == s[i + 1] && s[1..][j] == s[j + 1];
    }
  }

  /** Dropping the head of two sequences with the same key classes leaves the same key classes. */
  lemma TailClasses<T>(r: seq<T>, s: seq<T>, key: T -> int)
    requires r != [] && s != [] && r[0] == s[0]
    requires forall k :: WithKey(r, key, k) == WithKey(s, key, k)
    ensures forall k :: WithKey(r[1..], key, k) == WithKey(s[1..], key, k)
  {
    forall k ensures WithKey(r[1..], key, k) == WithKey(s[1..], key, k) {
      WithKeyTail(r, key, k);
      WithKeyTail(s, key, k);
    }
  }

  lemma ConsEqual<T>(r: seq<T>, s: seq<T>)
    requires r != [] && s != [] && r[0] == s[0] && r[1..] == s[1..]
    ensures r == s
  {
    assert r == [r[0]] + r[1..] && s == [s[0]] + s[1..];
  }

  /** Two sorted sequences with the same key classes start with the same element. */
  lemma SameHead<T>(r: seq<T>, s: seq<T>, key: T -> int)
    requires r != [] && s != [] && SortedBy(r, key) && SortedBy(s, key)
    requires forall k :: WithKey(r, key, k) == WithKey(s, key, k)
    ensures r[0] == s[0]
  {
    var a, b := key(r[0]), key(s[0]);
    WithKeyHas(r, key, 0);
    WithKeyHas(s, key, 0);
    assert WithKey(r, key, a) == WithKey(s, key, a);
    assert WithKey(r, key, b) == WithKey(s, key, b);
    SortedHeadLeast(s, key, r[0]);
    SortedHeadLeast(r, key, s[0]);
    assert WithKey(r, key, a)[0] == r[0];
    assert WithKey(s, key, a)[0] == s[0];
  }

  lemma {:induction false} SortedStableUnique<T>(r: seq<T>, s: seq<T>, key: T -> int)
    requires SortedBy(r, key) && SortedBy(s, key)
    requires forall k :: WithKey(r, key, k) == WithKey(s, key, k)
    ensures r == s
    decreases |r| + |s|
  {
    if r == [] {
      if s != [] {
        WithKeyHas(s, key, 0);
        assert false;
      }
    } else if s == [] {
      WithKeyHas(r, key, 0);
      assert false;
    } else {
      SameHead(r, s, key);
      TailClasses(r, s, key);
      SortedTail(r, key);
      SortedTail(s, key);
      SortedStableUnique(r[1..], s[1..], key);
      ConsEqual(r, s);
    }
  }

  /** Every stable sort of `s` by `key` is `SortBy(s, key)`. */
  lemma StableSortIsSortBy<T>(s: seq<T>, r: seq<T>, key: T -> int)
    requires SortedBy(r, key) && forall k :: WithKey(r, key, k) == WithKey(s, key, k)
    ensures r == SortBy(s, key)
  {
    SortSorted(s, key);
    forall k ensures WithKey(r, key, k) == WithKey(SortBy(s, key), key, k) {
      SortStable(s, key, k);
    }
    SortedStableUnique(r, SortBy(s, key), key);
  }

  // ---------------------------------------------------------------------
  // Distinctness survives sorting

  lemma DistinctByCons<T, K>(a: T, r: seq<T>, f: T -> K)
    requires DistinctBy(r, f) && forall y :: y in r ==> f(y) != f(a)
    ensures DistinctBy([a] + r, f)
  {
    forall i, j | 0 <= i < j < |[a] + r| ensures f(([a] + r)[i]) != f(([a] + r)[j]) {
      if i == 0 {
        assert ([a] + r)[j] == r[j - 1];
        assert r[j - 1] in r;
      } else {
        assert ([a] + r)[i] == r[i - 1] && ([a] + r)[j] == r[j - 1];
      }
    }
  }

  lemma DistinctByTail<T, K>(s: seq<T>, f: T -> K)
    requires s != [] && DistinctBy(s, f)
    ensures DistinctBy(s[1..], f)
    ensures forall y :: y in s[1..] ==> f(y) != f(s[0])
  {
    forall y | y in s[1..] ensures f(y) != f(s[0]) {
      var j :| 0 <= j < |s[1..]| && s[1..][j] == y;
      assert s[j + 1] == y;
    }
    forall i, j | 0 <= i < j < |s[1..]| ensures f(s[1..][i]) != f(s[1..][j]) {
      assert s[1..][i] == s[i + 1] && s[1..][j] == s[j + 1];
    }
  }

  lemma {:induction false} InsertDistinctBy<T, K>(x: T, s: seq<T>, key: T -> int, f: T -> K)
    requires DistinctBy(s, f) && forall y :: y in s ==> f(y) != f(x)
    ensures DistinctBy(Insert(x, s, key), f)
    decreases |s|
  {
    if s == [] || key(x) <= key(s[0]) {
      DistinctByCons(x, s, f);
    } else {
      DistinctByTail(s, f);
      forall y | y in s[1..] ensures f(y) != f(x) {
        assert y in s;
      }
      InsertDistinctBy(x, s[1..], key, f);
      forall y | y in Insert(x, s[1..], key) ensures f(y) != f(s[0]) {
        InsertMember(x, s[1..], key, y);
        if y == x {
          assert s[0] in s;
        }
      }
      DistinctByCons(s[0], Insert(x, s[1..], key), f);
    }
  }

  /** Sorting keeps distinct values of `f` distinct. */
  lemma {:induction false} SortDistinctBy<T, K>(s: seq<T>, key: T -> int, f: T -> K)
    requires DistinctBy(s, f)
    ensures DistinctBy(SortBy(s, key), f)
    decreases |s|
  {
    if s != [] {
      DistinctByTail(s, f);
      SortDistinctBy(s[1..], key, f);
      SortPermutes(s[1..], key);
      forall y | y in SortBy(s[1..], key) ensures f(y) != f(s[0]) {
        assert y in multiset(SortBy(s[1..], key));
        assert y in s[1..];
      }
      InsertDistinctBy(s[0], SortBy(s[1..], key), key, f);
    }
  }
}
