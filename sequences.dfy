/**
 * Sequence helpers shared by the model: first-seen de-duplication (the key
 * order of an insertion-ordered JavaScript object) and the union of bags
 * over a sequence.
 */
module Sequences {

  /** No value occurs twice. */
  predicate Distinct<K(==)>(s: seq<K>) {
    forall i, j :: 0 <= i < j < |s| ==> s[i] != s[j]
  }

  /** No two elements share a value of `f`. */
  predicate DistinctBy<T, K(==)>(s: seq<T>, f: T -> K) {
    forall i, j :: 0 <= i < j < |s| ==> f(s[i]) != f(s[j])
  }

  /** The values of `ks` in the order of their first occurrence, each once. */
  function FirstSeen<K(==)>(ks: seq<K>): seq<K>
    decreases |ks|
  {
    if ks == [] then []
    else
      var prev := FirstSeen(ks[..|ks| - 1]);
      var last := ks[|ks| - 1];
      assert ks == ks[..|ks| - 1] + [last];
      if last in prev then prev else prev + [last]
  }

  /** `FirstSeen` holds exactly the values of `ks`, each once. */
  lemma {:induction false} FirstSeenMembers<K>(ks: seq<K>)
    decreases |ks|
    ensures forall i :: 0 <= i < |FirstSeen(ks)| ==> FirstSeen(ks)[i] in ks
    ensures forall i :: 0 <= i < |ks| ==> ks[i] in FirstSeen(ks)
    ensures Distinct(FirstSeen(ks))
  {
    if ks != [] {
      var prev := FirstSeen(ks[..|ks| - 1]);
      FirstSeenMembers(ks[..|ks| - 1]);
      assert ks == ks[..|ks| - 1] + [ks[|ks| - 1]];
    }
  }

  lemma FirstSeenSnoc<K>(ks: seq<K>, k: K)
    ensures FirstSeen(ks + [k]) == if k in ks then FirstSeen(ks) else FirstSeen(ks) + [k]
  {
    assert (ks + [k])[..|ks|] == ks;
    FirstSeenMembers(ks);
  }

  /** The union of `f(x)` over the elements `x` of `s`. */
  function SumBags<T, U>(s: seq<T>, f: T -> multiset<U>): multiset<U>
    decreases |s|
  {
    if s == [] then multiset{} else f(s[0]) + SumBags(s[1..], f)
  }

  lemma {:induction false} SumBagsConcat<T, U>(a: seq<T>, b: seq<T>, f: T -> multiset<U>)
    ensures SumBags(a + b, f) == SumBags(a, f) + SumBags(b, f)
    decreases |a|
  {
    if a != [] {
      SumBagsConcat(a[1..], b, f);
      assert (a + b)[1..] == a[1..] + b;
    } else {
      assert a + b == b;
    }
  }

  lemma SumBagsSnoc<T, U>(s: seq<T>, x: T, f: T -> multiset<U>)
    ensures SumBags(s + [x], f) == SumBags(s, f) + f(x)
  {
    SumBagsConcat(s, [x], f);
    assert SumBags([x], f) == f(x) + SumBags([x][1..], f);
  }

  /** Replacing one element changes the union by exactly that element's bag. */
  lemma SumBagsUpdate<T, U>(s: seq<T>, j: nat, x: T, f: T -> multiset<U>)
    requires j < |s|
    ensures SumBags(s[j := x], f) + f(s[j]) == SumBags(s, f) + f(x)
  {
    SumBagsSplit(s, j, f);
    SumBagsSplit(s[j := x], j, f);
    assert s[j := x][..j] == s[..j] && s[j := x][j + 1..] == s[j + 1..];
  }

  /** The union split around position `j`. */
  lemma SumBagsSplit<T, U>(s: seq<T>, j: nat, f: T -> multiset<U>)
    requires j < |s|
    ensures SumBags(s, f) == SumBags(s[..j], f) + f(s[j]) + SumBags(s[j + 1..], f)
  {
    assert s == s[..j] + ([s[j]] + s[j + 1..]);
    SumBagsConcat(s[..j], [s[j]] + s[j + 1..], f);
    assert ([s[j]] + s[j + 1..])[1..] == s[j + 1..];
  }

  /** Removing one element removes exactly that element's bag. */
  lemma SumBagsRemove<T, U>(s: seq<T>, j: nat, f: T -> multiset<U>)
    requires j < |s|
    ensures SumBags(s[..j] + s[j + 1..], f) + f(s[j]) == SumBags(s, f)
  {
    SumBagsSplit(s, j, f);
    SumBagsConcat(s[..j], s[j + 1..], f);
  }

  /** Replacing an element by one whose bag has `d` more adds exactly `d`. */
  lemma SumBagsGrow<T, U>(s: seq<T>, j: nat, x: T, f: T -> multiset<U>, d: multiset<U>)
    requires j < |s| && f(x) == f(s[j]) + d
    ensures SumBags(s[j := x], f) == SumBags(s, f) + d
  {
    SumBagsSplit(s, j, f);
    SumBagsSplit(s[j := x], j, f);
    assert s[j := x][..j] == s[..j];
    assert s[j := x][j + 1..] == s[j + 1..];
  }

  /** Adding the same bag to both sides can be cancelled. */
  lemma BagCancel<U>(a: multiset<U>, b: multiset<U>, c: multiset<U>)
    requires a + b == c + b
    ensures a == c
  {
    forall x ensures a[x] == c[x] {
      assert (a + b)[x] == (c + b)[x];
    }
  }

  /** Generic sequence fact: concatenation regroups freely (stated once for large proofs). */
  lemma AppendAssoc<U>(a: seq<U>, b: seq<U>, c: seq<U>)
    ensures (a + b) + c == a + (b + c)
  {
  }

  /** Generic sequence fact: a sequence that agrees with `s` and then holds `x` is `s + [x]`. */
  lemma SnocExtensional<U>(r: seq<U>, s: seq<U>, x: U)
    requires |r| == |s| + 1 && r[|s|] == x
    requires forall k :: 0 <= k < |s| ==> r[k] == s[k]
    ensures r == s + [x]
  {
  }

  /** Generic sequence fact: a prefix one longer is the shorter prefix and the next element. */
  lemma PrefixSnoc<U>(s: seq<U>, k: nat)
    requires k < |s|
    ensures s[..k + 1] == s[..k] + [s[k]]
  {
  }

  /** Generic sequence fact: removing element `i` shifts the later elements down by one. */
  lemma RemoveAt<U>(s: seq<U>, i: nat, f: nat)
    requires i < |s| && f < |s| && f != i
    ensures (s[..i] + s[i + 1..])[if f < i then f else f - 1] == s[f]
  {
    if f > i {
      assert (s[..i] + s[i + 1..])[f - 1] == s[i + 1..][f - 1 - i];
    }
  }

  /** `idx` picks, in increasing order, positions of `b` that hold the elements of `a`. */
  predicate Embedding<T(==)>(a: seq<T>, b: seq<T>, idx: seq<nat>) {
    |idx| == |a|
    && (forall k :: 0 <= k < |idx| ==> idx[k] < |b| && b[idx[k]] == a[k])
    && (forall j, k :: 0 <= j < k < |idx| ==> idx[j] < idx[k])
  }

  /** `a` is `b` with some elements left out, the rest in their order. */
  ghost predicate Subsequence<T>(a: seq<T>, b: seq<T>) {
    exists idx :: Embedding(a, b, idx)
  }

  /** An element appended to `b` may be kept at the end of `a` or left out. */
  lemma SubsequenceSnoc<T>(a: seq<T>, b: seq<T>, x: T)
    requires Subsequence(a, b)
    ensures Subsequence(a, b + [x]) && Subsequence(a + [x], b + [x])
  {
    var idx: seq<nat> :| Embedding(a, b, idx);
    assert Embedding(a, b + [x], idx);
    assert Embedding(a + [x], b + [x], idx + [|b|]);
  }

  lemma SubsequenceEmpty<T>(b: seq<T>)
    ensures Subsequence([], b)
  {
    assert Embedding([], b, []);
  }
}
