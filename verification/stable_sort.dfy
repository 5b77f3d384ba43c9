/** `Array.prototype.sort` with a numeric comparator `(a, b) => key(a) - key(b)`.
    ECMAScript 2019 and later require the sort to be stable, so the result is
    the input ordered by ascending key, equal keys in their original order;
    that arrangement is unique, which `SortUnique` shows. */
module StableSort {

  /** Keys never decrease along `s`. */
  predicate SortedBy<T>(s: seq<T>, key: T -> int) {
    forall i, j :: 0 <= i < j < |s| ==> key(s[i]) <= key(s[j])
  }

  /** The elements of `s` whose key is `k`, in their order in `s`. */
  function WithKey<T(==)>(s: seq<T>, key: T -> int, k: int): (r: seq<T>)
    ensures |r| <= |s|
    ensures forall i :: 0 <= i < |r| ==> key(r[i]) == k
    decreases |s|
  {
    if |s| == 0 then []
    else WithKey(s[..|s| - 1], key, k) + (if key(s[|s| - 1]) == k then [s[|s| - 1]] else [])
  }

  /** What is selected comes from `s`. */
  lemma {:induction false} WithKeyMember<T>(s: seq<T>, key: T -> int, k: int, j: nat)
    requires j < |WithKey(s, key, k)|
    ensures exists i :: 0 <= i < |s| && s[i] == WithKey(s, key, k)[j]
    decreases |s|
  {
    var init := s[..|s| - 1];
    if j < |WithKey(init, key, k)| {
      WithKeyMember(init, key, k, j);
      var i :| 0 <= i < |init| && init[i] == WithKey(init, key, k)[j];
      assert s[i] == init[i];
    } else {
      assert s[|s| - 1] == WithKey(s, key, k)[j];
    }
  }

  lemma {:induction false} WithKeyAppend<T>(a: seq<T>, b: seq<T>, key: T -> int, k: int)
    ensures WithKey(a + b, key, k) == WithKey(a, key, k) + WithKey(b, key, k)
    decreases |b|
  {
    if |b| == 0 {
      assert a + b == a;
    } else {
      var b' := b[..|b| - 1];
      assert (a + b)[..|a + b| - 1] == a + b';
      WithKeyAppend(a, b', key, k);
    }
  }

  /** No element has key `k`: nothing is selected. */
  lemma {:induction false} WithKeyAbsent<T>(s: seq<T>, key: T -> int, k: int)
    requires forall i :: 0 <= i < |s| ==> key(s[i]) != k
    ensures WithKey(s, key, k) == []
    decreases |s|
  {
    if |s| > 0 {
      WithKeyAbsent(s[..|s| - 1], key, k);
    }
  }

  /** Where a stable insertion puts `x` into sorted `s`: after every element
      whose key is at most `x`'s and before every larger one. */
  function InsertPos<T>(s: seq<T>, x: T, key: T -> int): (p: nat)
    requires SortedBy(s, key)
    ensures p <= |s|
    ensures forall i :: 0 <= i < p ==> key(s[i]) <= key(x)
    ensures forall i :: p <= i < |s| ==> key(x) < key(s[i])
    decreases |s|
  {
    if |s| == 0 || key(s[|s| - 1]) <= key(x) then |s|
    else InsertPos(s[..|s| - 1], x, key)
  }

  /** `s` with `x` inserted at its stable position. */
  function Insert<T(==)>(s: seq<T>, x: T, key: T -> int): (r: seq<T>)
    requires SortedBy(s, key)
    ensures |r| == |s| + 1
    ensures SortedBy(r, key)
    ensures multiset(r) == multiset(s) + multiset{x}
    ensures forall k :: WithKey(r, key, k) == WithKey(s, key, k) + (if key(x) == k then [x] else [])
  {
    var p := InsertPos(s, x, key);
    assert s == s[..p] + s[p..];
    forall k
      ensures WithKey(s[..p] + [x] + s[p..], key, k) == WithKey(s, key, k) + (if key(x) == k then [x] else [])
    {
      InsertWithKey(s, p, x, key, k);
    }
    s[..p] + [x] + s[p..]
  }

  lemma InsertWithKey<T>(s: seq<T>, p: nat, x: T, key: T -> int, k: int)
    requires p <= |s|
    requires forall i :: p <= i < |s| ==> key(x) < key(s[i])
    ensures WithKey(s[..p] + [x] + s[p..], key, k) == WithKey(s, key, k) + (if key(x) == k then [x] else [])
  {
    var pre, post := s[..p], s[p..];
    assert s == pre + post;
    assert s[..p] + [x] + s[p..] == (pre + [x]) + post;
    WithKeyAppend(pre + [x], post, key, k);
    WithKeyAppend(pre, [x], key, k);
    WithKeyAppend(pre, post, key, k);
    assert WithKey([x], key, k) == (if key(x) == k then [x] else []) by {
      assert [x][..0] == [];
    }
    if key(x) == k {
      WithKeyAbsent(post, key, k);
    }
  }

  /** The stable sort by ascending key: sorted, a permutation of the input,
      and every group of equal keys in its input order. */
  function Sort<T(==)>(s: seq<T>, key: T -> int): (r: seq<T>)
    ensures |r| == |s|
    ensures SortedBy(r, key)
    ensures multiset(r) == multiset(s)
    ensures forall k :: WithKey(r, key, k) == WithKey(s, key, k)
    decreases |s|
  {
    if |s| == 0 then []
    else
      var init := s[..|s| - 1];
      var x := s[|s| - 1];
      assert s == init + [x];
      Insert(Sort(init, key), x, key)
  }

  /** If `s` and `t` select the same elements for every key and `t` is not
      empty, `s` is not empty either and its last key is at least `t`'s. */
  lemma LastKeyBound<T>(s: seq<T>, t: seq<T>, key: T -> int)
    requires SortedBy(s, key) && |t| > 0
    requires forall k :: WithKey(s, key, k) == WithKey(t, key, k)
    ensures |s| > 0 && key(t[|t| - 1]) <= key(s[|s| - 1])
  {
    var k := key(t[|t| - 1]);
    assert WithKey(s, key, k) == WithKey(t, key, k);
    KeyPresent(s, t, key, k);
  }

  lemma KeyPresent<T>(s: seq<T>, t: seq<T>, key: T -> int, k: int)
    requires SortedBy(s, key) && |t| > 0 && k == key(t[|t| - 1])
    requires WithKey(s, key, k) == WithKey(t, key, k)
    ensures |s| > 0 && k <= key(s[|s| - 1])
  {
    var w := WithKey(s, key, k);
    assert WithKey(t, key, k) == WithKey(t[..|t| - 1], key, k) + [t[|t| - 1]];
    assert |w| > 0;
    WithKeyMember(s, key, k, 0);
    var i :| 0 <= i < |s| && s[i] == w[0];
    assert key(s[i]) == k;
    assert i == |s| - 1 || key(s[i]) <= key(s[|s| - 1]);
  }

  /** Selecting from a non-empty sequence: the selection of all but the
      last element, then the last element when it has the key. */
  lemma WithKeySnoc<T>(s: seq<T>, key: T -> int, k: int)
    requires |s| > 0
    ensures WithKey(s, key, k)
            == WithKey(s[..|s| - 1], key, k) + (if key(s[|s| - 1]) == k then [s[|s| - 1]] else [])
  {
  }

  /** Equal sequences with the same last element agree on the rest. */
  lemma SnocCancel<T>(s: seq<T>, t: seq<T>, x: T)
    requires s + [x] == t + [x]
    ensures s == t
  {
    assert s == (s + [x])[..|s|];
    assert t == (t + [x])[..|t|];
  }

  /** Two sorted arrangements that select the same elements for every key,
      not both empty, are both non-empty and end with the same key. */
  lemma LastKeysEqual<T>(a: seq<T>, b: seq<T>, key: T -> int)
    requires SortedBy(a, key) && SortedBy(b, key) && |a| + |b| > 0
    requires forall k :: WithKey(a, key, k) == WithKey(b, key, k)
    ensures |a| > 0 && |b| > 0 && key(a[|a| - 1]) == key(b[|b| - 1])
  {
    if |b| > 0 {
      LastKeyBound(a, b, key);
    }
    assert |a| > 0;
    LastKeyBound(b, a, key);
    LastKeyBound(a, b, key);
  }

  /** Two sequences ending with elements of key `k` that select the same
      elements of key `k` end with the same element. */
  lemma SameLast<T>(a: seq<T>, b: seq<T>, key: T -> int, k: int)
    requires |a| > 0 && |b| > 0 && key(a[|a| - 1]) == k && key(b[|b| - 1]) == k
    requires WithKey(a, key, k) == WithKey(b, key, k)
    ensures a[|a| - 1] == b[|b| - 1]
  {
    WithKeySnoc(a, key, k);
    WithKeySnoc(b, key, k);
    var w := WithKey(a, key, k);
    assert w[|w| - 1] == a[|a| - 1];
  }

  /** Two sorted arrangements that select the same elements for every key,
      not both empty, are both non-empty and end with the same element. */
  lemma LastEqual<T>(a: seq<T>, b: seq<T>, key: T -> int)
    requires SortedBy(a, key) && SortedBy(b, key) && |a| + |b| > 0
    requires forall k :: WithKey(a, key, k) == WithKey(b, key, k)
    ensures |a| > 0 && |b| > 0 && a[|a| - 1] == b[|b| - 1]
  {
    LastKeysEqual(a, b, key);
    var kx := key(a[|a| - 1]);
    assert WithKey(a, key, kx) == WithKey(b, key, kx);
    SameLast(a, b, key, kx);
  }

  /** Dropping a shared last element keeps the selections equal. */
  lemma DropLast<T>(a: seq<T>, b: seq<T>, key: T -> int, k: int)
    requires |a| > 0 && |b| > 0 && a[|a| - 1] == b[|b| - 1]
    requires WithKey(a, key, k) == WithKey(b, key, k)
    ensures WithKey(a[..|a| - 1], key, k) == WithKey(b[..|b| - 1], key, k)
  {
    WithKeySnoc(a, key, k);
    WithKeySnoc(b, key, k);
    var x := a[|a| - 1];
    if key(x) == k {
      SnocCancel(WithKey(a[..|a| - 1], key, k), WithKey(b[..|b| - 1], key, k), x);
    } else {
      assert WithKey(a[..|a| - 1], key, k) + [] == WithKey(a[..|a| - 1], key, k);
      assert WithKey(b[..|b| - 1], key, k) + [] == WithKey(b[..|b| - 1], key, k);
    }
  }

  /** A sorted arrangement is fixed by what it selects for each key: there
      is only one stable sort of any sequence. */
  lemma {:induction false} SortUnique<T>(a: seq<T>, b: seq<T>, key: T -> int)
    requires SortedBy(a, key) && SortedBy(b, key)
    requires forall k :: WithKey(a, key, k) == WithKey(b, key, k)
    ensures a == b
    decreases |a| + |b|
  {
    if |a| + |b| > 0 {
      LastEqual(a, b, key);
      var a', b' := a[..|a| - 1], b[..|b| - 1];
      forall k
        ensures WithKey(a', key, k) == WithKey(b', key, k)
      {
        DropLast(a, b, key, k);
      }
      PrefixSorted(a, |a| - 1, key);
      PrefixSorted(b, |b| - 1, key);
      SortUnique(a', b', key);
      assert a == a' + [a[|a| - 1]];
      assert b == b' + [b[|b| - 1]];
    }
  }

  /** Any sorted sequence that keeps each key's elements in input order is
      the stable sort of that input. */
  lemma StableSortIsSort<T>(s: seq<T>, r: seq<T>, key: T -> int)
    requires SortedBy(r, key)
    requires forall k :: WithKey(r, key, k) == WithKey(s, key, k)
    ensures r == Sort(s, key)
  {
    var q := Sort(s, key);
    assert forall k :: WithKey(r, key, k) == WithKey(q, key, k);
    SortUnique(r, q, key);
  }

  /** Sorting keeps every property all the input's elements share. */
  lemma SortKeeps<T>(s: seq<T>, key: T -> int, p: T -> bool)
    requires forall i :: 0 <= i < |s| ==> p(s[i])
    ensures forall i :: 0 <= i < |Sort(s, key)| ==> p(Sort(s, key)[i])
  {
    var r := Sort(s, key);
    forall i | 0 <= i < |r|
      ensures p(r[i])
    {
      assert r[i] in multiset(s);
      var j :| 0 <= j < |s| && s[j] == r[i];
    }
  }

  /** A prefix of a sorted sequence is sorted. */
  lemma PrefixSorted<T>(s: seq<T>, n: nat, key: T -> int)
    requires SortedBy(s, key) && n <= |s|
    ensures SortedBy(s[..n], key)
  {
  }
}
