/** Python's `sorted(xs, key=...)`: a stable sort. It is modelled by a stable
    insertion sort; the result of any stable sort by a total order on keys is
    the same sequence, so the algorithm chosen does not matter. */
module Sorting {

  /** List comprehension `[x for x in s if p(x)]`. */
  function Filter<T>(s: seq<T>, p: T -> bool): (r: seq<T>)
    ensures |r| <= |s|
    decreases |s|
  {
    if |s| == 0 then [] else (if p(s[0]) then [s[0]] else []) + Filter(s[1..], p)
  }

  lemma {:induction false} FilterMembers<T>(s: seq<T>, p: T -> bool, x: T)
    ensures x in Filter(s, p) <==> x in s && p(x)
    decreases |s|
  {
    if |s| > 0 {
      FilterMembers(s[1..], p, x);
      assert s == [s[0]] + s[1..];
    }
  }

  lemma {:induction false} FilterAppend<T>(a: seq<T>, b: seq<T>, p: T -> bool)
    ensures Filter(a + b, p) == Filter(a, p) + Filter(b, p)
    decreases |a|
  {
    if |a| == 0 {
      assert a + b == b;
    } else {
      var ab := a + b;
      var head := if p(a[0]) then [a[0]] else [];
      assert ab[0] == a[0] && ab[1..] == a[1..] + b;
      FilterAppend(a[1..], b, p);
      assert Filter(ab, p) == head + Filter(ab[1..], p);
      assert Filter(a, p) == head + Filter(a[1..], p);
    }
  }

  lemma {:induction false} FilterMultiset<T>(s: seq<T>, p: T -> bool)
    ensures multiset(Filter(s, p)) <= multiset(s)
    decreases |s|
  {
    if |s| > 0 {
      FilterMultiset(s[1..], p);
      assert s == [s[0]] + s[1..];
    }
  }

  /** The complement of a condition: `not p(x)`. */
  function Not<T>(p: T -> bool): T -> bool
  {
    x => !p(x)
  }

  /** Filtering twice is filtering once by the conjunction. */
  lemma {:induction false} FilterFilter<T>(s: seq<T>, p: T -> bool, q: T -> bool, r: T -> bool)
    requires forall x :: r(x) == (p(x) && q(x))
    ensures Filter(Filter(s, p), q) == Filter(s, r)
    decreases |s|
  {
    if |s| > 0 {
      FilterFilter(s[1..], p, q, r);
      assert r(s[0]) == (p(s[0]) && q(s[0]));
      var fp := Filter(s, p);
      if p(s[0]) {
        assert fp == [s[0]] + Filter(s[1..], p);
        assert fp[0] == s[0] && fp[1..] == Filter(s[1..], p);
        assert Filter(fp, q) == (if q(s[0]) then [s[0]] else []) + Filter(fp[1..], q);
      } else {
        assert fp == Filter(s[1..], p);
      }
    }
  }

  /** A total order on keys: total, antisymmetric and transitive (hence
      reflexive), as `<=` on floats of a sort key or on Python strings. */
  ghost predicate TotalOrder<K(!new)>(le: (K, K) -> bool)
  {
    && (forall a, b :: le(a, b) || le(b, a))
    && (forall a, b :: le(a, b) && le(b, a) ==> a == b)
    && (forall a, b, c :: le(a, b) && le(b, c) ==> le(a, c))
  }

  ghost predicate SortedBy<T, K>(s: seq<T>, key: T -> K, le: (K, K) -> bool)
  {
    forall i, j :: 0 <= i < j < |s| ==> le(key(s[i]), key(s[j]))
  }

  /** The elements whose key is exactly `k`. */
  function SameKey<T, K(==)>(key: T -> K, k: K): T -> bool
  {
    y => key(y) == k
  }

  function Insert<T, K>(x: T, s: seq<T>, key: T -> K, le: (K, K) -> bool): seq<T>
    decreases |s|
  {
    if |s| == 0 then [x]
    else if le(key(x), key(s[0])) then [x] + s
    else [s[0]] + Insert(x, s[1..], key, le)
  }

  function SortBy<T, K>(s: seq<T>, key: T -> K, le: (K, K) -> bool): seq<T>
    decreases |s|
  {
    if |s| == 0 then [] else Insert(s[0], SortBy(s[1..], key, le), key, le)
  }

  lemma {:induction false} InsertMultiset<T, K>(x: T, s: seq<T>, key: T -> K, le: (K, K) -> bool)
    ensures multiset(Insert(x, s, key, le)) == multiset(s) + multiset{x}
    decreases |s|
  {
    if |s| > 0 && !le(key(x), key(s[0])) {
      InsertMultiset(x, s[1..], key, le);
      assert s == [s[0]] + s[1..];
    }
  }

  lemma {:induction false} InsertSorted<T, K(!new)>(x: T, s: seq<T>, key: T -> K, le: (K, K) -> bool)
    requires TotalOrder(le)
    requires SortedBy(s, key, le)
    ensures SortedBy(Insert(x, s, key, le), key, le)
    ensures |Insert(x, s, key, le)| == |s| + 1
    ensures forall y :: y in Insert(x, s, key, le) ==> y == x || y in s
    decreases |s|
  {
    if |s| > 0 && !le(key(x), key(s[0])) {
      var t := s[1..];
      InsertSorted(x, t, key, le);
      var r := Insert(x, t, key, le);
      forall y | y in r ensures le(key(s[0]), key(y)) {
        if y != x {
          var j :| 0 <= j < |t| && t[j] == y;
          assert s[j + 1] == y;
        }
      }
      assert forall j :: 0 <= j < |r| ==> r[j] in r;
    }
  }

  /** `sorted` returns a permutation of its input ordered by key. */
  lemma {:induction false} SortByCorrect<T, K(!new)>(s: seq<T>, key: T -> K, le: (K, K) -> bool)
    requires TotalOrder(le)
    ensures |SortBy(s, key, le)| == |s|
    ensures multiset(SortBy(s, key, le)) == multiset(s)
    ensures SortedBy(SortBy(s, key, le), key, le)
    decreases |s|
  {
    if |s| > 0 {
      SortByCorrect(s[1..], key, le);
      InsertMultiset(s[0], SortBy(s[1..], key, le), key, le);
      InsertSorted(s[0], SortBy(s[1..], key, le), key, le);
      assert s == [s[0]] + s[1..];
    }
  }

  /** Inserting `x` adds it to the elements of its own key, in front of
      them, and leaves every other key's elements alone. Only reflexivity of
      the order matters: `x` goes before the first element it is `le`. */
  lemma {:induction false} InsertFilter<T, K(!new)>(x: T, s: seq<T>, key: T -> K, le: (K, K) -> bool, k: K)
    requires forall a :: le(a, a)
    ensures Filter(Insert(x, s, key, le), SameKey(key, k)) ==
            (if key(x) == k then [x] else []) + Filter(s, SameKey(key, k))
    decreases |s|, 1
  {
    if |s| == 0 {
    } else if le(key(x), key(s[0])) {
      FilterCons(x, s, SameKey(key, k));
    } else {
      InsertFilterPast(x, s, key, le, k);
    }
  }

  /** The step of `InsertFilter` where `x` moves past the first element. */
  lemma {:induction false} InsertFilterPast<T, K(!new)>(x: T, s: seq<T>, key: T -> K, le: (K, K) -> bool, k: K)
    requires forall a :: le(a, a)
    requires |s| > 0 && !le(key(x), key(s[0]))
    ensures Filter(Insert(x, s, key, le), SameKey(key, k)) ==
            (if key(x) == k then [x] else []) + Filter(s, SameKey(key, k))
    decreases |s|, 0
  {
    var p := SameKey(key, k);
    var t := s[1..];
    var hx := if key(x) == k then [x] else [];
    var h0 := if p(s[0]) then [s[0]] else [];
    assert hx == [] || h0 == [] by { assert le(key(x), key(x)); }
    assert Insert(x, s, key, le) == [s[0]] + Insert(x, t, key, le);
    InsertFilter(x, t, key, le, k);
    FilterCons(s[0], Insert(x, t, key, le), p);
    assert s == [s[0]] + t;
    FilterCons(s[0], t, p);
    SwapEmpty(h0, hx, Filter(t, p));
  }

  lemma SwapEmpty<T>(a: seq<T>, b: seq<T>, c: seq<T>)
    requires a == [] || b == []
    ensures a + (b + c) == b + (a + c)
  {
    if a == [] {
      assert a + (b + c) == b + c == b + (a + c);
    } else {
      assert a + (b + c) == a + c == b + (a + c);
    }
  }

  lemma FilterCons<T>(a: T, t: seq<T>, p: T -> bool)
    ensures Filter([a] + t, p) == (if p(a) then [a] else []) + Filter(t, p)
  {
    assert ([a] + t)[0] == a && ([a] + t)[1..] == t;
  }

  /** Stability: for every key value, the elements with that key appear in the
      result in exactly their input order. */
  lemma {:induction false} SortByStable<T, K(!new)>(s: seq<T>, key: T -> K, le: (K, K) -> bool, k: K)
    requires TotalOrder(le)
    ensures Filter(SortBy(s, key, le), SameKey(key, k)) == Filter(s, SameKey(key, k))
    decreases |s|
  {
    if |s| > 0 {
      SortByStable(s[1..], key, le, k);
      assert forall a :: le(a, a) by { assert forall a :: le(a, a) || le(a, a); }
      InsertFilter(s[0], SortBy(s[1..], key, le), key, le, k);
    }
  }

  lemma SameKeyAt<T, K>(key: T -> K, k: K, y: T)
    ensures SameKey(key, k)(y) <==> key(y) == k
  {
  }

  /** A sequence sorted by key is determined by its elements of each key:
      two sorted sequences that agree on every key's subsequence are equal. */
  lemma {:induction false} SortedByFilters<T, K(!new)>(a: seq<T>, b: seq<T>, key: T -> K, le: (K, K) -> bool)
    requires TotalOrder(le)
    requires SortedBy(a, key, le) && SortedBy(b, key, le)
    requires forall k :: Filter(a, SameKey(key, k)) == Filter(b, SameKey(key, k))
    ensures a == b
    decreases |a| + |b|
  {
    if |a| == 0 && |b| == 0 {
    } else if |a| == 0 {
      FilterHead(b, key, key(b[0]));
    } else if |b| == 0 {
      FilterHead(a, key, key(a[0]));
    } else {
      var ka, kb := key(a[0]), key(b[0]);
      FilterHead(a, key, ka);
      FilterHead(b, key, kb);
      assert le(kb, ka) by {
        assert a[0] in Filter(a, SameKey(key, ka)) && Filter(a, SameKey(key, ka)) == Filter(b, SameKey(key, ka));
        FilterHead(b, key, ka);
        KeyBelow(b, a[0], key, le, ka);
      }
      assert le(ka, kb) by {
        assert b[0] in Filter(b, SameKey(key, kb)) && Filter(b, SameKey(key, kb)) == Filter(a, SameKey(key, kb));
        FilterHead(a, key, kb);
        KeyBelow(a, b[0], key, le, kb);
      }
      assert ka == kb;
      assert a[0] == b[0];
      var a', b' := a[1..], b[1..];
      forall k
        ensures Filter(a', SameKey(key, k)) == Filter(b', SameKey(key, k))
      {
        var p := SameKey(key, k);
        assert a == [a[0]] + a' && b == [b[0]] + b';
        FilterCons(a[0], a', p);
        FilterCons(b[0], b', p);
        var h := if p(a[0]) then [a[0]] else [];
        assert Filter(a', p) == (h + Filter(a', p))[|h|..];
      }
      assert SortedBy(a', key, le) && SortedBy(b', key, le) by {
        assert forall i :: 0 <= i < |a'| ==> a'[i] == a[i + 1];
        assert forall i :: 0 <= i < |b'| ==> b'[i] == b[i + 1];
      }
      SortedByFilters(a', b', key, le);
      assert a == [a[0]] + a' && b == [b[0]] + b';
    }
  }

  /** The subsequence of the first element's key starts with that element,
      and it holds every element of the sequence with that key. */
  lemma FilterHead<T, K>(s: seq<T>, key: T -> K, k: K)
    requires |s| > 0
    ensures key(s[0]) == k ==> |Filter(s, SameKey(key, k))| > 0 && Filter(s, SameKey(key, k))[0] == s[0]
    ensures forall y :: y in Filter(s, SameKey(key, k)) <==> y in s && key(y) == k
  {
    SameKeyAt(key, k, s[0]);
    forall y ensures y in Filter(s, SameKey(key, k)) <==> y in s && key(y) == k {
      FilterMembers(s, SameKey(key, k), y);
      SameKeyAt(key, k, y);
    }
  }

  /** In a sorted sequence holding `y`, the first key is at most `y`'s. */
  lemma KeyBelow<T, K(!new)>(s: seq<T>, y: T, key: T -> K, le: (K, K) -> bool, k: K)
    requires TotalOrder(le) && SortedBy(s, key, le) && |s| > 0
    requires y in s && key(y) == k
    ensures le(key(s[0]), k)
  {
    var j :| 0 <= j < |s| && s[j] == y;
    if j == 0 {
      assert le(k, k) || le(k, k);
    }
  }

  /** A sorted sequence is its own sort. */
  lemma {:induction false} SortBySorted<T, K(!new)>(s: seq<T>, key: T -> K, le: (K, K) -> bool)
    requires TotalOrder(le)
    requires SortedBy(s, key, le)
    ensures SortBy(s, key, le) == s
    decreases |s|
  {
    if |s| > 0 {
      SortBySorted(s[1..], key, le);
      if |s| > 1 {
        assert le(key(s[0]), key(s[1]));
      }
    }
  }

  /** Python's `<=` on str: lexicographic on code points. */
  predicate StrLe(a: string, b: string)
    decreases |a|
  {
    if |a| == 0 then true
    else if |b| == 0 then false
    else if a[0] != b[0] then a[0] < b[0]
    else StrLe(a[1..], b[1..])
  }

  lemma {:induction false} StrLeTotal(a: string, b: string)
    ensures StrLe(a, b) || StrLe(b, a)
    decreases |a|
  {
    if |a| > 0 && |b| > 0 && a[0] == b[0] {
      StrLeTotal(a[1..], b[1..]);
    }
  }

  lemma {:induction false} StrLeAntisymmetric(a: string, b: string)
    requires StrLe(a, b) && StrLe(b, a)
    ensures a == b
    decreases |a|
  {
    if |a| > 0 && |b| > 0 {
      StrLeAntisymmetric(a[1..], b[1..]);
      assert a == [a[0]] + a[1..] && b == [b[0]] + b[1..];
    }
  }

  lemma {:induction false} StrLeTransitive(a: string, b: string, c: string)
    requires StrLe(a, b) && StrLe(b, c)
    ensures StrLe(a, c)
    decreases |a|
  {
    if |a| > 0 && |b| > 0 && |c| > 0 && a[0] == b[0] && b[0] == c[0] {
      StrLeTransitive(a[1..], b[1..], c[1..]);
    }
  }

  lemma StrLeIsTotalOrder()
    ensures TotalOrder(StrLe)
  {
    forall a, b ensures StrLe(a, b) || StrLe(b, a) {
      StrLeTotal(a, b);
    }
    forall a, b | StrLe(a, b) && StrLe(b, a) ensures a == b {
      StrLeAntisymmetric(a, b);
    }
    forall a, b, c | StrLe(a, b) && StrLe(b, c) ensures StrLe(a, c) {
      StrLeTransitive(a, b, c);
    }
  }

  predicate RealLe(a: real, b: real)
  {
    a <= b
  }

  lemma RealLeIsTotalOrder()
    ensures TotalOrder(RealLe)
  {
  }
  /** `[f(x) for x in s]`. */
  function Map<A, B>(s: seq<A>, f: A -> B): (r: seq<B>)
    ensures |r| == |s|
    ensures forall i :: 0 <= i < |s| ==> r[i] == f(s[i])
  {
    seq(|s|, i requires 0 <= i < |s| => f(s[i]))
  }

  lemma MapAppend<A, B>(a: seq<A>, b: seq<A>, f: A -> B)
    ensures Map(a + b, f) == Map(a, f) + Map(b, f)
  {
  }

  /** Applying a function to every element of two permutations of each other
      gives two permutations of each other. */
  lemma {:induction false} PermMap<A, B>(a: seq<A>, b: seq<A>, f: A -> B)
    requires multiset(a) == multiset(b)
    ensures multiset(Map(a, f)) == multiset(Map(b, f))
    decreases |a|
  {
    if |a| == 0 {
      assert |b| == |multiset(b)| == 0;
    } else {
      var x := a[|a| - 1];
      var a' := a[..|a| - 1];
      assert a == a' + [x];
      assert x in multiset(b);
      var k :| 0 <= k < |b| && b[k] == x;
      var b' := b[..k] + b[k + 1..];
      assert b == b[..k] + [x] + b[k + 1..];
      assert multiset(b') == multiset(b) - multiset{x};
      PermMap(a', b', f);
      MapAppend(a', [x], f);
      MapAppend(b[..k], [x], f);
      MapAppend(b[..k] + [x], b[k + 1..], f);
      MapAppend(b[..k], b[k + 1..], f);
    }
  }

  predicate IntLe(a: int, b: int)
  {
    a <= b
  }

  lemma IntLeIsTotalOrder()
    ensures TotalOrder(IntLe)
  {
  }
}
