/** Dictionaries of counts in insertion order, and the stable sort by falling count. */
module Tally {

  type Dict<!K> = seq<(K, int)>

  function Get<K(==)>(d: Dict<K>, k: K): int {
    if d == [] then 0 else if d[0].0 == k then d[0].1 else Get(d[1..], k)
  }

  /** `d[k] = d.get(k, 0) + c`: a new key goes to the end. */
  function Bump<K(==)>(d: Dict<K>, k: K, c: int): Dict<K> {
    if d == [] then [(k, c)]
    else if d[0].0 == k then [(k, d[0].1 + c)] + d[1..]
    else [d[0]] + Bump(d[1..], k, c)
  }

  /** The counts of the keys with a property. */
  function SumWhere<K>(d: Dict<K>, p: K -> bool): int {
    if d == [] then 0
    else
      var rest := SumWhere(d[1..], p);
      if p(d[0].0) then d[0].1 + rest else rest
  }

  lemma {:induction false} SumWhereBump<K>(d: Dict<K>, k: K, c: int, p: K -> bool)
    ensures SumWhere(Bump(d, k, c), p) == SumWhere(d, p) + if p(k) then c else 0
  {
    if d != [] {
      var rest := if d[0].0 == k then d[1..] else Bump(d[1..], k, c);
      var first := if d[0].0 == k then (k, d[0].1 + c) else d[0];
      assert Bump(d, k, c) == [first] + rest && ([first] + rest)[1..] == rest;
      if d[0].0 != k {
        SumWhereBump(d[1..], k, c, p);
      }
    }
  }

  lemma {:induction false} SumWhereCongruent<K>(d: Dict<K>, p: K -> bool, q: K -> bool)
    requires forall i :: 0 <= i < |d| ==> p(d[i].0) == q(d[i].0)
    ensures SumWhere(d, p) == SumWhere(d, q)
  {
    if d != [] {
      SumWhereCongruent(d[1..], p, q);
    }
  }

  /** The counts of disjoint properties add up. */
  lemma {:induction false} SumWhereSplit<K>(d: Dict<K>, whole: K -> bool, p: K -> bool, q: K -> bool)
    requires forall i :: 0 <= i < |d| ==> whole(d[i].0) == (p(d[i].0) || q(d[i].0)) && !(p(d[i].0) && q(d[i].0))
    ensures SumWhere(d, whole) == SumWhere(d, p) + SumWhere(d, q)
  {
    if d != [] {
      SumWhereSplit(d[1..], whole, p, q);
    }
  }

  ghost predicate Distinct<K(!new)>(d: Dict<K>) {
    forall i, j :: 0 <= i < j < |d| ==> d[i].0 != d[j].0
  }

  ghost predicate HasKey<K(!new)>(d: Dict<K>, k: K) {
    exists i :: 0 <= i < |d| && d[i].0 == k
  }

  lemma {:induction false} BumpKeys<K(!new)>(d: Dict<K>, k: K, c: int)
    requires Distinct(d)
    ensures Distinct(Bump(d, k, c))
    ensures forall j :: HasKey(Bump(d, k, c), j) <==> HasKey(d, j) || j == k
  {
    if d == [] {
      assert Bump(d, k, c)[0].0 == k;
    } else {
      assert d == [d[0]] + d[1..];
      KeysCons(d[0], d[1..]);
      if d[0].0 == k {
        KeysCons((k, d[0].1 + c), d[1..]);
      } else {
        BumpKeys(d[1..], k, c);
        KeysCons(d[0], Bump(d[1..], k, c));
      }
    }
  }

  lemma KeysCons<K(!new)>(e: (K, int), d: Dict<K>)
    ensures forall j :: HasKey([e] + d, j) <==> e.0 == j || HasKey(d, j)
    ensures Distinct([e] + d) <==> Distinct(d) && !HasKey(d, e.0)
  {
    var s := [e] + d;
    assert s[0] == e && forall i :: 0 <= i < |d| ==> s[i + 1] == d[i];
    assert forall i :: 0 < i < |s| ==> s[i] == d[i - 1];
  }

  /** With distinct keys, one key alone counts what is stored under it. */
  lemma {:induction false} SumWhereOne<K(!new)>(d: Dict<K>, k: K, p: K -> bool)
    requires Distinct(d) && forall j :: p(j) <==> j == k
    ensures SumWhere(d, p) == Get(d, k)
  {
    if d != [] {
      assert d == [d[0]] + d[1..];
      KeysCons(d[0], d[1..]);
      SumWhereOne(d[1..], k, p);
      if d[0].0 == k {
        GetMissing(d[1..], k);
      }
    }
  }

  lemma {:induction false} GetMissing<K(!new)>(d: Dict<K>, k: K)
    requires !HasKey(d, k)
    ensures Get(d, k) == 0
  {
    if d != [] {
      assert d == [d[0]] + d[1..];
      KeysCons(d[0], d[1..]);
      GetMissing(d[1..], k);
    }
  }

  // ---- Sums of lists ----

  function SumOf<T>(s: seq<T>, f: T -> int): int {
    if s == [] then 0 else SumOf(s[..|s| - 1], f) + f(s[|s| - 1])
  }

  lemma SumOfAppend<T>(s: seq<T>, x: T, f: T -> int)
    ensures SumOf(s + [x], f) == SumOf(s, f) + f(x)
  {
    assert (s + [x])[..|s|] == s;
  }

  lemma {:induction false} SumOfConcat<T>(a: seq<T>, b: seq<T>, f: T -> int)
    ensures SumOf(a + b, f) == SumOf(a, f) + SumOf(b, f)
  {
    if b == [] {
      assert a + b == a;
    } else {
      var n := |b| - 1;
      SumOfConcat(a, b[..n], f);
      assert a + b == (a + b[..n]) + [b[n]];
      SumOfAppend(a + b[..n], b[n], f);
    }
  }

  // ---- Sorting ----

  /** Behind every element with at least the same key. */
  function InsertDesc<T>(s: seq<T>, x: T, key: T -> int): seq<T> {
    if s == [] || key(s[|s| - 1]) >= key(x) then s + [x]
    else InsertDesc(s[..|s| - 1], x, key) + [s[|s| - 1]]
  }

  /** `sorted(s, key=key, reverse=True)`. */
  function SortDesc<T>(s: seq<T>, key: T -> int): seq<T> {
    if s == [] then [] else InsertDesc(SortDesc(s[..|s| - 1], key), s[|s| - 1], key)
  }

  ghost predicate Descending<T>(s: seq<T>, key: T -> int) {
    forall i, j :: 0 <= i < j < |s| ==> key(s[i]) >= key(s[j])
  }

  lemma {:induction false} InsertKeepsElements<T>(s: seq<T>, x: T, key: T -> int)
    ensures multiset(InsertDesc(s, x, key)) == multiset(s) + multiset{x}
  {
    if s != [] && key(s[|s| - 1]) < key(x) {
      var front, last := s[..|s| - 1], s[|s| - 1];
      assert s == front + [last];
      InsertKeepsElements(front, x, key);
    }
  }

  /** No element of `s` has a smaller key than `x`. */
  ghost predicate NoneBelow<T>(s: seq<T>, x: T, key: T -> int) {
    forall i :: 0 <= i < |s| ==> key(s[i]) >= key(x)
  }

  lemma {:induction false} InsertKeepsBound<T>(s: seq<T>, x: T, low: T, key: T -> int)
    requires NoneBelow(s, low, key) && key(x) >= key(low)
    ensures NoneBelow(InsertDesc(s, x, key), low, key)
  {
    if s != [] && key(s[|s| - 1]) < key(x) {
      InsertKeepsBound(s[..|s| - 1], x, low, key);
    }
  }

  lemma DescendingSnoc<T>(s: seq<T>, x: T, key: T -> int)
    ensures Descending(s + [x], key) <==> Descending(s, key) && NoneBelow(s, x, key)
  {
    var r := s + [x];
    assert r[|s|] == x && forall i :: 0 <= i < |s| ==> r[i] == s[i];
  }

  lemma {:induction false} InsertKeepsOrder<T>(s: seq<T>, x: T, key: T -> int)
    requires Descending(s, key)
    ensures Descending(InsertDesc(s, x, key), key)
  {
    if s == [] || key(s[|s| - 1]) >= key(x) {
      DescendingSnoc(s, x, key);
    } else {
      var front, last := s[..|s| - 1], s[|s| - 1];
      assert s == front + [last];
      DescendingSnoc(front, last, key);
      InsertKeepsOrder(front, x, key);
      InsertKeepsBound(front, x, last, key);
      DescendingSnoc(InsertDesc(front, x, key), last, key);
    }
  }

  /** Sorting orders the elements by falling key and keeps each of them. */
  lemma {:induction false} SortOrders<T>(s: seq<T>, key: T -> int)
    ensures Descending(SortDesc(s, key), key) && multiset(SortDesc(s, key)) == multiset(s)
  {
    if s != [] {
      var n := |s| - 1;
      SortOrders(s[..n], key);
      assert s == s[..n] + [s[n]];
      InsertKeepsOrder(SortDesc(s[..n], key), s[n], key);
      InsertKeepsElements(SortDesc(s[..n], key), s[n], key);
    }
  }

  /** The elements with one key, in order. */
  function OfKey<T>(s: seq<T>, key: T -> int, v: int): seq<T> {
    if s == [] then []
    else
      var before, last := OfKey(s[..|s| - 1], key, v), s[|s| - 1];
      if key(last) == v then before + [last] else before
  }

  lemma OfKeySnoc<T>(s: seq<T>, x: T, key: T -> int, v: int)
    ensures OfKey(s + [x], key, v) == if key(x) == v then OfKey(s, key, v) + [x] else OfKey(s, key, v)
  {
    assert (s + [x])[..|s|] == s;
  }

  lemma {:induction false} InsertIsStable<T>(s: seq<T>, x: T, key: T -> int, v: int)
    ensures OfKey(InsertDesc(s, x, key), key, v) == OfKey(s + [x], key, v)
  {
    if s != [] && key(s[|s| - 1]) < key(x) {
      var front, last := s[..|s| - 1], s[|s| - 1];
      assert s == front + [last];
      InsertIsStable(front, x, key, v);
      OfKeySnoc(InsertDesc(front, x, key), last, key, v);
      OfKeySnoc(front, x, key, v);
      OfKeySnoc(front, last, key, v);
      OfKeySnoc(s, x, key, v);
    }
  }

  /** Sorting leaves elements with equal keys in their order. */
  lemma {:induction false} SortIsStable<T>(s: seq<T>, key: T -> int, v: int)
    ensures OfKey(SortDesc(s, key), key, v) == OfKey(s, key, v)
  {
    if s != [] {
      var front, last := s[..|s| - 1], s[|s| - 1];
      assert s == front + [last];
      SortIsStable(front, key, v);
      InsertIsStable(SortDesc(front, key), last, key, v);
      OfKeySnoc(SortDesc(front, key), last, key, v);
      OfKeySnoc(front, last, key, v);
    }
  }

  lemma {:induction false} SumOfInsert<T>(s: seq<T>, x: T, key: T -> int, f: T -> int)
    ensures SumOf(InsertDesc(s, x, key), f) == SumOf(s, f) + f(x)
  {
    if s == [] || key(s[|s| - 1]) >= key(x) {
      SumOfAppend(s, x, f);
    } else {
      SumOfInsert(s[..|s| - 1], x, key, f);
      SumOfAppend(InsertDesc(s[..|s| - 1], x, key), s[|s| - 1], f);
    }
  }

  lemma {:induction false} SumOfSort<T>(s: seq<T>, key: T -> int, f: T -> int)
    ensures SumOf(SortDesc(s, key), f) == SumOf(s, f)
  {
    if s != [] {
      SumOfSort(s[..|s| - 1], key, f);
      SumOfInsert(SortDesc(s[..|s| - 1], key), s[|s| - 1], key, f);
    }
  }

  lemma {:induction false} InsertKeepsKeys<K(!new)>(s: Dict<K>, x: (K, int), key: ((K, int)) -> int)
    requires Distinct(s) && !HasKey(s, x.0)
    ensures Distinct(InsertDesc(s, x, key))
    ensures forall j :: HasKey(InsertDesc(s, x, key), j) <==> HasKey(s, j) || j == x.0
  {
    if s == [] || key(s[|s| - 1]) >= key(x) {
      KeysSnoc(s, x);
    } else {
      var front, last := s[..|s| - 1], s[|s| - 1];
      assert s == front + [last];
      KeysSnoc(front, last);
      InsertKeepsKeys(front, x, key);
      KeysSnoc(InsertDesc(front, x, key), last);
    }
  }

  lemma KeysSnoc<K(!new)>(d: Dict<K>, e: (K, int))
    ensures forall j :: HasKey(d + [e], j) <==> e.0 == j || HasKey(d, j)
    ensures Distinct(d + [e]) <==> Distinct(d) && !HasKey(d, e.0)
  {
    var s := d + [e];
    assert s[|d|] == e && forall i :: 0 <= i < |d| ==> s[i] == d[i];
  }

  lemma {:induction false} SortKeepsKeys<K(!new)>(d: Dict<K>, key: ((K, int)) -> int)
    requires Distinct(d)
    ensures Distinct(SortDesc(d, key))
    ensures forall j :: HasKey(SortDesc(d, key), j) <==> HasKey(d, j)
  {
    if d != [] {
      var front, last := d[..|d| - 1], d[|d| - 1];
      assert d == front + [last];
      KeysSnoc(front, last);
      SortKeepsKeys(front, key);
      InsertKeepsKeys(SortDesc(front, key), last, key);
    }
  }
}
