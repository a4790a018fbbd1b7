/** Notions about sequences that several modules share. */
module Lists {

  ghost predicate NoDuplicates<T>(s: seq<T>) {
    forall i, j :: 0 <= i < j < |s| ==> s[i] != s[j]
  }

  lemma Associate<T>(a: seq<T>, b: seq<T>, c: seq<T>)
    ensures a + b + c == a + (b + c)
  {
  }

  lemma {:induction false} NoDuplicatesCounts<T>(s: seq<T>, x: T)
    requires NoDuplicates(s)
    ensures multiset(s)[x] <= 1
  {
    if s != [] {
      var front, last := s[..|s| - 1], s[|s| - 1];
      assert s == front + [last];
      NoDuplicatesCounts(front, x);
      if x == last {
        assert x !in front;
      }
    }
  }

  /** A permutation of distinct elements is distinct. */
  lemma NoDuplicatesPermuted<T>(s: seq<T>, t: seq<T>)
    requires NoDuplicates(s) && multiset(s) == multiset(t)
    ensures NoDuplicates(t)
  {
    forall i, j | 0 <= i < j < |t|
      ensures t[i] != t[j]
    {
      NoDuplicatesCounts(s, t[i]);
      var a, b := t[..j], t[j..];
      assert t == a + b;
      assert t[i] in a && t[j] in b;
      assert multiset(t)[t[i]] == multiset(a)[t[i]] + multiset(b)[t[i]];
    }
  }
}
