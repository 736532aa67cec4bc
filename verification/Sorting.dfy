/** The C library's qsort, of which callers may use only this: the result is a sorted permutation. Elements that
    compare equal may come out in any order. */
module Sorting {
  import opened Basics

  /** What qsort demands of its comparison. */
  ghost predicate Preorder<T(!new)>(cmp: (T, T) -> int) {
    && (forall a, b :: Mirrored(cmp, a, b))
    && (forall a, b, c :: Chain(cmp, a, b, c))
  }

  ghost predicate Mirrored<T>(cmp: (T, T) -> int, a: T, b: T) {
    cmp(a, b) < 0 <==> cmp(b, a) > 0
  }

  ghost predicate Chain<T>(cmp: (T, T) -> int, a: T, b: T, c: T) {
    cmp(a, b) <= 0 && cmp(b, c) <= 0 ==> cmp(a, c) <= 0
  }

  ghost predicate Sorted<T(!new)>(cmp: (T, T) -> int, s: seq<T>) {
    forall i, j :: 0 <= i < j < |s| ==> cmp(s[i], s[j]) <= 0
  }

  ghost predicate Permutation<T(!new)>(a: seq<T>, b: seq<T>) {
    multiset(a) == multiset(b)
  }

  lemma PermutationMembers<T(!new)>(a: seq<T>, b: seq<T>)
    requires Permutation(a, b)
    ensures |a| == |b|
    ensures forall x :: x in a <==> x in b
  {
    assert |a| == |multiset(a)| && |b| == |multiset(b)|;
    assert forall x :: x in a <==> x in multiset(a);
    assert forall x :: x in b <==> x in multiset(b);
  }

  lemma PermutationNoDup<T(!new)>(a: seq<T>, b: seq<T>)
    requires Permutation(a, b) && NoDup(a)
    ensures NoDup(b)
  {
    NoDupMultiset(a);
    forall i, j | 0 <= i < j < |b| ensures b[i] != b[j] {
      assert b == b[..j] + [b[j]] + b[j + 1..];
      assert multiset(b)[b[j]] <= 1;
      assert b[i] in b[..j];
    }
  }

  method Qsort<T(!new)>(s: seq<T>, cmp: (T, T) -> int) returns (r: seq<T>)
    requires Preorder(cmp)
    ensures Permutation(s, r) && Sorted(cmp, r)
  {
    r := [];
    var n := 0;
    while n < |s|
      invariant 0 <= n <= |s|
      invariant multiset(r) == multiset(s[..n]) && Sorted(cmp, r)
    {
      r := Insert(r, s[n], cmp);
      assert s[..n + 1] == s[..n] + [s[n]];
      n := n + 1;
    }
    assert s[..n] == s;
  }

  method Insert<T(!new)>(s: seq<T>, x: T, cmp: (T, T) -> int) returns (r: seq<T>)
    requires Preorder(cmp) && Sorted(cmp, s)
    ensures multiset(r) == multiset(s) + multiset{x} && Sorted(cmp, r)
  {
    var i := 0;
    while i < |s| && cmp(s[i], x) <= 0
      invariant 0 <= i <= |s|
      invariant forall k :: 0 <= k < i ==> cmp(s[k], x) <= 0
    {
      i := i + 1;
    }
    InsertSorted(s, x, i, cmp);
    r := s[..i] + [x] + s[i..];
    assert s == s[..i] + s[i..];
  }

  lemma InsertSorted<T(!new)>(s: seq<T>, x: T, i: nat, cmp: (T, T) -> int)
    requires Preorder(cmp) && Sorted(cmp, s) && i <= |s|
    requires forall k :: 0 <= k < i ==> cmp(s[k], x) <= 0
    requires i < |s| ==> cmp(s[i], x) > 0
    ensures Sorted(cmp, s[..i] + [x] + s[i..])
  {
    var r := s[..i] + [x] + s[i..];
    forall k | i <= k < |s| ensures cmp(x, s[k]) <= 0 {
      assert Mirrored(cmp, x, s[i]);
      assert Chain(cmp, x, s[i], s[k]);
    }
    forall k, l | 0 <= k < l < |r| ensures cmp(r[k], r[l]) <= 0 {
      if k == i {
        assert r[l] == s[l - 1];
      } else if l == i {
        assert r[k] == s[k];
      } else {
        var k', l' := if k < i then k else k - 1, if l < i then l else l - 1;
        assert r[k] == s[k'] && r[l] == s[l'];
      }
    }
  }
}
