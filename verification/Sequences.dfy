// Sequences as collections: which elements they have and how often.
module Sequences {
  function MapAll<T, U>(s: seq<T>, f: T -> U): (r: seq<U>)
    ensures |r| == |s| && forall k :: 0 <= k < |s| ==> r[k] == f(s[k])
  {
    seq(|s|, k requires 0 <= k < |s| => f(s[k]))
  }

  lemma {:induction false} CountOnce<T>(s: seq<T>, x: T)
    requires forall i, j :: 0 <= i < j < |s| ==> s[i] != s[j]
    ensures multiset(s)[x] == if x in s then 1 else 0
  {
    if s != [] {
      var front, last := s[..|s| - 1], s[|s| - 1];
      CountOnce(front, x);
      assert s == front + [last];
    }
  }

  lemma SameElements<T>(a: seq<T>, b: seq<T>)
    requires forall i, j :: 0 <= i < j < |a| ==> a[i] != a[j]
    requires forall i, j :: 0 <= i < j < |b| ==> b[i] != b[j]
    requires (forall x :: x in a ==> x in b) && (forall x :: x in b ==> x in a)
    ensures multiset(a) == multiset(b)
  {
    forall x | x in a || x in b ensures multiset(a)[x] == multiset(b)[x] {
      CountOnce(a, x);
      CountOnce(b, x);
    }
  }

  lemma {:induction false} Twice<T>(s: seq<T>, i: nat, j: nat)
    requires i < j < |s| && s[i] == s[j]
    ensures multiset(s)[s[i]] >= 2
  {
    assert s == s[..j] + [s[j]] + s[j + 1..];
    assert s[..j][i] in multiset(s[..j]);
  }

  lemma TakeOut<T>(rest: seq<T>, p: T, others: seq<T>) returns (front: seq<T>, back: seq<T>)
    requires multiset([p] + rest) == multiset(others)
    ensures others == front + [p] + back && multiset(rest) == multiset(front + back)
  {
    assert ([p] + rest)[0] in multiset([p] + rest);
    assert p in multiset(others);
    var i :| 0 <= i < |others| && others[i] == p;
    front, back := others[..i], others[i + 1..];
    assert others == front + [p] + back;
    assert multiset(others) == multiset(front) + multiset{p} + multiset(back);
    assert multiset(rest) == multiset([p] + rest) - multiset{p};
  }
}
