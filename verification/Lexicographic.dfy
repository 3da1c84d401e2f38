// The order Python gives tuples of integers and strings: compare the first position
// where the two differ, and let a proper prefix come first.
module Lexicographic {
  predicate Less(a: seq<int>, b: seq<int>) {
    b != [] && (a == [] || a[0] < b[0] || (a[0] == b[0] && Less(a[1..], b[1..])))
  }

  predicate LessEq(a: seq<int>, b: seq<int>) {
    a == b || Less(a, b)
  }

  lemma {:induction false} Irreflexive(a: seq<int>)
    ensures !Less(a, a)
  {
    if a != [] { Irreflexive(a[1..]); }
  }

  lemma {:induction false} Transitive(a: seq<int>, b: seq<int>, c: seq<int>)
    requires Less(a, b) && Less(b, c)
    ensures Less(a, c)
  {
    if a != [] && a[0] == b[0] == c[0] {
      Transitive(a[1..], b[1..], c[1..]);
    }
  }

  lemma {:induction false} Total(a: seq<int>, b: seq<int>)
    ensures Less(a, b) || a == b || Less(b, a)
  {
    if a != [] && b != [] && a[0] == b[0] {
      Total(a[1..], b[1..]);
      assert a == [a[0]] + a[1..] && b == [b[0]] + b[1..];
    }
  }

  lemma Asymmetric(a: seq<int>, b: seq<int>)
    requires Less(a, b)
    ensures !LessEq(b, a)
  {
    Irreflexive(a);
    if Less(b, a) { Transitive(a, b, a); }
  }

  lemma {:induction false} ExtensionFollows(p: seq<int>, a: seq<int>)
    requires p < a
    ensures Less(p, a)
  {
    if p != [] { ExtensionFollows(p[1..], a[1..]); }
  }

  // The extensions of a prefix are contiguous, and nothing else lies between
  // the prefix and the last of them.
  lemma {:induction false} ExtensionsContiguous(p: seq<int>, a: seq<int>, b: seq<int>)
    requires Less(p, a) && LessEq(a, b) && p <= b
    ensures p < a
  {
    if a == b {
      if p == a { Irreflexive(a); }
    } else if p != [] {
      assert b[0] == p[0] && p[1..] <= b[1..];
      if a[0] == p[0] {
        ExtensionsContiguous(p[1..], a[1..], b[1..]);
        assert a == [a[0]] + a[1..] && p == [p[0]] + p[1..];
      }
    }
  }

  lemma {:induction false} CommonPrefix(p: seq<int>, a: seq<int>, b: seq<int>)
    ensures Less(p + a, p + b) <==> Less(a, b)
  {
    if p == [] {
      assert p + a == a && p + b == b;
    } else {
      CommonPrefix(p[1..], a, b);
      assert (p + a)[1..] == p[1..] + a && (p + b)[1..] == p[1..] + b;
    }
  }

  // ----- strings, ordered by code point -----

  function Codes(s: string): (c: seq<int>)
    ensures |c| == |s| && forall i :: 0 <= i < |s| ==> c[i] == s[i] as int
  {
    seq(|s|, i requires 0 <= i < |s| => s[i] as int)
  }

  lemma CodesInjective(s: string, t: string)
    requires Codes(s) == Codes(t)
    ensures s == t
  {
    forall i | 0 <= i < |s| ensures s[i] == t[i] {
      assert Codes(s)[i] == Codes(t)[i];
    }
  }

  predicate StringLess(s: string, t: string) {
    Less(Codes(s), Codes(t))
  }

  lemma StringTotal(s: string, t: string)
    ensures StringLess(s, t) || s == t || StringLess(t, s)
  {
    Total(Codes(s), Codes(t));
    if Codes(s) == Codes(t) { CodesInjective(s, t); }
  }

  // ----- sorting a set of strings, as Python's sorted() does -----

  ghost predicate Ascending(s: seq<string>) {
    forall i, j :: 0 <= i < j < |s| ==> StringLess(s[i], s[j])
  }

  lemma StringTransitive(s: string, t: string, u: string)
    requires StringLess(s, t) && StringLess(t, u)
    ensures StringLess(s, u)
  {
    Transitive(Codes(s), Codes(t), Codes(u));
  }

  predicate IsLeast(x: string, s: set<string>) {
    x in s && forall y :: y in s ==> y == x || StringLess(x, y)
  }

  lemma LeastExists(s: set<string>) returns (m: string)
    requires s != {}
    ensures IsLeast(m, s)
  {
    var x :| x in s;
    if s == {x} {
      return x;
    }
    m := LeastExists(s - {x});
    StringTotal(x, m);
    if StringLess(x, m) {
      forall y | y in s ensures y == x || StringLess(x, y) {
        if y != x && y != m {
          assert y in s - {x};
          StringTransitive(x, m, y);
        }
      }
      m := x;
    }
  }

  lemma LeastUnique(s: set<string>, x: string, z: string)
    requires IsLeast(x, s) && IsLeast(z, s)
    ensures x == z
  {
    if x != z { Asymmetric(Codes(x), Codes(z)); }
  }

  function Least(s: set<string>): (x: string)
    requires s != {}
    ensures IsLeast(x, s)
  {
    assert exists m :: IsLeast(m, s) by { var m := LeastExists(s); }
    assert forall x, z | IsLeast(x, s) && IsLeast(z, s) :: x == z by {
      forall x, z | IsLeast(x, s) && IsLeast(z, s) ensures x == z {
        LeastUnique(s, x, z);
      }
    }
    var x :| x in s && IsLeast(x, s);
    x
  }

  function Sorted(s: set<string>): (r: seq<string>)
    ensures forall x :: x in r <==> x in s
  {
    if s == {} then [] else
      var x := Least(s);
      [x] + Sorted(s - {x})
  }

  lemma {:induction false} SortedMeaning(s: set<string>)
    ensures |Sorted(s)| == |s| && Ascending(Sorted(s))
  {
    if s != {} {
      var x := Least(s);
      var rest := Sorted(s - {x});
      SortedMeaning(s - {x});
      forall y | y in rest ensures StringLess(x, y) { assert y in s && y != x; }
      LeastFirst(x, rest);
      assert Sorted(s) == [x] + rest;
    }
  }

  lemma LeastFirst(x: string, rest: seq<string>)
    requires Ascending(rest) && forall y :: y in rest ==> StringLess(x, y)
    ensures Ascending([x] + rest)
  {
    var all := [x] + rest;
    forall i, j | 0 <= i < j < |all| ensures StringLess(all[i], all[j]) {
      assert rest[j - 1] in rest;
      if i > 0 { assert all[i] == rest[i - 1]; }
    }
  }

  lemma SortedDistinct(s: set<string>)
    ensures forall i, j :: 0 <= i < j < |Sorted(s)| ==> Sorted(s)[i] != Sorted(s)[j]
  {
    SortedMeaning(s);
    forall i, j | 0 <= i < j < |Sorted(s)| ensures Sorted(s)[i] != Sorted(s)[j] {
      Irreflexive(Codes(Sorted(s)[i]));
      assert StringLess(Sorted(s)[i], Sorted(s)[j]);
    }
  }

  lemma SortedOne(k: string)
    ensures Sorted({k}) == [k]
  {
    SortedMeaning({k});
    assert Sorted({k})[0] in Sorted({k});
  }
}
