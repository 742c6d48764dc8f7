/** Lists without repetition, positions in lists, and listing a set. */
module Sequences {
  predicate Distinct<T(==)>(s: seq<T>) {
    forall i, j :: 0 <= i < j < |s| ==> s[i] != s[j]
  }

  function Elements<T>(s: seq<T>): set<T> { set a | a in s }

  lemma {:induction false} DistinctOnce<T>(s: seq<T>, v: T)
    requires Distinct(s)
    ensures multiset(s)[v] <= 1
  {
    if s != [] {
      assert s == [s[0]] + s[1..];
      assert Distinct(s[1..]);
      DistinctOnce(s[1..], v);
      if v == s[0] { assert v !in s[1..]; }
    }
  }

  lemma OnceIsDistinct<T>(s: seq<T>)
    requires forall v :: multiset(s)[v] <= 1
    ensures Distinct(s)
  {
    forall i, j | 0 <= i < j < |s| ensures s[i] != s[j] {
      assert s == s[..j] + s[j..] && s[i] in s[..j] && s[j] in s[j..];
      assert multiset(s) == multiset(s[..j]) + multiset(s[j..]);
      assert multiset(s)[s[j]] == multiset(s[..j])[s[j]] + multiset(s[j..])[s[j]] <= 1;
      assert s[i] in multiset(s[..j]) && s[j] in multiset(s[j..]);
    }
  }

  lemma {:induction false} DistinctFits<T>(p: seq<T>, s: set<T>)
    requires Distinct(p) && forall a :: a in p ==> a in s
    ensures |p| <= |s|
  {
    if p != [] {
      var init := p[..|p| - 1];
      forall a | a in init ensures a in s - {p[|p| - 1]} {}
      DistinctFits(init, s - {p[|p| - 1]});
    }
  }

  function Position<T(==)>(s: seq<T>, x: T): (i: nat)
    requires x in s
    ensures i < |s| && s[i] == x
  {
    if s[0] == x then 0 else 1 + Position(s[1..], x)
  }

  lemma {:induction false} PositionInFirst<T>(s: seq<T>, t: seq<T>, x: T)
    requires x in s
    ensures Position(s + t, x) == Position(s, x)
  {
    if s[0] != x {
      assert (s + t)[1..] == s[1..] + t;
      PositionInFirst(s[1..], t, x);
    }
  }

  lemma {:induction false} PositionInSecond<T>(s: seq<T>, t: seq<T>, x: T)
    requires x !in s && x in t
    ensures Position(s + t, x) == |s| + Position(t, x)
  {
    if s == [] {
      assert s + t == t;
    } else {
      assert (s + t)[1..] == s[1..] + t && (s + t)[0] == s[0];
      PositionInSecond(s[1..], t, x);
    }
  }

  /** Lists a set without repetition; the program lists it in string order, and nothing
      below depends on the order. */
  method Enumerate<T(==)>(s: set<T>) returns (q: seq<T>)
    ensures Distinct(q) && (forall x :: x in q <==> x in s)
  {
    q := [];
    var rest := s;
    while rest != {}
      invariant rest <= s && Distinct(q)
      invariant forall x :: x in q <==> x in s - rest
      decreases |rest|
    {
      var x :| x in rest;
      assert x !in q;
      q, rest := q + [x], rest - {x};
    }
  }
}
