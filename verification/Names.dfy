/** Names in string order, and the sorting the program applies to lists of them. */
module Names {
  import opened Sequences

  type Name = string

  /** Lexicographic order by code point, which is the byte order of UTF-8 strings. */
  predicate AtMost(a: Name, b: Name) {
    a == "" || (b != "" && (a[0] < b[0] || (a[0] == b[0] && AtMost(a[1..], b[1..]))))
  }

  /** a is a prefix of b, or smaller at the first place where they differ. */
  lemma {:induction false} AtMostMeans(a: Name, b: Name)
    ensures AtMost(a, b) <==>
      a <= b || exists i :: 0 <= i < |a| && i < |b| && a[..i] == b[..i] && a[i] < b[i]
  {
    if a != "" && b != "" && a[0] == b[0] {
      AtMostMeans(a[1..], b[1..]);
      assert a == [a[0]] + a[1..] && b == [b[0]] + b[1..];
      if i :| 0 <= i < |a[1..]| && i < |b[1..]| && a[1..][..i] == b[1..][..i] && a[1..][i] < b[1..][i] {
        assert a[..i + 1] == [a[0]] + a[1..][..i] && b[..i + 1] == [b[0]] + b[1..][..i];
        assert a[i + 1] < b[i + 1];
      }
      if i :| 0 <= i < |a| && i < |b| && a[..i] == b[..i] && a[i] < b[i] {
        assert i > 0 && a[1..][..i - 1] == a[..i][1..] && b[1..][..i - 1] == b[..i][1..];
        assert a[1..][i - 1] < b[1..][i - 1];
      }
    } else if a != "" && b != "" {
      if a[0] < b[0] { assert a[..0] == b[..0]; }
      DifferAtOnce(a, b);
    }
  }

  lemma DifferAtOnce(a: Name, b: Name)
    requires a != "" && b != "" && a[0] != b[0]
    ensures forall i :: 0 < i <= |a| && i <= |b| ==> a[..i] != b[..i]
  {
    assert forall i :: 0 < i <= |a| && i <= |b| ==> a[..i][0] == a[0] && b[..i][0] == b[0];
  }

  lemma {:induction false} AtMostTotal(a: Name, b: Name)
    ensures AtMost(a, b) || AtMost(b, a)
    ensures AtMost(a, b) && AtMost(b, a) ==> a == b
  {
    if a != "" && b != "" && a[0] == b[0] {
      AtMostTotal(a[1..], b[1..]);
      assert a == [a[0]] + a[1..] && b == [b[0]] + b[1..];
    }
  }

  lemma {:induction false} AtMostTransitive(a: Name, b: Name, c: Name)
    requires AtMost(a, b) && AtMost(b, c)
    ensures AtMost(a, c)
  {
    if a != "" && a[0] == b[0] == c[0] { AtMostTransitive(a[1..], b[1..], c[1..]); }
  }

  predicate Sorted(s: seq<Name>) {
    forall i, j :: 0 <= i < j < |s| ==> AtMost(s[i], s[j])
  }

  function Insert(s: seq<Name>, x: Name): (r: seq<Name>)
    ensures multiset(r) == multiset(s) + multiset{x}
  {
    if s == [] || AtMost(x, s[0]) then
      assert [x] + s == [x] + s;
      [x] + s
    else
      assert s == [s[0]] + s[1..];
      [s[0]] + Insert(s[1..], x)
  }

  lemma {:induction false} InsertSorted(s: seq<Name>, x: Name)
    requires Sorted(s)
    ensures Sorted(Insert(s, x))
  {
    if s != [] {
      AtMostTotal(x, s[0]);
      if AtMost(x, s[0]) {
        forall j | 0 <= j < |s| ensures AtMost(x, s[j]) { if j > 0 { AtMostTransitive(x, s[0], s[j]); } }
      } else {
        var rest := Insert(s[1..], x);
        InsertSorted(s[1..], x);
        forall j | 0 <= j < |rest| ensures AtMost(s[0], rest[j]) {
          assert rest[j] in multiset(rest);
          assert rest[j] == x || rest[j] in s[1..];
        }
      }
    }
  }

  function Sort(s: seq<Name>): (r: seq<Name>)
    ensures multiset(r) == multiset(s)
  {
    if s == [] then [] else
      assert s == s[..|s| - 1] + [s[|s| - 1]];
      Insert(Sort(s[..|s| - 1]), s[|s| - 1])
  }

  lemma {:induction false} SortIsSorted(s: seq<Name>)
    ensures Sorted(Sort(s))
  {
    if s != [] {
      SortIsSorted(s[..|s| - 1]);
      InsertSorted(Sort(s[..|s| - 1]), s[|s| - 1]);
    }
  }

  lemma SortMembers(s: seq<Name>, x: Name)
    ensures x in Sort(s) <==> x in s
  {
    assert x in Sort(s) <==> x in multiset(Sort(s));
    assert x in s <==> x in multiset(s);
  }

  lemma SameFirst(s: seq<Name>, t: seq<Name>)
    requires Sorted(s) && Sorted(t) && multiset(s) == multiset(t) && s != [] && t != []
    ensures s[0] == t[0]
  {
    assert s[0] in multiset(t) && t[0] in multiset(s);
    var i :| 0 <= i < |t| && t[i] == s[0];
    var j :| 0 <= j < |s| && s[j] == t[0];
    AtMostTotal(s[0], t[0]);
  }

  /** A sorted list is determined by what it holds. */
  lemma {:induction false} SortedUnique(s: seq<Name>, t: seq<Name>)
    requires Sorted(s) && Sorted(t) && multiset(s) == multiset(t)
    ensures s == t
  {
    hide AtMost;
    assert |multiset(s)| == |s| && |multiset(t)| == |t|;
    if s != [] {
      SameFirst(s, t);
      assert s == [s[0]] + s[1..] && t == [t[0]] + t[1..];
      assert multiset(s[1..]) == multiset(s) - multiset{s[0]};
      assert multiset(t[1..]) == multiset(t) - multiset{t[0]};
      SortedUnique(s[1..], t[1..]);
    }
  }

  // ---------- Sets in order ----------

  /** How an ordered set lists its elements. */
  predicate IsListing(q: seq<Name>, s: set<Name>) {
    Sorted(q) && Distinct(q) && (forall x :: x in q ==> x in s) && (forall x :: x in s ==> x in q)
  }

  lemma ListingUnique(p: seq<Name>, q: seq<Name>, s: set<Name>)
    requires IsListing(p, s) && IsListing(q, s)
    ensures p == q
  {
    forall x ensures multiset(p)[x] == multiset(q)[x] {
      DistinctOnce(p, x);
      DistinctOnce(q, x);
      assert x in multiset(p) <==> x in p;
      assert x in multiset(q) <==> x in q;
    }
    assert multiset(p) == multiset(q);
    SortedUnique(p, q);
  }

  lemma SortLists(q: seq<Name>, s: set<Name>)
    requires Distinct(q) && forall x :: x in q <==> x in s
    ensures IsListing(Sort(q), s)
  {
    SortIsSorted(q);
    forall x ensures x in Sort(q) <==> x in s { SortMembers(q, x); }
    forall x ensures multiset(Sort(q))[x] <= 1 { DistinctOnce(q, x); }
    OnceIsDistinct(Sort(q));
  }

  lemma {:induction false} ListingExists(s: set<Name>)
    ensures exists q :: IsListing(q, s)
  {
    if s == {} {
      assert IsListing([], s);
    } else {
      var x :| x in s;
      ListingExists(s - {x});
      var q :| IsListing(q, s - {x});
      SortLists([x] + q, s);
    }
  }

  ghost function Listing(s: set<Name>): (q: seq<Name>)
    ensures IsListing(q, s)
  {
    ListingExists(s);
    var q :| IsListing(q, s);
    q
  }

  method SortedElements(s: set<Name>) returns (order: seq<Name>)
    ensures IsListing(order, s) && order == Listing(s)
  {
    var listed := Enumerate(s);
    order := Sort(listed);
    SortLists(listed, s);
    ListingUnique(order, Listing(s), s);
  }
}
