/**
 Two covers whose names, of the shape the normalizer gives, make derived ids collide: one
 on overlaps, one on triples alone. The incidence check rejects both complexes.
 */
module CollidingNames {
  import opened Options
  import opened Sequences
  import opened Names
  import opened SagaComplex
  import opened SagaProducer
  import opened SagaDerivation
  import opened ResidualDerivation

  lemma {:induction false} AtMostStrip(p: Name, a: Name, b: Name)
    ensures AtMost(p + a, p + b) <==> AtMost(a, b)
  {
    if p == "" {
      assert p + a == a && p + b == b;
    } else {
      assert (p + a)[1..] == p[1..] + a && (p + b)[1..] == p[1..] + b;
      AtMostStrip(p[1..], a, b);
    }
  }

  /** Context ids ordered by what follows their common prefix. */
  lemma InOrder(p: Name, a: Name, b: Name)
    requires a != "" && b != "" && a[0] < b[0]
    ensures SortedPair(p + a, p + b) == (p + a, p + b) == SortedPair(p + b, p + a)
  {
    AtMostStrip(p, b, a);
    AtMostStrip(p, a, b);
  }

  const COVER: Name := "cover:selected"

  lemma PairRecorded(n: Archmap, ref: Name, i: nat, target: Name)
    requires i < |n.contexts| && target in n.contexts[i].restrictsTo
    requires n.contexts[i].id in ChartSet(n, ref) && target in ChartSet(n, ref)
    ensures SortedPair(n.contexts[i].id, target) in Sources(n, ref)
  {
    var id := n.contexts[i].id;
    SourcesAre(n, ref);
    assert Restricts(n.contexts, id, target);
    assert SourceTest(n.contexts, ChartSet(n, ref))(SortedPair(id, target), id);
  }

  /** Two restricted pairs sharing an id make the incidence check and the residual
      derivation refuse, whatever is observed. */
  lemma SharedOverlapId(n: Archmap, ref: Name, p: NamePair, q: NamePair, plan: Option<LawPlan>, observe: Observer)
    requires p in Sources(n, ref) && q in Sources(n, ref) && p != q && OverlapId(p) == OverlapId(q)
    requires PlanIsSelected(plan)
    ensures !HasValidFiniteIncidence(Derived(n, ref))
    ensures ResidualFault(n, Profile("F2", ref), Derived(n, ref), plan, observe) == Some(DuplicateOverlapId)
  {
    SourcesAre(n, ref);
    var id := Sources(n, ref)[p];
    assert SourceTest(n.contexts, ChartSet(n, ref))(p, id);
    var target :| target in ChartSet(n, ref) && Restricts(n.contexts, id, target);
    DerivedIsValid(n, ref);
    DerivedFault(n, Profile("F2", ref), plan, observe);
  }

  // ---------- Overlap ids ----------

  const A: Name := "ctx:a"
  const AB: Name := "ctx:a:ctx:b"
  const BC: Name := "ctx:b:ctx:c"
  const C: Name := "ctx:c"

  const OVERLAPS_COLLIDE: Archmap :=
    Archmap([Context(A, [BC], []), Context(AB, [C], []), Context(BC, [], []), Context(C, [], [])],
            [Cover(COVER, "selected", [A, AB, BC, C])], [])

  lemma OverlapPairs()
    ensures SortedPair(A, BC) == (A, BC) && SortedPair(AB, C) == (AB, C)
    ensures A != AB
  {
    hide SortedPair;
    InOrder("ctx:", "a", "b:ctx:c");
    InOrder("ctx:", "a:ctx:b", "c");
    assert "ctx:" + "a" == A && "ctx:" + "b:ctx:c" == BC;
    assert "ctx:" + "a:ctx:b" == AB && "ctx:" + "c" == C;
  }

  lemma SameOverlapId()
    ensures OverlapId((A, BC)) == OverlapId((AB, C))
  {
    assert OverlapId((A, BC)) == "overlap:ctx:a:ctx:b:ctx:c";
    assert OverlapId((AB, C)) == "overlap:ctx:a:ctx:b:ctx:c";
  }

  /** A cover on which two overlaps share an id. */
  lemma OverlapIdsCollide(plan: Option<LawPlan>, observe: Observer)
    requires PlanIsSelected(plan)
    ensures (A, BC) in Sources(OVERLAPS_COLLIDE, COVER) && (AB, C) in Sources(OVERLAPS_COLLIDE, COVER)
    ensures (A, BC) != (AB, C) && OverlapId((A, BC)) == OverlapId((AB, C))
    ensures !HasValidFiniteIncidence(Derived(OVERLAPS_COLLIDE, COVER))
    ensures ResidualFault(OVERLAPS_COLLIDE, Profile("F2", COVER), Derived(OVERLAPS_COLLIDE, COVER), plan, observe)
         == Some(DuplicateOverlapId)
  {
    var n := OVERLAPS_COLLIDE;
    assert A in ChartSet(n, COVER) && AB in ChartSet(n, COVER) && BC in ChartSet(n, COVER) && C in ChartSet(n, COVER);
    assert n.contexts[0] == Context(A, [BC], []) && n.contexts[1] == Context(AB, [C], []) && |n.contexts| == 4;
    hide OVERLAPS_COLLIDE, A, AB, BC, C, SortedPair, Sources, ChartSet, OverlapId, Derived, ResidualFault;
    PairRecorded(n, COVER, 0, BC);
    PairRecorded(n, COVER, 1, C);
    OverlapPairs();
    SameOverlapId();
    SharedOverlapId(n, COVER, (A, BC), (AB, C), plan, observe);
  }

  // ---------- Triple ids alone ----------

  const X1: Name := "ctx:1"
  const X2: Name := "ctx:2"
  const X3: Name := "ctx:3:ctx:4:ctx:5"
  const Y1: Name := "ctx:1:ctx:2"
  const Y2: Name := "ctx:3:ctx:4"
  const Y3: Name := "ctx:5"

  const SHARED: seq<Name> := ["atom:v"]

  const TRIPLES_COLLIDE: Archmap :=
    Archmap([Context(X1, [X2, X3], SHARED), Context(Y1, [Y2, Y3], SHARED), Context(X2, [X3], SHARED),
             Context(Y2, [Y3], SHARED), Context(X3, [], SHARED), Context(Y3, [], SHARED)],
            [Cover(COVER, "selected", [X1, Y1, X2, Y2, X3, Y3])],
            [Atom("atom:v", true, Some("v"))])

  lemma {:induction false} ObservedAt(atoms: seq<Atom>, contexts: seq<Context>, charts: set<Name>, i: nat)
    requires i < |contexts| && contexts[i].id in charts
    requires forall j :: i < j < |contexts| ==> contexts[j].id != contexts[i].id
    ensures var o := ObservationsOf(atoms, contexts, charts);
            contexts[i].id in o && o[contexts[i].id] == ValuesOf(atoms, contexts[i], atoms)
  {
    var m := |contexts| - 1;
    if i < m { ObservedAt(atoms, contexts[..m], charts, i); }
  }

  lemma SixNames()
    ensures Distinct([X1, Y1, X2, Y2, X3, Y3])
  {
    assert |X1| == |X2| == |Y3| == 5 && |Y1| == |Y2| == 11 && |X3| == 17;
    assert X1[4] == '1' && X2[4] == '2' && Y3[4] == '5' && Y1[4] == '1' && Y2[4] == '3';
  }

  /** The six contexts, in order, and who restricts to whom. */
  predicate IsSixContexts(n: Archmap) {
    && Charts(n.covers, COVER) == [X1, Y1, X2, Y2, X3, Y3]
    && n.contexts == [Context(X1, [X2, X3], SHARED), Context(Y1, [Y2, Y3], SHARED), Context(X2, [X3], SHARED),
                      Context(Y2, [Y3], SHARED), Context(X3, [], SHARED), Context(Y3, [], SHARED)]
    && n.atoms == [Atom("atom:v", true, Some("v"))]
  }

  lemma SixContexts()
    ensures IsSixContexts(TRIPLES_COLLIDE)
  {
    hide X1, X2, X3, Y1, Y2, Y3, SHARED;
  }

  lemma ValueShown(n: Archmap, i: nat)
    requires IsSixContexts(n) && i < 6
    ensures var o := SiteOf(n, COVER).observations; n.contexts[i].id in o && "v" in o[n.contexts[i].id]
  {
    SixNames();
    hide X1, X2, X3, Y1, Y2, Y3;
    var charts := [X1, Y1, X2, Y2, X3, Y3];
    assert n.contexts[i].id == charts[i] && charts[i] in ChartSet(n, COVER);
    assert forall j :: i < j < 6 ==> n.contexts[j].id == charts[j];
    ObservedAt(n.atoms, n.contexts, ChartSet(n, COVER), i);
    assert n.atoms[0] in n.atoms && IsObservedId(n.atoms, n.atoms[0].id);
    assert Shows(n.atoms, n.contexts[i], n.atoms[0]);
    assert n.atoms[0].id in AtomsShowing(n.atoms, n.contexts[i], n.atoms, "v");
    ValuesHas(n.atoms, n.contexts[i], n.atoms, "v");
  }

  /** The six restricted pairs. */
  predicate IsListed(p: NamePair) {
    p in {(X1, X2), (X1, X3), (X2, X3), (Y1, Y2), (Y1, Y3), (Y2, Y3)}
  }

  lemma XPairs()
    ensures SortedPair(X1, X2) == (X1, X2) && SortedPair(X1, X3) == (X1, X3) && SortedPair(X2, X3) == (X2, X3)
  {
    hide SortedPair;
    InOrder("ctx:", "1", "2");
    InOrder("ctx:", "1", "3:ctx:4:ctx:5");
    InOrder("ctx:", "2", "3:ctx:4:ctx:5");
    assert "ctx:" + "1" == X1 && "ctx:" + "2" == X2 && "ctx:" + "3:ctx:4:ctx:5" == X3;
  }

  lemma YPairs()
    ensures SortedPair(Y1, Y2) == (Y1, Y2) && SortedPair(Y1, Y3) == (Y1, Y3) && SortedPair(Y2, Y3) == (Y2, Y3)
  {
    hide SortedPair;
    InOrder("ctx:", "1:ctx:2", "3:ctx:4");
    InOrder("ctx:", "1:ctx:2", "5");
    InOrder("ctx:", "3:ctx:4", "5");
    assert "ctx:" + "1:ctx:2" == Y1 && "ctx:" + "3:ctx:4" == Y2 && "ctx:" + "5" == Y3;
  }

  lemma PairHasSource(n: Archmap, ref: Name, p: NamePair) returns (i: nat, target: Name)
    requires p in Sources(n, ref)
    ensures i < |n.contexts| && target in n.contexts[i].restrictsTo && p == SortedPair(n.contexts[i].id, target)
  {
    SourcesAre(n, ref);
    var id := Sources(n, ref)[p];
    assert SourceTest(n.contexts, ChartSet(n, ref))(p, id);
    target :| Restricts(n.contexts, id, target) && p == SortedPair(id, target);
    i := RestrictingContext(n.contexts, id, target);
  }

  lemma RestrictingContext(contexts: seq<Context>, id: Name, target: Name) returns (i: nat)
    requires Restricts(contexts, id, target)
    ensures i < |contexts| && contexts[i].id == id && target in contexts[i].restrictsTo
  {
    var k :| 0 <= k < |contexts| && contexts[k].id == id && target in contexts[k].restrictsTo;
    i := k;
  }

  lemma Restrictions(n: Archmap, i: nat, target: Name)
    requires IsSixContexts(n) && i < |n.contexts| && target in n.contexts[i].restrictsTo
    ensures (n.contexts[i].id == X1 && target in {X2, X3}) || (n.contexts[i].id == Y1 && target in {Y2, Y3})
         || (n.contexts[i].id == X2 && target == X3) || (n.contexts[i].id == Y2 && target == Y3)
  {
    hide X1, X2, X3, Y1, Y2, Y3, SHARED;
  }

  lemma OnlyListedPairs(n: Archmap, p: NamePair)
    requires IsSixContexts(n) && p in Sources(n, COVER)
    ensures IsListed(p)
  {
    var i, target := PairHasSource(n, COVER, p);
    Restrictions(n, i, target);
    hide SortedPair, IsSixContexts, Sources, X1, X2, X3, Y1, Y2, Y3;
    XPairs();
    YPairs();
  }

  /** Enough of an id to tell the six apart: its length and two of its characters. */
  function Mark(id: Name): (nat, char, char)
    requires |id| > 18
  {
    (|id|, id[12], id[18])
  }

  lemma XMarks()
    ensures |OverlapId((X1, X2))| > 18 && Mark(OverlapId((X1, X2))) == (19, '1', '2')
    ensures |OverlapId((X1, X3))| > 18 && Mark(OverlapId((X1, X3))) == (31, '1', '3')
    ensures |OverlapId((X2, X3))| > 18 && Mark(OverlapId((X2, X3))) == (31, '2', '3')
  {
  }

  lemma YMarks()
    ensures |OverlapId((Y1, Y2))| > 18 && Mark(OverlapId((Y1, Y2))) == (31, '1', '2')
    ensures |OverlapId((Y1, Y3))| > 18 && Mark(OverlapId((Y1, Y3))) == (25, '1', '2')
    ensures |OverlapId((Y2, Y3))| > 18 && Mark(OverlapId((Y2, Y3))) == (25, '3', '4')
  {
  }

  lemma ListedIdsDiffer(p: NamePair, q: NamePair)
    requires IsListed(p) && IsListed(q) && OverlapId(p) == OverlapId(q)
    ensures p == q
  {
    XMarks();
    YMarks();
    hide OverlapId, Mark, X1, X2, X3, Y1, Y2, Y3;
  }

  lemma FaceOn(n: Archmap, i: nat, j: nat, k: nat)
    requires IsSixContexts(n) && ((i == 0 && j == 2 && k == 4) || (i == 1 && j == 3 && k == 5))
    ensures IsFace(SiteOf(n, COVER), i, j, k)
  {
    hide X1, X2, X3, Y1, Y2, Y3, SHARED;
    var s := SiteOf(n, COVER);
    assert forall l :: 0 <= l < 6 ==> n.contexts[l].id == s.charts[l] && s.charts[l] in ChartSet(n, COVER);
    ValueShown(n, i);
    ValueShown(n, j);
    ValueShown(n, k);
    assert "v" in SharedValues(s.observations, s.charts[i], s.charts[j], s.charts[k]);
    hide ObservationsOf, SortedPair, Sources, PairSources;
    PairRecorded(n, COVER, i, s.charts[j]);
    PairRecorded(n, COVER, i, s.charts[k]);
    PairRecorded(n, COVER, j, s.charts[k]);
  }

  lemma SameTripleId()
    ensures TripleId(X1, X2, X3) == TripleId(Y1, Y2, Y3)
  {
    assert TripleId(X1, X2, X3) == "triple:ctx:1:ctx:2:ctx:3:ctx:4:ctx:5";
    assert TripleId(Y1, Y2, Y3) == "triple:ctx:1:ctx:2:ctx:3:ctx:4:ctx:5";
  }

  lemma SelfRestrictsNever(n: Archmap)
    requires IsSixContexts(n)
    ensures NoSelfRestriction(n, COVER)
  {
    SixNames();
    hide X1, X2, X3, Y1, Y2, Y3, SHARED;
    var charts := [X1, Y1, X2, Y2, X3, Y3];
    assert charts[0] == X1 && charts[1] == Y1 && charts[2] == X2 && charts[3] == Y2 && charts[4] == X3 && charts[5] == Y3;
  }

  /** A cover on which overlap ids all differ and only two faces share an id: the incidence
      check refuses what the residual derivation accepts. */
  lemma OnlyTripleIdsCollide(plan: Option<LawPlan>, observe: Observer)
    requires PlanIsSelected(plan) && forall a, b :: observe(a, b).observed
    ensures var n := TRIPLES_COLLIDE;
            && Distinct(Charts(n.covers, COVER)) && NoSelfRestriction(n, COVER) && InjectivePairs(Sources(n, COVER))
            && IsFace(SiteOf(n, COVER), 0, 2, 4) && IsFace(SiteOf(n, COVER), 1, 3, 5)
            && IdAt(SiteOf(n, COVER), 0, 2, 4) == IdAt(SiteOf(n, COVER), 1, 3, 5)
            && !HasValidFiniteIncidence(Derived(n, COVER))
            && ResidualFault(n, Profile("F2", COVER), Derived(n, COVER), plan, observe) == None
  {
    var n := TRIPLES_COLLIDE;
    SixContexts();
    SixNames();
    SelfRestrictsNever(n);
    forall p, q | p in Sources(n, COVER) && q in Sources(n, COVER) && OverlapId(p) == OverlapId(q) ensures p == q {
      OnlyListedPairs(n, p);
      OnlyListedPairs(n, q);
      ListedIdsDiffer(p, q);
    }
    FaceOn(n, 0, 2, 4);
    FaceOn(n, 1, 3, 5);
    SameTripleId();
    hide TRIPLES_COLLIDE, X1, X2, X3, Y1, Y2, Y3, SHARED, OverlapId, TripleId, IsFace, ResidualFault;
    var s := SiteOf(n, COVER);
    assert s.charts == [X1, Y1, X2, Y2, X3, Y3];
    assert IdAt(s, 0, 2, 4) == IdAt(s, 1, 3, 5);
    assert Restricts(n.contexts, X1, X2) by { assert n.contexts[0].id == X1 && X2 in n.contexts[0].restrictsTo; }
    assert s.charts[0] in ChartSet(n, COVER) && s.charts[2] in ChartSet(n, COVER);
    DerivedIsValid(n, COVER);
    DerivedFault(n, Profile("F2", COVER), plan, observe);
  }
}
