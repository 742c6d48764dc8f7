/**
 What tools/archsig/src/saga_complex.rs derives, in terms of the covers, contexts and atoms
 alone: which overlaps, which triples, with which atoms, and in which order.
 */
module DerivedMeaning {
  import opened Sequences
  import opened Names
  import opened Options
  import opened SagaComplex
  import opened SagaProducer
  import opened SagaDerivation

  // ---------- Charts ----------

  predicate Selects(cover: Cover, ref: Name) { cover.id == ref || cover.sourceId == ref }

  /** The charts are those of the first cover the reference selects, none when it selects none. */
  lemma {:induction false} ChartsMean(covers: seq<Cover>, ref: Name, i: nat)
    requires i <= |covers| && forall j :: 0 <= j < i ==> !Selects(covers[j], ref)
    requires i < |covers| ==> Selects(covers[i], ref)
    ensures Charts(covers, ref) == if i < |covers| then covers[i].contextIds else []
  {
    if i > 0 {
      assert !Selects(covers[0], ref);
      ChartsMean(covers[1..], ref, i - 1);
    }
  }

  // ---------- Overlaps ----------

  /** One of the two restricts to the other. */
  predicate Linked(n: Archmap, a: Name, b: Name) {
    Restricts(n.contexts, a, b) || Restricts(n.contexts, b, a)
  }

  lemma SameSortedPair(a: Name, b: Name, c: Name, d: Name)
    ensures SortedPair(a, b) == SortedPair(c, d) <==> (a == c && b == d) || (a == d && b == c)
  {
    AtMostTotal(a, b);
    AtMostTotal(c, d);
  }

  lemma SourceIffLinked(n: Archmap, ref: Name, a: Name, b: Name)
    requires a in ChartSet(n, ref) && b in ChartSet(n, ref)
    ensures SortedPair(a, b) in Sources(n, ref) <==> Linked(n, a, b)
  {
    SourcesAre(n, ref);
    var charts, sources, p := ChartSet(n, ref), Sources(n, ref), SortedPair(a, b);
    SameSortedPair(a, b, b, a);
    if Restricts(n.contexts, a, b) { assert SourceTest(n.contexts, charts)(p, a); }
    if Restricts(n.contexts, b, a) { assert SourceTest(n.contexts, charts)(p, b); }
    if p in sources {
      assert SourceTest(n.contexts, charts)(p, sources[p]);
      var t :| Restricts(n.contexts, sources[p], t) && p == SortedPair(sources[p], t);
      SameSortedPair(a, b, sources[p], t);
    }
  }

  /** The overlap of two linked charts: ends in name order, and the least context that
      restricts to the other. */
  predicate IsDerivedOverlap(n: Archmap, ref: Name, e: Overlap) {
    && e.left in Charts(n.covers, ref) && e.right in Charts(n.covers, ref)
    && AtMost(e.left, e.right) && Linked(n, e.left, e.right)
    && e.id == "overlap:" + e.left + ":" + e.right
    && e.contextRef == Some(if Restricts(n.contexts, e.left, e.right) then e.left else e.right)
  }

  lemma SortedEnds(a: Name, b: Name)
    requires AtMost(a, b)
    ensures SortedPair(a, b) == (a, b)
  {
    AtMostTotal(a, b);
  }

  lemma LeastSource(n: Archmap, ref: Name, p: NamePair)
    requires p in Sources(n, ref)
    ensures IsDerivedOverlap(n, ref, MakeOverlap(p, Sources(n, ref)[p]))
  {
    SourcesAre(n, ref);
    var charts, source := ChartSet(n, ref), Sources(n, ref)[p];
    assert SourceTest(n.contexts, charts)(p, source);
    var t :| t in charts && Restricts(n.contexts, source, t) && p == SortedPair(source, t);
    AtMostTotal(source, t);
    SortedEnds(p.0, p.1);
    SourceIffLinked(n, ref, p.0, p.1);
    if Restricts(n.contexts, p.0, p.1) {
      assert SourceTest(n.contexts, charts)(p, p.0);
      AtMostTotal(source, p.0);
    }
  }

  /** The derived overlaps are exactly the linked pairs of charts. */
  lemma DerivedOverlapsMean(n: Archmap, ref: Name, e: Overlap)
    ensures e in Derived(n, ref).overlaps <==> IsDerivedOverlap(n, ref, e)
  {
    var pairs, sources, overlaps := DerivedPairs(n, ref), Sources(n, ref), Derived(n, ref).overlaps;
    if e in overlaps {
      var i :| 0 <= i < |overlaps| && overlaps[i] == e;
      assert pairs[i] in pairs;
      LeastSource(n, ref, pairs[i]);
    }
    if IsDerivedOverlap(n, ref, e) {
      var p := (e.left, e.right);
      SortedEnds(e.left, e.right);
      SourceIffLinked(n, ref, e.left, e.right);
      assert p in pairs;
      var i :| 0 <= i < |pairs| && pairs[i] == p;
      LeastSource(n, ref, p);
      assert overlaps[i] == MakeOverlap(p, sources[p]);
      assert MakeOverlap(p, sources[p]) == e;
    }
  }

  /** Pairs in order: first ends first. */
  predicate PairBefore(p: NamePair, q: NamePair) {
    (p.0 != q.0 && AtMost(p.0, q.0)) || (p.0 == q.0 && p.1 != q.1 && AtMost(p.1, q.1))
  }

  predicate PairsOrdered(pairs: seq<NamePair>) {
    forall i, j :: 0 <= i < j < |pairs| ==> PairBefore(pairs[i], pairs[j])
  }

  lemma {:induction false} PairsOfOrdered(left: Name, order: seq<Name>, sources: map<NamePair, Name>)
    requires Sorted(order) && Distinct(order)
    ensures PairsOrdered(PairsOf(left, order, sources))
  {
    if order != [] {
      var m := |order| - 1;
      PairsOfOrdered(left, order[..m], sources);
      PairsOfAre(left, order[..m], sources);
      var before, r := PairsOf(left, order[..m], sources), PairsOf(left, order, sources);
      forall i, j | 0 <= i < j < |r| ensures PairBefore(r[i], r[j]) {
        if j == |before| {
          assert before[i] in before;
          var k :| 0 <= k < m && order[..m][k] == before[i].1;
          assert AtMost(order[k], order[m]) && order[k] != order[m];
        }
      }
    }
  }

  lemma OrderedConcat(a: seq<NamePair>, b: seq<NamePair>)
    requires PairsOrdered(a) && PairsOrdered(b) && forall p, q :: p in a && q in b ==> PairBefore(p, q)
    ensures PairsOrdered(a + b)
  {
    forall i, j | 0 <= i < j < |a + b| ensures PairBefore((a + b)[i], (a + b)[j]) {
      if i < |a| <= j { assert a[i] in a && b[j - |a|] in b; }
    }
  }

  lemma FirstEndsInOrder(order: seq<Name>, m: nat, p: NamePair, q: NamePair)
    requires Sorted(order) && Distinct(order) && m < |order| && p.0 in order[..m] && q.0 == order[m]
    ensures PairBefore(p, q)
  {
    var k :| 0 <= k < m && order[..m][k] == p.0;
    assert AtMost(order[k], order[m]) && order[k] != order[m];
  }

  lemma RoundsInOrder(order: seq<Name>, m: nat, sources: map<NamePair, Name>, p: NamePair, q: NamePair)
    requires Sorted(order) && Distinct(order) && m < |order|
    requires p in PairsUpTo(order, m, sources) && q in PairsOf(order[m], order, sources)
    ensures PairBefore(p, q)
  {
    PairsUpToAre(order, m, sources);
    PairsOfAre(order[m], order, sources);
    FirstEndsInOrder(order, m, p, q);
  }

  lemma NoRounds(order: seq<Name>, sources: map<NamePair, Name>)
    ensures PairsOrdered(PairsUpTo(order, 0, sources))
  {
  }

  lemma NextRound(order: seq<Name>, m: nat, sources: map<NamePair, Name>)
    requires m < |order|
    ensures PairsUpTo(order, m + 1, sources) == PairsUpTo(order, m, sources) + PairsOf(order[m], order, sources)
  {
  }

  lemma {:induction false} PairsUpToOrdered(order: seq<Name>, m: nat, sources: map<NamePair, Name>)
    requires Sorted(order) && Distinct(order) && m <= |order|
    ensures PairsOrdered(PairsUpTo(order, m, sources))
  {
    hide *;
    if m == 0 {
      NoRounds(order, sources);
    } else {
      PairsUpToOrdered(order, m - 1, sources);
      PairsOfOrdered(order[m - 1], order, sources);
      forall p, q | p in PairsUpTo(order, m - 1, sources) && q in PairsOf(order[m - 1], order, sources) ensures PairBefore(p, q) {
        RoundsInOrder(order, m - 1, sources, p, q);
      }
      OrderedConcat(PairsUpTo(order, m - 1, sources), PairsOf(order[m - 1], order, sources));
      NextRound(order, m - 1, sources);
    }
  }

  /** The derived overlaps come in the order of their ends. */
  lemma DerivedOverlapsOrdered(n: Archmap, ref: Name, i: nat, j: nat)
    requires i < j < |Derived(n, ref).overlaps|
    ensures var o := Derived(n, ref).overlaps; PairBefore((o[i].left, o[i].right), (o[j].left, o[j].right))
  {
    var order := Listing(ChartSet(n, ref));
    PairsUpToOrdered(order, |order|, Sources(n, ref));
    var pairs := DerivedPairs(n, ref);
    assert PairBefore(pairs[i], pairs[j]);
  }

  // ---------- Section values ----------

  /** The context observed under a name: the last one listed. */
  predicate IsObserved(contexts: seq<Context>, i: int, id: Name) {
    0 <= i < |contexts| && contexts[i].id == id && forall j :: i < j < |contexts| ==> contexts[j].id != id
  }

  /** An atom with this id and value is listed by the chart's context, and the id is that of
      a section value. */
  ghost predicate ShownAt(n: Archmap, chart: Name, value: Name, id: Name) {
    && (exists i :: IsObserved(n.contexts, i, chart) && id in n.contexts[i].atoms)
    && (exists a :: a in n.atoms && a.id == id && a.value == Some(value))
    && (exists a :: a in n.atoms && a.id == id && a.isSectionValue)
  }

  lemma {:induction false} ObservationsAt(atoms: seq<Atom>, contexts: seq<Context>, charts: set<Name>, id: Name)
    requires id in charts
    ensures id in ObservationsOf(atoms, contexts, charts) <==> exists i :: IsObserved(contexts, i, id)
    ensures forall i :: IsObserved(contexts, i, id) ==>
      id in ObservationsOf(atoms, contexts, charts) && ObservationsOf(atoms, contexts, charts)[id] == ValuesOf(atoms, contexts[i], atoms)
  {
    if contexts != [] {
      var m := |contexts| - 1;
      ObservationsAt(atoms, contexts[..m], charts, id);
      if contexts[m].id == id {
        assert IsObserved(contexts, m, id);
      } else {
        forall i ensures IsObserved(contexts, i, id) <==> IsObserved(contexts[..m], i, id) {
          if IsObserved(contexts[..m], i, id) {
            forall j | i < j < |contexts| ensures contexts[j].id != id { assert j < m ==> contexts[..m][j].id != id; }
          }
          if IsObserved(contexts, i, id) {
            assert i < m;
            forall j | i < j < m ensures contexts[..m][j].id != id { assert contexts[j].id != id; }
          }
        }
      }
    }
  }

  lemma ObservedOnce(contexts: seq<Context>, i: int, j: int, id: Name)
    requires IsObserved(contexts, i, id) && IsObserved(contexts, j, id)
    ensures i == j
  {
  }

  lemma SectionIdMeans(atoms: seq<Atom>, id: Name)
    ensures IsObservedId(atoms, id) <==> exists a :: a in atoms && a.id == id && a.isSectionValue
  {
    if i :| 0 <= i < |atoms| && atoms[i].isSectionValue && atoms[i].id == id { assert atoms[i] in atoms; }
    if a :| a in atoms && a.id == id && a.isSectionValue {
      var i :| 0 <= i < |atoms| && atoms[i] == a;
    }
  }

  /** Whether an atom is observed at a chart under a value. */
  predicate AtomObserved(o: Observations, chart: Name, value: Name, id: Name) {
    chart in o && value in o[chart] && id in o[chart][value]
  }

  lemma ShowsInContext(n: Archmap, context: Context, value: Name, id: Name)
    ensures id in AtomsShowing(n.atoms, context, n.atoms, value) <==>
      && id in context.atoms
      && (exists a :: a in n.atoms && a.id == id && a.value == Some(value))
      && (exists a :: a in n.atoms && a.id == id && a.isSectionValue)
  {
    SectionIdMeans(n.atoms, id);
    if id in AtomsShowing(n.atoms, context, n.atoms, value) {
      var a :| a in n.atoms && Shows(n.atoms, context, a) && a.value.value == value && a.id == id;
    }
    if a :| a in n.atoms && a.id == id && a.value == Some(value) {
      if id in context.atoms && IsObservedId(n.atoms, id) { assert Shows(n.atoms, context, a); }
    }
  }

  /** Observations read off contexts and atoms. */
  lemma ObservedIffShown(n: Archmap, ref: Name, chart: Name, value: Name, id: Name)
    requires chart in ChartSet(n, ref)
    ensures AtomObserved(SiteOf(n, ref).observations, chart, value, id) <==> ShownAt(n, chart, value, id)
  {
    var o := SiteOf(n, ref).observations;
    ObservationsAt(n.atoms, n.contexts, ChartSet(n, ref), chart);
    hide ObservationsOf, AtomsShowing, ChartSet;
    if i :| IsObserved(n.contexts, i, chart) {
      var context := n.contexts[i];
      assert chart in o && o[chart] == ValuesOf(n.atoms, context, n.atoms);
      ShowsInContext(n, context, value, id);
      ValuesHas(n.atoms, context, n.atoms, value);
      forall j | IsObserved(n.contexts, j, chart) ensures j == i { ObservedOnce(n.contexts, i, j, chart); }
    }
  }

  lemma ValueHasAtom(n: Archmap, ref: Name, chart: Name, value: Name)
    requires chart in ChartSet(n, ref)
    ensures var o := SiteOf(n, ref).observations;
            chart in o && value in o[chart] <==> exists id :: ShownAt(n, chart, value, id)
  {
    var o := SiteOf(n, ref).observations;
    forall id ensures AtomObserved(o, chart, value, id) <==> ShownAt(n, chart, value, id) { ObservedIffShown(n, ref, chart, value, id); }
    hide ShownAt;
    if chart in o && value in o[chart] {
      var id :| id in o[chart][value];
      assert AtomObserved(o, chart, value, id);
    }
    if id :| ShownAt(n, chart, value, id) { assert AtomObserved(o, chart, value, id); }
  }

  // ---------- Triples ----------

  /** The value is shown at all three charts. */
  ghost predicate SharedAt(n: Archmap, a: Name, b: Name, c: Name, value: Name) {
    (exists id :: ShownAt(n, a, value, id)) && (exists id :: ShownAt(n, b, value, id)) && (exists id :: ShownAt(n, c, value, id))
  }

  function DerivedId(a: Name, b: Name): Name {
    if AtMost(a, b) then "overlap:" + a + ":" + b else "overlap:" + b + ":" + a
  }

  /** The triple over three charts that share a value and are pairwise linked; its atoms are
      those showing a shared value at one of the three. */
  ghost predicate IsDerivedTriple(n: Archmap, a: Name, b: Name, c: Name, t: Triple) {
    && (exists value :: SharedAt(n, a, b, c, value))
    && Linked(n, a, b) && Linked(n, a, c) && Linked(n, b, c)
    && t.id == "triple:" + a + ":" + b + ":" + c
    && t.overlapRefs == [DerivedId(a, b), DerivedId(a, c), DerivedId(b, c)]
    && Sorted(t.atomRefs) && Distinct(t.atomRefs)
    && forall id :: id in t.atomRefs <==> IsSharedAtom(n, a, b, c, id)
  }

  ghost predicate IsSharedAtom(n: Archmap, a: Name, b: Name, c: Name, id: Name) {
    exists value :: SharedAt(n, a, b, c, value) && (ShownAt(n, a, value, id) || ShownAt(n, b, value, id) || ShownAt(n, c, value, id))
  }

  lemma DerivedIdIs(a: Name, b: Name)
    ensures OverlapId(SortedPair(a, b)) == DerivedId(a, b)
  {
    AtMostTotal(a, b);
  }

  lemma SharedIffObserved(n: Archmap, ref: Name, a: Name, b: Name, c: Name, value: Name)
    requires {a, b, c} <= ChartSet(n, ref)
    ensures value in SharedValues(SiteOf(n, ref).observations, a, b, c) <==> SharedAt(n, a, b, c, value)
  {
    ValueHasAtom(n, ref, a, value);
    ValueHasAtom(n, ref, b, value);
    ValueHasAtom(n, ref, c, value);
  }

  lemma SharedAtomIffObserved(n: Archmap, ref: Name, a: Name, b: Name, c: Name, id: Name)
    requires {a, b, c} <= ChartSet(n, ref)
    ensures id in SharedAtoms(SiteOf(n, ref).observations, a, b, c) <==> IsSharedAtom(n, a, b, c, id)
  {
    var o := SiteOf(n, ref).observations;
    forall value ensures value in SharedValues(o, a, b, c) <==> SharedAt(n, a, b, c, value) { SharedIffObserved(n, ref, a, b, c, value); }
    forall value ensures AtomObserved(o, a, value, id) <==> ShownAt(n, a, value, id) { ObservedIffShown(n, ref, a, value, id); }
    forall value ensures AtomObserved(o, b, value, id) <==> ShownAt(n, b, value, id) { ObservedIffShown(n, ref, b, value, id); }
    forall value ensures AtomObserved(o, c, value, id) <==> ShownAt(n, c, value, id) { ObservedIffShown(n, ref, c, value, id); }
    hide ShownAt, SharedAt, SiteOf;
    if id in SharedAtoms(o, a, b, c) {
      var value :| value in SharedValues(o, a, b, c) && id in o[a][value] + o[b][value] + o[c][value];
      assert SharedAt(n, a, b, c, value);
    }
    if IsSharedAtom(n, a, b, c, id) {
      var value :| SharedAt(n, a, b, c, value) && (ShownAt(n, a, value, id) || ShownAt(n, b, value, id) || ShownAt(n, c, value, id));
      assert value in SharedValues(o, a, b, c);
      assert id in o[a][value] + o[b][value] + o[c][value];
    }
  }

  lemma FaceIffShared(n: Archmap, ref: Name, a: Name, b: Name, c: Name)
    requires {a, b, c} <= ChartSet(n, ref)
    ensures HasFace(SiteOf(n, ref), a, b, c) <==>
      (exists value :: SharedAt(n, a, b, c, value)) && Linked(n, a, b) && Linked(n, a, c) && Linked(n, b, c)
  {
    var values := SharedValues(SiteOf(n, ref).observations, a, b, c);
    forall value ensures value in values <==> SharedAt(n, a, b, c, value) { SharedIffObserved(n, ref, a, b, c, value); }
    SourceIffLinked(n, ref, a, b);
    SourceIffLinked(n, ref, a, c);
    SourceIffLinked(n, ref, b, c);
    hide SharedAt, Linked, SharedValues, SortedPair, Sources;
  }

  /** A derived triple at three positions is what contexts and atoms say. */
  lemma FaceMeans(n: Archmap, ref: Name, i: nat, j: nat, k: nat, t: Triple)
    requires i < j < k < |Charts(n.covers, ref)|
    ensures var charts := Charts(n.covers, ref);
            FaceAt(SiteOf(n, ref), i, j, k, t) <==> IsDerivedTriple(n, charts[i], charts[j], charts[k], t)
  {
    var s := SiteOf(n, ref);
    var a, b, c := s.charts[i], s.charts[j], s.charts[k];
    assert {a, b, c} <= ChartSet(n, ref);
    FaceIffShared(n, ref, a, b, c);
    DerivedIdIs(a, b);
    DerivedIdIs(a, c);
    DerivedIdIs(b, c);
    var atoms := SharedAtoms(s.observations, a, b, c);
    forall id ensures id in atoms <==> IsSharedAtom(n, a, b, c, id) { SharedAtomIffObserved(n, ref, a, b, c, id); }
    hide HasFace, SharedAtoms, IsSharedAtom, SharedAt, Linked, SortedPair, OverlapId, DerivedId, SiteOf;
    if IsDerivedTriple(n, a, b, c, t) {
      assert IsListing(t.atomRefs, atoms);
      ListingUnique(t.atomRefs, Listing(atoms), atoms);
    }
  }

  /** The derived triples, from covers, contexts and atoms alone. */
  lemma DerivedTriplesMean(n: Archmap, ref: Name, t: Triple)
    ensures var charts := Charts(n.covers, ref);
            t in Derived(n, ref).triples <==>
              exists i: nat, j: nat, k: nat :: i < j < k < |charts| && IsDerivedTriple(n, charts[i], charts[j], charts[k], t)
  {
    var s, charts := SiteOf(n, ref), Charts(n.covers, ref);
    FirstLoopHas(s, |charts|, t);
    hide IsDerivedTriple, FaceAt, FirstLoop;
    if i: nat, j: nat, k: nat :| i < |charts| && FaceAt(s, i, j, k, t) {
      FaceInRange(s, i, j, k, t);
      FaceMeans(n, ref, i, j, k, t);
    }
    if i: nat, j: nat, k: nat :| i < j < k < |charts| && IsDerivedTriple(n, charts[i], charts[j], charts[k], t) {
      FaceMeans(n, ref, i, j, k, t);
      assert FaceAt(s, i, j, k, t);
    }
  }

  lemma FaceInRange(s: Site, i: nat, j: nat, k: nat, t: Triple)
    requires FaceAt(s, i, j, k, t)
    ensures i < j < k < |s.charts|
  {
  }

  // ---------- The order of triples ----------

  /** Positions in lexicographic order. */
  predicate Earlier(i: nat, j: nat, k: nat, l: nat, m: nat, o: nat) {
    i < l || (i == l && (j < m || (j == m && k < o)))
  }

  /** The first triple sits at earlier chart positions than the second. */
  ghost predicate FacesInOrder(s: Site, t: Triple, u: Triple) {
    exists i: nat, j: nat, k: nat, l: nat, m: nat, o: nat ::
      FaceAt(s, i, j, k, t) && FaceAt(s, l, m, o, u) && Earlier(i, j, k, l, m, o)
  }

  lemma PlacesInOrder(s: Site, i: nat, j: nat, k: nat, t: Triple, l: nat, m: nat, o: nat, u: Triple)
    requires FaceAt(s, i, j, k, t) && FaceAt(s, l, m, o, u) && Earlier(i, j, k, l, m, o)
    ensures FacesInOrder(s, t, u)
  {
  }

  lemma {:induction false} ThirdLoopOrdered(s: Site, i: nat, j: nat, k: nat, p: nat, q: nat)
    requires i < j < k <= |s.charts| && p < q < |ThirdLoop(s, i, j, k)|
    ensures FacesInOrder(s, ThirdLoop(s, i, j, k)[p], ThirdLoop(s, i, j, k)[q])
  {
    hide FaceAt, TripleAt, FacesInOrder;
    if k > j + 1 {
      var before, all := ThirdLoop(s, i, j, k - 1), ThirdLoop(s, i, j, k);
      if q < |before| {
        ThirdLoopOrdered(s, i, j, k - 1, p, q);
      } else {
        assert before[p] in before;
        ThirdLoopHas(s, i, j, k - 1, before[p]);
        var m: nat :| m < k - 1 && FaceAt(s, i, j, m, before[p]);
        LastFace(s, i, j, k - 1, all[q]);
        PlacesInOrder(s, i, j, m, all[p], i, j, k - 1, all[q]);
      }
    }
  }

  lemma LastFace(s: Site, i: nat, j: nat, k: nat, t: Triple)
    requires i < j < k < |s.charts| && t in Items(TripleAt(s, i, j, k))
    ensures FaceAt(s, i, j, k, t)
  {
  }

  lemma {:induction false} SecondLoopOrdered(s: Site, i: nat, j: nat, p: nat, q: nat)
    requires i < j <= |s.charts| && p < q < |SecondLoop(s, i, j)|
    ensures FacesInOrder(s, SecondLoop(s, i, j)[p], SecondLoop(s, i, j)[q])
  {
    hide FaceAt, TripleAt, FacesInOrder, ThirdLoop;
    if j > i + 1 {
      var n, before, all := |s.charts|, SecondLoop(s, i, j - 1), SecondLoop(s, i, j);
      var last := ThirdLoop(s, i, j - 1, n);
      if q < |before| {
        SecondLoopOrdered(s, i, j - 1, p, q);
      } else if p >= |before| {
        ThirdLoopOrdered(s, i, j - 1, n, p - |before|, q - |before|);
      } else {
        assert all[p] in before && all[q] in last;
        SecondLoopHas(s, i, j - 1, all[p]);
        ThirdLoopHas(s, i, j - 1, n, all[q]);
        var l: nat, m: nat :| l < j - 1 && FaceAt(s, i, l, m, all[p]);
        var o: nat :| FaceAt(s, i, j - 1, o, all[q]);
        PlacesInOrder(s, i, l, m, all[p], i, j - 1, o, all[q]);
      }
    }
  }

  lemma {:induction false} FirstLoopOrdered(s: Site, e: nat, p: nat, q: nat)
    requires e <= |s.charts| && p < q < |FirstLoop(s, e)|
    ensures FacesInOrder(s, FirstLoop(s, e)[p], FirstLoop(s, e)[q])
  {
    hide FaceAt, TripleAt, FacesInOrder, SecondLoop;
    if e > 0 {
      var n, before, all := |s.charts|, FirstLoop(s, e - 1), FirstLoop(s, e);
      var last := SecondLoop(s, e - 1, n);
      if q < |before| {
        FirstLoopOrdered(s, e - 1, p, q);
      } else if p >= |before| {
        SecondLoopOrdered(s, e - 1, n, p - |before|, q - |before|);
      } else {
        assert all[p] in before && all[q] in last;
        FirstLoopHas(s, e - 1, all[p]);
        SecondLoopHas(s, e - 1, n, all[q]);
        var k: nat, l: nat, m: nat :| k < e - 1 && FaceAt(s, k, l, m, all[p]);
        var o: nat, r: nat :| FaceAt(s, e - 1, o, r, all[q]);
        PlacesInOrder(s, k, l, m, all[p], e - 1, o, r, all[q]);
      }
    }
  }

  /** The derived triples come in the order of their chart positions. */
  lemma DerivedTriplesOrdered(n: Archmap, ref: Name, p: nat, q: nat)
    requires p < q < |Derived(n, ref).triples|
    ensures FacesInOrder(SiteOf(n, ref), Derived(n, ref).triples[p], Derived(n, ref).triples[q])
  {
    FirstLoopOrdered(SiteOf(n, ref), |SiteOf(n, ref).charts|, p, q);
  }
}
