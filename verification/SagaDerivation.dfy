/**
 The triples of the derived complex, the whole derivation of
 tools/archsig/src/saga_complex.rs, and exactly when its own incidence check accepts it.
 */
module SagaDerivation {
  import opened Sequences
  import opened Options
  import opened SagaComplex
  import opened Names
  import opened SagaProducer

  // ---------- Section values ----------

  /** For each value, the ids of the atoms showing it. */
  type Values = map<Name, set<Name>>

  predicate IsObservedId(atoms: seq<Atom>, id: Name) {
    exists i :: 0 <= i < |atoms| && atoms[i].isSectionValue && atoms[i].id == id
  }

  predicate Shows(atoms: seq<Atom>, context: Context, a: Atom) {
    a.value.Some? && IsObservedId(atoms, a.id) && a.id in context.atoms
  }

  function AtomsShowing(atoms: seq<Atom>, context: Context, some: seq<Atom>, value: Name): set<Name> {
    set a | a in some && Shows(atoms, context, a) && a.value.value == value :: a.id
  }

  function ValuesOf(atoms: seq<Atom>, context: Context, some: seq<Atom>): (values: Values)
    ensures forall v :: v in values ==> values[v] == AtomsShowing(atoms, context, some, v) && values[v] != {}
  {
    var shown := set a | a in some && Shows(atoms, context, a) :: a.value.value;
    assert forall v :: v in shown ==>
      exists a :: a in some && Shows(atoms, context, a) && a.value.value == v && a.id in AtomsShowing(atoms, context, some, v);
    map v | v in shown :: AtomsShowing(atoms, context, some, v)
  }

  function AddValue(values: Values, value: Name, id: Name): Values {
    values[value := (if value in values then values[value] else {}) + {id}]
  }

  lemma ShowingNext(atoms: seq<Atom>, context: Context, some: seq<Atom>, a: Atom, w: Name)
    ensures AtomsShowing(atoms, context, some + [a], w) == AtomsShowing(atoms, context, some, w)
              + if Shows(atoms, context, a) && a.value.value == w then {a.id} else {}
  {
  }

  lemma ValuesHas(atoms: seq<Atom>, context: Context, some: seq<Atom>, w: Name)
    ensures w in ValuesOf(atoms, context, some) <==> AtomsShowing(atoms, context, some, w) != {}
  {
    if x :| x in AtomsShowing(atoms, context, some, w) {
      assert exists a :: a in some && Shows(atoms, context, a) && a.value.value == w && a.id == x;
    }
  }

  /** The values after one more atom. */
  function NextValues(atoms: seq<Atom>, context: Context, values: Values, a: Atom): Values {
    if Shows(atoms, context, a) then AddValue(values, a.value.value, a.id) else values
  }

  lemma ValuesNextAt(atoms: seq<Atom>, context: Context, some: seq<Atom>, a: Atom, w: Name)
    ensures var l, r := ValuesOf(atoms, context, some + [a]), NextValues(atoms, context, ValuesOf(atoms, context, some), a);
            (w in l <==> w in r) && (w in l ==> l[w] == r[w])
  {
    hide AtomsShowing, Shows, ValuesOf;
    ValuesHas(atoms, context, some, w);
    ValuesHas(atoms, context, some + [a], w);
    ShowingNext(atoms, context, some, a, w);
  }

  lemma ValuesNext(atoms: seq<Atom>, context: Context, some: seq<Atom>, a: Atom)
    ensures ValuesOf(atoms, context, some + [a]) == NextValues(atoms, context, ValuesOf(atoms, context, some), a)
  {
    hide *;
    forall w { ValuesNextAt(atoms, context, some, a, w); }
  }

  method CollectValues(atoms: seq<Atom>, context: Context) returns (values: Values)
    ensures values == ValuesOf(atoms, context, atoms)
  {
    hide ValuesOf, AddValue;
    NoValues(atoms, context);
    values := map[];
    for i := 0 to |atoms|
      invariant values == ValuesOf(atoms, context, atoms[..i])
    {
      assert atoms[..i + 1] == atoms[..i] + [atoms[i]];
      ValuesNext(atoms, context, atoms[..i], atoms[i]);
      if Shows(atoms, context, atoms[i]) { values := AddValue(values, atoms[i].value.value, atoms[i].id); }
    }
    assert atoms[..|atoms|] == atoms;
  }

  lemma NoValues(atoms: seq<Atom>, context: Context)
    ensures ValuesOf(atoms, context, []) == map[]
  {
  }

  type Observations = map<Name, Values>

  /** Among contexts of one id the last wins. */
  function ObservationsOf(atoms: seq<Atom>, contexts: seq<Context>, charts: set<Name>): (o: Observations)
    ensures forall id, v :: id in o && v in o[id] ==> o[id][v] != {}
  {
    if contexts == [] then map[] else
      var last := contexts[|contexts| - 1];
      var before := ObservationsOf(atoms, contexts[..|contexts| - 1], charts);
      if last.id in charts then before[last.id := ValuesOf(atoms, last, atoms)] else before
  }

  method CollectObservations(atoms: seq<Atom>, contexts: seq<Context>, charts: set<Name>) returns (o: Observations)
    ensures o == ObservationsOf(atoms, contexts, charts)
  {
    o := map[];
    for i := 0 to |contexts|
      invariant o == ObservationsOf(atoms, contexts[..i], charts)
    {
      assert contexts[..i + 1][..i] == contexts[..i];
      if contexts[i].id in charts {
        var values := CollectValues(atoms, contexts[i]);
        o := o[contexts[i].id := values];
      }
    }
    assert contexts[..|contexts|] == contexts;
  }

  // ---------- Triples ----------

  function TripleId(a: Name, b: Name, c: Name): Name { "triple:" + a + ":" + b + ":" + c }

  function SharedValues(o: Observations, a: Name, b: Name, c: Name): set<Name> {
    if a in o && b in o && c in o then o[a].Keys * o[b].Keys * o[c].Keys else {}
  }

  function SharedAtoms(o: Observations, a: Name, b: Name, c: Name): set<Name> {
    set v, x | v in SharedValues(o, a, b, c) && x in o[a][v] + o[b][v] + o[c][v] :: x
  }

  /** What the three nested loops read. */
  datatype Site = Site(charts: seq<Name>, sources: map<NamePair, Name>, observations: Observations)

  predicate HasFace(s: Site, a: Name, b: Name, c: Name) {
    && SharedValues(s.observations, a, b, c) != {}
    && SortedPair(a, b) in s.sources && SortedPair(a, c) in s.sources && SortedPair(b, c) in s.sources
  }

  /** A face where three charts share a value and all three overlaps are observed. */
  ghost function TripleAt(s: Site, i: nat, j: nat, k: nat): Option<Triple>
    requires i < j < k < |s.charts|
  {
    var a, b, c := s.charts[i], s.charts[j], s.charts[k];
    if !HasFace(s, a, b, c) then None else
      Some(Triple(TripleId(a, b, c),
                  [OverlapId(SortedPair(a, b)), OverlapId(SortedPair(a, c)), OverlapId(SortedPair(b, c))],
                  Listing(SharedAtoms(s.observations, a, b, c))))
  }

  function Items<T>(x: Option<T>): seq<T> { if x.Some? then [x.value] else [] }

  ghost function ThirdLoop(s: Site, i: nat, j: nat, k: nat): seq<Triple>
    requires i < j < k <= |s.charts|
  {
    if k == j + 1 then [] else ThirdLoop(s, i, j, k - 1) + Items(TripleAt(s, i, j, k - 1))
  }

  ghost function SecondLoop(s: Site, i: nat, j: nat): seq<Triple>
    requires i < j <= |s.charts|
  {
    if j == i + 1 then [] else SecondLoop(s, i, j - 1) + ThirdLoop(s, i, j - 1, |s.charts|)
  }

  ghost function FirstLoop(s: Site, i: nat): seq<Triple>
    requires i <= |s.charts|
  {
    if i == 0 then [] else FirstLoop(s, i - 1) + SecondLoop(s, i - 1, |s.charts|)
  }

  ghost function Triples(s: Site): seq<Triple> { FirstLoop(s, |s.charts|) }

  method FindTriple(s: Site, i: nat, j: nat, k: nat) returns (t: Option<Triple>)
    requires i < j < k < |s.charts|
    ensures t == TripleAt(s, i, j, k)
  {
    var a, b, c := s.charts[i], s.charts[j], s.charts[k];
    if SharedValues(s.observations, a, b, c) == {} { return None; }
    var pairs := [SortedPair(a, b), SortedPair(a, c), SortedPair(b, c)];
    if pairs[0] !in s.sources || pairs[1] !in s.sources || pairs[2] !in s.sources { return None; }
    var atoms := SortedElements(SharedAtoms(s.observations, a, b, c));
    return Some(Triple(TripleId(a, b, c), [OverlapId(pairs[0]), OverlapId(pairs[1]), OverlapId(pairs[2])], atoms));
  }

  method CollectTriples(s: Site) returns (triples: seq<Triple>)
    ensures triples == Triples(s)
  {
    hide TripleAt, FirstLoop, SecondLoop;
    var n := |s.charts|;
    LoopsStart(s);
    triples := [];
    for i := 0 to n
      invariant triples == FirstLoop(s, i)
    {
      LoopsStep(s, i, n);
      for j := i + 1 to n
        invariant triples == FirstLoop(s, i) + SecondLoop(s, i, j)
      {
        ghost var before := triples;
        LoopsStep(s, i, j);
        for k := j + 1 to n
          invariant triples == before + ThirdLoop(s, i, j, k)
        {
          var t := FindTriple(s, i, j, k);
          if t.Some? { triples := triples + [t.value]; }
        }
      }
    }
  }

  lemma LoopsStart(s: Site)
    ensures FirstLoop(s, 0) == []
  {
  }

  lemma LoopsStep(s: Site, i: nat, j: nat)
    requires i < j <= |s.charts|
    ensures SecondLoop(s, i, i + 1) == [] && FirstLoop(s, i + 1) == FirstLoop(s, i) + SecondLoop(s, i, |s.charts|)
    ensures j < |s.charts| ==> SecondLoop(s, i, j + 1) == SecondLoop(s, i, j) + ThirdLoop(s, i, j, |s.charts|)
  {
  }

  ghost predicate FaceAt(s: Site, i: nat, j: nat, k: nat, t: Triple) {
    i < j < k < |s.charts| && TripleAt(s, i, j, k) == Some(t)
  }

  lemma {:induction false} ThirdLoopHas(s: Site, i: nat, j: nat, k: nat, t: Triple)
    requires i < j < k <= |s.charts|
    ensures t in ThirdLoop(s, i, j, k) <==> exists m: nat :: m < k && FaceAt(s, i, j, m, t)
  {
    if k > j + 1 {
      ThirdLoopHas(s, i, j, k - 1, t);
      hide HasFace;
      if TripleAt(s, i, j, k - 1) == Some(t) { assert FaceAt(s, i, j, k - 1, t); }
      if m: nat :| m < k && FaceAt(s, i, j, m, t) {
        if m < k - 1 { assert FaceAt(s, i, j, m, t); }
      }
    }
  }

  lemma {:induction false} SecondLoopHas(s: Site, i: nat, j: nat, t: Triple)
    requires i < j <= |s.charts|
    ensures t in SecondLoop(s, i, j) <==> exists l: nat, m: nat :: l < j && FaceAt(s, i, l, m, t)
  {
    if j > i + 1 {
      SecondLoopHas(s, i, j - 1, t);
      ThirdLoopHas(s, i, j - 1, |s.charts|, t);
      hide TripleAt;
      if l: nat, m: nat :| l < j && FaceAt(s, i, l, m, t) {
        if l == j - 1 { assert FaceAt(s, i, j - 1, m, t); } else { assert l < j - 1; }
      }
    }
  }

  /** The derived triples are exactly the faces over increasing chart positions. */
  lemma {:induction false} FirstLoopHas(s: Site, i: nat, t: Triple)
    requires i <= |s.charts|
    ensures t in FirstLoop(s, i) <==> exists k: nat, l: nat, m: nat :: k < i && FaceAt(s, k, l, m, t)
  {
    hide TripleAt;
    if i > 0 {
      FirstLoopHas(s, i - 1, t);
      SecondLoopHas(s, i - 1, |s.charts|, t);
      if k: nat, l: nat, m: nat :| k < i && FaceAt(s, k, l, m, t) {
        if k == i - 1 { assert FaceAt(s, i - 1, l, m, t); } else { assert k < i - 1; }
      }
    }
  }

  // ---------- The derivation ----------

  function ChartSet(n: Archmap, ref: Name): set<Name> { Elements(Charts(n.covers, ref)) }

  function Sources(n: Archmap, ref: Name): map<NamePair, Name> { PairSources(n.contexts, ChartSet(n, ref)) }

  function SiteOf(n: Archmap, ref: Name): Site {
    Site(Charts(n.covers, ref), Sources(n, ref), ObservationsOf(n.atoms, n.contexts, ChartSet(n, ref)))
  }

  lemma SourcesAre(n: Archmap, ref: Name)
    ensures LeastSources(Sources(n, ref), SourceTest(n.contexts, ChartSet(n, ref)))
    ensures forall p :: p in Sources(n, ref) ==> p.0 in ChartSet(n, ref) && p.1 in ChartSet(n, ref)
  {
    PairSourcesLeast(n.contexts, ChartSet(n, ref));
    forall p | p in Sources(n, ref) ensures p.0 in ChartSet(n, ref) && p.1 in ChartSet(n, ref) {
      assert SourceTest(n.contexts, ChartSet(n, ref))(p, Sources(n, ref)[p]);
    }
  }

  ghost function DerivedPairs(n: Archmap, ref: Name): (pairs: seq<NamePair>)
    ensures Distinct(pairs) && forall p :: p in pairs <==> p in Sources(n, ref)
  {
    var order := Listing(ChartSet(n, ref));
    SourcesAre(n, ref);
    assert order[..|order|] == order;
    PairsUpToAre(order, |order|, Sources(n, ref));
    OrderedPairs(order, Sources(n, ref))
  }

  ghost function Derived(n: Archmap, ref: Name): Complex {
    Complex(Charts(n.covers, ref), Overlaps(DerivedPairs(n, ref), Sources(n, ref)), Triples(SiteOf(n, ref)), true)
  }

  method DeriveSagaComplex(n: Archmap, ref: Name) returns (c: Complex)
    ensures c == Derived(n, ref)
  {
    var charts := Charts(n.covers, ref);
    var sources := CollectPairSources(n.contexts, Elements(charts));
    var order := SortedElements(Elements(charts));
    var pairs := ListPairs(order, sources);
    var observations := CollectObservations(n.atoms, n.contexts, Elements(charts));
    var triples := CollectTriples(Site(charts, sources, observations));
    assert pairs == DerivedPairs(n, ref);
    c := Complex(charts, Overlaps(pairs, sources), triples, true);
  }

  // ---------- Producer meets consumer ----------

  /** No context of the cover restricts to itself. */
  predicate NoSelfRestriction(n: Archmap, ref: Name) {
    forall a :: a in ChartSet(n, ref) ==> !Restricts(n.contexts, a, a)
  }

  /** Different restricted pairs get different ids. */
  predicate InjectivePairs(sources: map<NamePair, Name>) {
    forall p, q :: p in sources && q in sources && OverlapId(p) == OverlapId(q) ==> p == q
  }

  lemma InjectiveIffDistinctIds(pairs: seq<NamePair>, sources: map<NamePair, Name>)
    requires Distinct(pairs) && forall p :: p in pairs <==> p in sources
    ensures InjectivePairs(sources) <==> Distinct(Ids(Overlaps(pairs, sources)))
  {
    var ids := Ids(Overlaps(pairs, sources));
    if Distinct(ids) {
      forall p, q | p in sources && q in sources && OverlapId(p) == OverlapId(q) ensures p == q {
        assert p in pairs && q in pairs;
        var i :| 0 <= i < |pairs| && pairs[i] == p;
        var j :| 0 <= j < |pairs| && pairs[j] == q;
        assert ids[i] == ids[j];
      }
    }
    if InjectivePairs(sources) {
      forall i, j | 0 <= i < j < |ids| ensures ids[i] != ids[j] { assert pairs[i] in sources && pairs[j] in sources; }
    }
  }

  lemma SelfPair(a: Name)
    ensures SortedPair(a, a) == (a, a)
  {
  }

  lemma SelfRestrictionIffLoop(n: Archmap, ref: Name)
    ensures NoSelfRestriction(n, ref) <==> forall p :: p in Sources(n, ref) ==> p.0 != p.1
  {
    SourcesAre(n, ref);
    var charts, sources := ChartSet(n, ref), Sources(n, ref);
    forall a | a in charts && Restricts(n.contexts, a, a) ensures (a, a) in sources {
      SelfPair(a);
      assert SourceTest(n.contexts, charts)((a, a), a);
    }
    forall p | p in sources && p.0 == p.1 ensures p.0 in charts && Restricts(n.contexts, p.0, p.0) {
      assert SourceTest(n.contexts, charts)(p, sources[p]);
    }
  }

  /** Every derived overlap has declared endpoints and the context it came from; the check
      of one overlap turns on the endpoints being different. */
  lemma DerivedOverlapValid(n: Archmap, ref: Name, p: NamePair)
    requires p in Sources(n, ref)
    ensures ValidOverlap(MakeOverlap(p, Sources(n, ref)[p]), Charts(n.covers, ref)) <==> p.0 != p.1
  {
    SourcesAre(n, ref);
    assert SourceTest(n.contexts, ChartSet(n, ref))(p, Sources(n, ref)[p]);
  }

  lemma DerivedOverlapsValid(n: Archmap, ref: Name)
    ensures (forall e :: e in Derived(n, ref).overlaps ==> ValidOverlap(e, Charts(n.covers, ref))) <==> NoSelfRestriction(n, ref)
  {
    var pairs, sources, overlaps := DerivedPairs(n, ref), Sources(n, ref), Derived(n, ref).overlaps;
    SelfRestrictionIffLoop(n, ref);
    forall p | p in sources ensures ValidOverlap(MakeOverlap(p, sources[p]), Charts(n.covers, ref)) <==> p.0 != p.1 {
      DerivedOverlapValid(n, ref, p);
    }
    hide Sources, ValidOverlap, NoSelfRestriction, Charts;
    forall p | p in sources ensures MakeOverlap(p, sources[p]) in overlaps {
      assert p in pairs;
      var i :| 0 <= i < |pairs| && pairs[i] == p;
      assert overlaps[i] == MakeOverlap(p, sources[p]);
    }
  }

  lemma FindDerived(pairs: seq<NamePair>, sources: map<NamePair, Name>, p: NamePair)
    requires Distinct(pairs) && (forall q :: q in pairs <==> q in sources) && InjectivePairs(sources) && p in sources
    ensures FindOverlap(Overlaps(pairs, sources), OverlapId(p)) == Some(MakeOverlap(p, sources[p]))
  {
    InjectiveIffDistinctIds(pairs, sources);
    assert p in pairs;
    var i :| 0 <= i < |pairs| && pairs[i] == p;
    FindByDistinctId(Overlaps(pairs, sources), i);
  }

  lemma PairOfSorted(a: Name, b: Name)
    ensures {SortedPair(a, b).0, SortedPair(a, b).1} == {a, b}
  {
  }

  lemma TriangleBounds(a: Name, b: Name, c: Name, x: Overlap, y: Overlap, z: Overlap)
    requires a != b && a != c && b != c
    requires Pair(x) == {a, b} && Pair(y) == {a, c} && Pair(z) == {b, c}
    ensures BoundsTriangle([x, y, z])
  {
    assert Pair(x) + Pair(y) + Pair(z) == {a, b, c};
    assert a in Pair(x) && b in Pair(x) && a in Pair(y) && c in Pair(y) && b in Pair(z) && c in Pair(z);
    assert c !in Pair(x) && b !in Pair(y) && a !in Pair(z);
  }

  lemma SharedAtomsExist(o: Observations, a: Name, b: Name, c: Name)
    requires SharedValues(o, a, b, c) != {} && forall id, v :: id in o && v in o[id] ==> o[id][v] != {}
    ensures SharedAtoms(o, a, b, c) != {}
  {
    var v :| v in SharedValues(o, a, b, c);
    var x :| x in o[a][v];
    assert x in o[a][v] + o[b][v] + o[c][v];
    assert x in SharedAtoms(o, a, b, c);
  }

  lemma DerivedTripleValid(n: Archmap, ref: Name, i: nat, j: nat, k: nat, t: Triple)
    requires Distinct(Charts(n.covers, ref)) && InjectivePairs(Sources(n, ref)) && FaceAt(SiteOf(n, ref), i, j, k, t)
    ensures ValidTriple(t, Derived(n, ref).overlaps)
  {
    var s := SiteOf(n, ref);
    var a, b, c := s.charts[i], s.charts[j], s.charts[k];
    SharedAtomsExist(s.observations, a, b, c);
    FaceValid(DerivedPairs(n, ref), s.sources, a, b, c, t);
  }

  lemma FaceValid(pairs: seq<NamePair>, sources: map<NamePair, Name>, a: Name, b: Name, c: Name, t: Triple)
    requires Distinct(pairs) && (forall q :: q in pairs <==> q in sources) && InjectivePairs(sources)
    requires a != b && a != c && b != c
    requires SortedPair(a, b) in sources && SortedPair(a, c) in sources && SortedPair(b, c) in sources
    requires t.overlapRefs == [OverlapId(SortedPair(a, b)), OverlapId(SortedPair(a, c)), OverlapId(SortedPair(b, c))]
    requires t.atomRefs != [] && Distinct(t.atomRefs)
    ensures ValidTriple(t, Overlaps(pairs, sources))
  {
    hide SortedPair, OverlapId, BoundsTriangle, InjectivePairs, FindOverlap;
    var overlaps := Overlaps(pairs, sources);
    var p, q, r := SortedPair(a, b), SortedPair(a, c), SortedPair(b, c);
    FindDerived(pairs, sources, p);
    FindDerived(pairs, sources, q);
    FindDerived(pairs, sources, r);
    PairOfSorted(a, b);
    PairOfSorted(a, c);
    PairOfSorted(b, c);
    var x, y, z := MakeOverlap(p, sources[p]), MakeOverlap(q, sources[q]), MakeOverlap(r, sources[r]);
    TriangleBounds(a, b, c, x, y, z);
    PairsDiffer(a, b, c, x, y, z);
    assert Resolve(t.overlapRefs, overlaps) == [x, y, z];
  }

  lemma PairsDiffer(a: Name, b: Name, c: Name, x: Overlap, y: Overlap, z: Overlap)
    requires a != b && a != c && b != c
    requires Pair(x) == {a, b} && Pair(y) == {a, c} && Pair(z) == {b, c}
    ensures x != y && x != z && y != z
  {
    assert b in Pair(x) && b !in Pair(y) && a in Pair(x) && a !in Pair(z) && a in Pair(y);
  }

  lemma DerivedTriplesValid(n: Archmap, ref: Name)
    requires Distinct(Charts(n.covers, ref)) && InjectivePairs(Sources(n, ref))
    ensures forall t :: t in Derived(n, ref).triples ==> ValidTriple(t, Derived(n, ref).overlaps)
  {
    var s, overlaps := SiteOf(n, ref), Derived(n, ref).overlaps;
    forall t | t in Triples(s) ensures ValidTriple(t, overlaps) {
      FirstLoopHas(s, |s.charts|, t);
      var i: nat, j: nat, k: nat :| FaceAt(s, i, j, k, t);
      DerivedTripleValid(n, ref, i, j, k, t);
    }
  }

  // ---------- Distinct triple ids ----------

  /** Three charts give a face. */
  predicate IsFace(s: Site, i: nat, j: nat, k: nat) {
    i < j < k < |s.charts| && HasFace(s, s.charts[i], s.charts[j], s.charts[k])
  }

  function IdAt(s: Site, i: nat, j: nat, k: nat): Name
    requires i < j < k < |s.charts|
  {
    TripleId(s.charts[i], s.charts[j], s.charts[k])
  }

  /** Faces at different places get different ids. */
  ghost predicate InjectiveFaces(s: Site) {
    forall i: nat, j: nat, k: nat, l: nat, m: nat, o: nat :: IsFace(s, i, j, k) && IsFace(s, l, m, o) && IdAt(s, i, j, k) == IdAt(s, l, m, o) ==>
      i == l && j == m && k == o
  }

  lemma FaceHasTriple(s: Site, i: nat, j: nat, k: nat) returns (t: Triple)
    requires IsFace(s, i, j, k)
    ensures FaceAt(s, i, j, k, t) && t.id == IdAt(s, i, j, k)
  {
    t := TripleAt(s, i, j, k).value;
  }

  lemma TripleIsFace(s: Site, i: nat, j: nat, k: nat, t: Triple)
    requires FaceAt(s, i, j, k, t)
    ensures IsFace(s, i, j, k) && t.id == IdAt(s, i, j, k)
  {
  }

  /** Different charts get different triple ids, faces or not. */
  ghost predicate InjectiveTripleNames(charts: seq<Name>) {
    forall a, b, c, d, e, f :: {a, b, c, d, e, f} <= Elements(charts) && TripleId(a, b, c) == TripleId(d, e, f) ==>
      (a, b, c) == (d, e, f)
  }

  lemma TripleIdsConcat(a: seq<Triple>, b: seq<Triple>)
    ensures TripleIds(a + b) == TripleIds(a) + TripleIds(b)
  {
  }

  predicate IdsApart(a: seq<Triple>, b: seq<Triple>) {
    forall t, u :: t in a && u in b ==> t.id != u.id
  }

  lemma DistinctIdsConcat(a: seq<Triple>, b: seq<Triple>)
    requires Distinct(TripleIds(a)) && Distinct(TripleIds(b)) && IdsApart(a, b)
    ensures Distinct(TripleIds(a + b))
  {
    TripleIdsConcat(a, b);
    forall i, j | 0 <= i < j < |a + b| ensures TripleIds(a + b)[i] != TripleIds(a + b)[j] {
      if i < |a| <= j { assert a[i] in a && b[j - |a|] in b; }
    }
  }

  lemma SameIdSamePlace(s: Site, i: nat, j: nat, k: nat, t: Triple, l: nat, m: nat, o: nat, u: Triple)
    requires InjectiveFaces(s)
    requires FaceAt(s, i, j, k, t) && FaceAt(s, l, m, o, u) && t.id == u.id
    ensures i == l && j == m && k == o
  {
    TripleIsFace(s, i, j, k, t);
    TripleIsFace(s, l, m, o, u);
  }

  lemma {:induction false} ThirdLoopDistinct(s: Site, i: nat, j: nat, k: nat)
    requires InjectiveFaces(s) && i < j < k <= |s.charts|
    ensures Distinct(TripleIds(ThirdLoop(s, i, j, k)))
  {
    hide InjectiveFaces, TripleAt;
    if k > j + 1 {
      var a, b := ThirdLoop(s, i, j, k - 1), Items(TripleAt(s, i, j, k - 1));
      ThirdLoopDistinct(s, i, j, k - 1);
      forall t, u | t in a && u in b ensures t.id != u.id {
        ThirdLoopHas(s, i, j, k - 1, t);
        var m: nat :| m < k - 1 && FaceAt(s, i, j, m, t);
        assert FaceAt(s, i, j, k - 1, u);
        if t.id == u.id { SameIdSamePlace(s, i, j, m, t, i, j, k - 1, u); }
      }
      DistinctIdsConcat(a, b);
    }
  }

  lemma SecondApart(s: Site, i: nat, j: nat, t: Triple, u: Triple)
    requires InjectiveFaces(s) && i < j < |s.charts|
    requires t in SecondLoop(s, i, j) && u in ThirdLoop(s, i, j, |s.charts|)
    ensures t.id != u.id
  {
    SecondLoopHas(s, i, j, t);
    ThirdLoopHas(s, i, j, |s.charts|, u);
    hide SecondLoop, ThirdLoop, FaceAt, InjectiveFaces;
    var l: nat, m: nat :| l < j && FaceAt(s, i, l, m, t);
    var o: nat :| FaceAt(s, i, j, o, u);
    if t.id == u.id { SameIdSamePlace(s, i, l, m, t, i, j, o, u); }
  }

  lemma {:induction false} SecondLoopDistinct(s: Site, i: nat, j: nat)
    requires InjectiveFaces(s) && i < j <= |s.charts|
    ensures Distinct(TripleIds(SecondLoop(s, i, j)))
  {
    hide InjectiveFaces, TripleAt, ThirdLoop;
    if j > i + 1 {
      var n := |s.charts|;
      var a, b := SecondLoop(s, i, j - 1), ThirdLoop(s, i, j - 1, n);
      SecondLoopDistinct(s, i, j - 1);
      ThirdLoopDistinct(s, i, j - 1, n);
      forall t, u | t in a && u in b ensures t.id != u.id { SecondApart(s, i, j - 1, t, u); }
      DistinctIdsConcat(a, b);
    }
  }

  lemma FirstApart(s: Site, i: nat, t: Triple, u: Triple)
    requires InjectiveFaces(s) && i < |s.charts|
    requires t in FirstLoop(s, i) && u in SecondLoop(s, i, |s.charts|)
    ensures t.id != u.id
  {
    FirstLoopHas(s, i, t);
    SecondLoopHas(s, i, |s.charts|, u);
    hide FirstLoop, SecondLoop, FaceAt, InjectiveFaces;
    var k: nat, l: nat, m: nat :| k < i && FaceAt(s, k, l, m, t);
    var o: nat, p: nat :| FaceAt(s, i, o, p, u);
    if t.id == u.id { SameIdSamePlace(s, k, l, m, t, i, o, p, u); }
  }

  lemma {:induction false} FirstLoopDistinct(s: Site, i: nat)
    requires InjectiveFaces(s) && i <= |s.charts|
    ensures Distinct(TripleIds(FirstLoop(s, i)))
  {
    hide InjectiveFaces, TripleAt, SecondLoop;
    if i > 0 {
      var n := |s.charts|;
      var a, b := FirstLoop(s, i - 1), SecondLoop(s, i - 1, n);
      FirstLoopDistinct(s, i - 1);
      SecondLoopDistinct(s, i - 1, n);
      forall t, u | t in a && u in b ensures t.id != u.id { FirstApart(s, i - 1, t, u); }
      DistinctIdsConcat(a, b);
    }
  }

  // ---------- Distinct ids need injective faces ----------

  lemma DistinctIdsSplit(a: seq<Triple>, b: seq<Triple>)
    requires Distinct(TripleIds(a + b))
    ensures Distinct(TripleIds(a)) && Distinct(TripleIds(b)) && IdsApart(a, b)
  {
    TripleIdsConcat(a, b);
    var ids := TripleIds(a + b);
    forall i, j | 0 <= i < j < |b| ensures TripleIds(b)[i] != TripleIds(b)[j] { assert ids[|a| + i] != ids[|a| + j]; }
    forall i, j | 0 <= i < j < |a| ensures TripleIds(a)[i] != TripleIds(a)[j] { assert ids[i] != ids[j]; }
    forall t, u | t in a && u in b ensures t.id != u.id {
      var i :| 0 <= i < |a| && a[i] == t;
      var j :| 0 <= j < |b| && b[j] == u;
      assert ids[i] != ids[|a| + j];
    }
  }

  lemma InThirdLoop(s: Site, i: nat, j: nat, m: nat, k: nat, t: Triple)
    requires FaceAt(s, i, j, m, t) && m < k <= |s.charts|
    ensures i < j < m && t in ThirdLoop(s, i, j, k)
  {
    ThirdLoopHas(s, i, j, k, t);
  }

  lemma InSecondLoop(s: Site, i: nat, l: nat, m: nat, j: nat, t: Triple)
    requires FaceAt(s, i, l, m, t) && l < j <= |s.charts|
    ensures i < l < m < |s.charts| && t in SecondLoop(s, i, j)
  {
    SecondLoopHas(s, i, j, t);
  }

  lemma InFirstLoop(s: Site, i: nat, j: nat, k: nat, e: nat, t: Triple)
    requires FaceAt(s, i, j, k, t) && i < e <= |s.charts|
    ensures i < j < k < |s.charts| && t in FirstLoop(s, e)
  {
    FirstLoopHas(s, e, t);
  }

  lemma LastThird(s: Site, i: nat, j: nat, k: nat, u: Triple)
    requires i < j < k < |s.charts| && FaceAt(s, i, j, k, u)
    ensures u in Items(TripleAt(s, i, j, k)) && ThirdLoop(s, i, j, k + 1) == ThirdLoop(s, i, j, k) + Items(TripleAt(s, i, j, k))
  {
  }

  lemma {:induction false} ThirdLoopInjective(s: Site, i: nat, j: nat, k: nat, m: nat, t: Triple, o: nat, u: Triple)
    requires i < j < k <= |s.charts| && Distinct(TripleIds(ThirdLoop(s, i, j, k)))
    requires m < o < k && FaceAt(s, i, j, m, t) && FaceAt(s, i, j, o, u)
    ensures t.id != u.id
  {
    InThirdLoop(s, i, j, m, k, t);
    InThirdLoop(s, i, j, o, k, u);
    var c := k - 1;
    assert ThirdLoop(s, i, j, k) == ThirdLoop(s, i, j, c) + Items(TripleAt(s, i, j, c));
    hide *;
    DistinctIdsSplit(ThirdLoop(s, i, j, c), Items(TripleAt(s, i, j, c)));
    if o < c {
      ThirdLoopInjective(s, i, j, c, m, t, o, u);
    } else {
      InThirdLoop(s, i, j, m, c, t);
      LastThird(s, i, j, c, u);
      ApartAt(ThirdLoop(s, i, j, c), Items(TripleAt(s, i, j, c)), t, u);
    }
  }

  lemma ApartAt(a: seq<Triple>, b: seq<Triple>, t: Triple, u: Triple)
    requires IdsApart(a, b) && t in a && u in b
    ensures t.id != u.id
  {
  }

  lemma {:induction false} SecondLoopInjective(s: Site, i: nat, j: nat, l: nat, m: nat, t: Triple, o: nat, p: nat, u: Triple)
    requires i < j <= |s.charts| && Distinct(TripleIds(SecondLoop(s, i, j)))
    requires l <= o < j && (l == o ==> m < p) && FaceAt(s, i, l, m, t) && FaceAt(s, i, o, p, u)
    ensures t.id != u.id
  {
    InSecondLoop(s, i, l, m, j, t);
    InSecondLoop(s, i, o, p, j, u);
    hide *;
    var n, c := |s.charts|, j - 1;
    LoopsStep(s, i, c);
    DistinctIdsSplit(SecondLoop(s, i, c), ThirdLoop(s, i, c, n));
    if o < c {
      SecondLoopInjective(s, i, c, l, m, t, o, p, u);
    } else if l == o {
      ThirdLoopInjective(s, i, c, n, m, t, p, u);
    } else {
      InSecondLoop(s, i, l, m, c, t);
      InThirdLoop(s, i, c, p, n, u);
      ApartAt(SecondLoop(s, i, c), ThirdLoop(s, i, c, n), t, u);
    }
  }

  lemma {:induction false} FirstLoopInjective(
      s: Site, e: nat, i: nat, j: nat, k: nat, t: Triple, l: nat, m: nat, o: nat, u: Triple)
    requires e <= |s.charts| && Distinct(TripleIds(FirstLoop(s, e)))
    requires i <= l < e && (i == l ==> j <= m && (j == m ==> k < o)) && FaceAt(s, i, j, k, t) && FaceAt(s, l, m, o, u)
    ensures t.id != u.id
  {
    hide *;
    InFirstLoop(s, i, j, k, e, t);
    InFirstLoop(s, l, m, o, e, u);
    var n, c := |s.charts|, e - 1;
    LoopsStep(s, c, n);
    DistinctIdsSplit(FirstLoop(s, c), SecondLoop(s, c, n));
    if l < c {
      FirstLoopInjective(s, c, i, j, k, t, l, m, o, u);
    } else if i == l {
      SecondLoopInjective(s, i, n, j, k, t, m, o, u);
    } else {
      InFirstLoop(s, i, j, k, c, t);
      InSecondLoop(s, c, m, o, n, u);
      ApartAt(FirstLoop(s, c), SecondLoop(s, c, n), t, u);
    }
  }

  /** The derived triple ids are distinct exactly when faces at different places get
      different ids. */
  lemma DistinctIffInjectiveFaces(s: Site)
    ensures Distinct(TripleIds(Triples(s))) <==> InjectiveFaces(s)
  {
    var n := |s.charts|;
    if InjectiveFaces(s) { FirstLoopDistinct(s, n); }
    if Distinct(TripleIds(Triples(s))) {
      forall i: nat, j: nat, k: nat, l: nat, m: nat, o: nat | IsFace(s, i, j, k) && IsFace(s, l, m, o) && IdAt(s, i, j, k) == IdAt(s, l, m, o)
        ensures i == l && j == m && k == o
      {
        var t := FaceHasTriple(s, i, j, k);
        var u := FaceHasTriple(s, l, m, o);
        if i < l || (i == l && (j < m || (j == m && k < o))) { FirstLoopInjective(s, n, i, j, k, t, l, m, o, u); }
        if l < i || (l == i && (m < j || (m == j && o < k))) { FirstLoopInjective(s, n, l, m, o, u, i, j, k, t); }
      }
    }
  }

  // ---------- The exact condition ----------

  /** The consumer's check accepts a derived complex exactly when the cover repeats no chart,
      no chart restricts to itself, and different restricted pairs, and different faces, get
      different ids. */
  lemma DerivedIsValid(n: Archmap, ref: Name)
    ensures HasValidFiniteIncidence(Derived(n, ref)) <==>
      && Distinct(Charts(n.covers, ref)) && NoSelfRestriction(n, ref)
      && InjectivePairs(Sources(n, ref)) && InjectiveFaces(SiteOf(n, ref))
  {
    var c := Derived(n, ref);
    InjectiveIffDistinctIds(DerivedPairs(n, ref), Sources(n, ref));
    DerivedOverlapsValid(n, ref);
    DistinctIffInjectiveFaces(SiteOf(n, ref));
    if Distinct(Charts(n.covers, ref)) && InjectivePairs(Sources(n, ref)) { DerivedTriplesValid(n, ref); }
  }

  lemma NamesGiveFaces(s: Site)
    requires Distinct(s.charts) && InjectiveTripleNames(s.charts)
    ensures InjectiveFaces(s)
  {
    forall i: nat, j: nat, k: nat, l: nat, m: nat, o: nat | IsFace(s, i, j, k) && IsFace(s, l, m, o) && IdAt(s, i, j, k) == IdAt(s, l, m, o)
      ensures i == l && j == m && k == o
    {
      var a, b, c, d, e, f := s.charts[i], s.charts[j], s.charts[k], s.charts[l], s.charts[m], s.charts[o];
      hide TripleId, IsFace;
      assert {a, b, c, d, e, f} <= Elements(s.charts);
      assert TripleId(a, b, c) == TripleId(d, e, f);
      assert (a, b, c) == (d, e, f);
    }
  }

  /** With injective names every derived complex of a plain cover is accepted. */
  lemma InjectiveNamesAreAccepted(n: Archmap, ref: Name)
    requires Distinct(Charts(n.covers, ref)) && NoSelfRestriction(n, ref)
    requires InjectivePairs(Sources(n, ref)) && InjectiveTripleNames(Charts(n.covers, ref))
    ensures HasValidFiniteIncidence(Derived(n, ref))
  {
    DerivedIsValid(n, ref);
    NamesGiveFaces(SiteOf(n, ref));
  }
}
