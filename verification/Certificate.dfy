/**
 The cocycle certificate of tools/archsig/src/saga.rs: which component carries the
 residual, whether every triple of it is even, and why the certificate licenses reading
 the class from the global boundary membership.
 */
module Certificate {
  import opened Sequences
  import opened Names
  import opened Options
  import opened SagaComplex
  import opened BoundaryMembership
  import opened Components

  // ---------- Triple parity ----------

  function Copies(supports: Supports, ref: Name, v: Name): nat {
    if ref in supports then multiset(supports[ref])[v] else 0
  }

  /** How often v is listed over the given overlaps, repetitions included. */
  function Count(supports: Supports, refs: seq<Name>, v: Name): nat {
    if refs == [] then 0 else Count(supports, refs[..|refs| - 1], v) + Copies(supports, refs[|refs| - 1], v)
  }

  predicate Even(n: nat) { n % 2 == 0 }

  predicate Supported(supports: Supports, refs: seq<Name>) {
    forall ref :: ref in refs ==> ref in supports
  }

  ghost predicate CocycleZero(supports: Supports, refs: seq<Name>) {
    && Supported(supports, refs)
    && (forall v :: Even(Count(supports, refs, v)))
  }

  function Tally(parity: map<Name, nat>, v: Name): nat {
    if v in parity then parity[v] else 0
  }

  method AddSupport(parity: map<Name, nat>, variables: seq<Name>) returns (r: map<Name, nat>)
    ensures forall v :: Tally(r, v) == Tally(parity, v) + multiset(variables)[v]
  {
    r := parity;
    for i := 0 to |variables|
      invariant forall v :: Tally(r, v) == Tally(parity, v) + multiset(variables[..i])[v]
    {
      assert variables[..i + 1] == variables[..i] + [variables[i]];
      r := r[variables[i] := Tally(r, variables[i]) + 1];
    }
    assert variables[..|variables|] == variables;
  }

  method TripleCocycleIsZero(supports: Supports, refs: seq<Name>) returns (zero: bool)
    ensures zero <==> CocycleZero(supports, refs)
  {
    var parity: map<Name, nat> := map[];
    for i := 0 to |refs|
      invariant forall j :: 0 <= j < i ==> refs[j] in supports
      invariant forall v :: Tally(parity, v) == Count(supports, refs[..i], v)
    {
      if refs[i] !in supports { return false; }
      parity := AddSupport(parity, supports[refs[i]]);
      assert refs[..i + 1][..i] == refs[..i];
    }
    assert refs[..|refs|] == refs;
    zero := forall v :: v in parity ==> Even(parity[v]);
    if zero {
      forall v ensures Even(Count(supports, refs, v)) { assert Even(Tally(parity, v)); }
    } else {
      var v :| v in parity && !Even(parity[v]);
      assert Tally(parity, v) == Count(supports, refs, v);
    }
  }

  // ---------- A boundary is even on every triangle ----------

  function Extra(n: nat): nat { if n == 0 then 0 else n - 1 }

  /** Listings of v beyond the first, per overlap. */
  function Surplus(supports: Supports, refs: seq<Name>, v: Name): nat {
    if refs == [] then 0 else
      Surplus(supports, refs[..|refs| - 1], v) + Extra(Copies(supports, refs[|refs| - 1], v))
  }

  ghost predicate SurplusEven(supports: Supports, refs: seq<Name>) {
    forall v :: Even(Surplus(supports, refs, v))
  }

  lemma ThirdVertex(vertices: set<Name>, a: Name, b: Name) returns (d: Name)
    requires |vertices| == 3 && a in vertices && b in vertices && a != b
    ensures d != a && d != b && vertices == {a, b, d}
  {
    var rest := vertices - {a} - {b};
    assert |rest| == 1;
    d :| d in rest;
    assert |rest - {d}| == 0;
    assert vertices == rest - {d} + {a, b, d};
  }

  lemma TriangleShape(edges: seq<Overlap>) returns (a: Name, b: Name, d: Name)
    requires |edges| == 3 && BoundsTriangle(edges)
    ensures a != b && Pair(edges[0]) == {a, b} && d != a && d != b
    ensures (Pair(edges[1]) == {a, d} && Pair(edges[2]) == {b, d}) || (Pair(edges[1]) == {b, d} && Pair(edges[2]) == {a, d})
  {
    var vertices := Pair(edges[0]) + Pair(edges[1]) + Pair(edges[2]);
    a, b := edges[0].left, edges[0].right;
    d := ThirdVertex(vertices, a, b);
    OtherPair(edges[1], a, b, d);
    OtherPair(edges[2], a, b, d);
  }

  lemma OtherPair(e: Overlap, a: Name, b: Name, d: Name)
    requires e.left != e.right && Pair(e) <= {a, b, d} && Pair(e) != {a, b}
    ensures Pair(e) == {a, d} || Pair(e) == {b, d}
  {
    assert e.left in Pair(e) && e.right in Pair(e);
  }

  /** The program's own test: the pairs of the edges are all the pairs of their vertices. */
  lemma AllPairsAreEdges(edges: seq<Overlap>, x: Name, y: Name)
    requires |edges| == 3 && BoundsTriangle(edges) && x != y
    ensures var vertices := Pair(edges[0]) + Pair(edges[1]) + Pair(edges[2]);
            x in vertices && y in vertices <==> {x, y} in {Pair(edges[0]), Pair(edges[1]), Pair(edges[2])}
  {
    var a, b, d := TriangleShape(edges);
    hide BoundsTriangle;
    assert Pair(edges[0]) + Pair(edges[1]) + Pair(edges[2]) == {a, b, d};
    if x in {a, b, d} && y in {a, b, d} { PairOfThree(x, y, a, b, d); }
    if {x, y} in {Pair(edges[0]), Pair(edges[1]), Pair(edges[2])} { assert x in {x, y} && y in {x, y}; }
  }

  function Vertices(edges: seq<Overlap>): set<Name>
    requires |edges| == 3
  {
    Pair(edges[0]) + Pair(edges[1]) + Pair(edges[2])
  }

  function EdgePairs(edges: seq<Overlap>): set<set<Name>> {
    set e | e in edges && e.left != e.right :: Pair(e)
  }

  function AllPairs(vertices: set<Name>): set<set<Name>> {
    set x, y | x in vertices && y in vertices && x != y :: {x, y}
  }

  /** The test as the program writes it. */
  predicate PassesTriangleTest(edges: seq<Overlap>)
    requires |edges| == 3
  {
    |Vertices(edges)| == 3 && EdgePairs(edges) == AllPairs(Vertices(edges))
  }

  lemma BoundingEdgesPass(edges: seq<Overlap>)
    requires |edges| == 3 && BoundsTriangle(edges)
    ensures PassesTriangleTest(edges)
  {
    var pairs, all := EdgePairs(edges), AllPairs(Vertices(edges));
    assert edges[0] in edges && edges[1] in edges && edges[2] in edges;
    forall p ensures p in pairs <==> p in all {
      if p in all {
        var x, y :| x in Vertices(edges) && y in Vertices(edges) && x != y && p == {x, y};
        AllPairsAreEdges(edges, x, y);
      }
      if p in pairs {
        var e :| e in edges && e.left != e.right && p == Pair(e);
        AllPairsAreEdges(edges, e.left, e.right);
      }
    }
  }

  lemma ThreePairs(a: Name, b: Name, d: Name)
    requires a != b && a != d && b != d
    ensures AllPairs({a, b, d}) == {{a, b}, {a, d}, {b, d}} && |AllPairs({a, b, d})| == 3
  {
    forall p | p in AllPairs({a, b, d}) ensures p in {{a, b}, {a, d}, {b, d}} {
      var x, y :| x in {a, b, d} && y in {a, b, d} && x != y && p == {x, y};
      PairOfThree(x, y, a, b, d);
    }
    assert d !in {a, b} && b !in {a, d} && b in {a, b} && a in {a, b} && a !in {b, d};
    assert {a, b} != {a, d} && {a, b} != {b, d} && {a, d} != {b, d} by { assert d in {a, d} && d in {b, d} && a in {a, d}; }
  }

  lemma ThreeElements(vertices: set<Name>) returns (a: Name, b: Name, d: Name)
    requires |vertices| == 3
    ensures a != b && a != d && b != d && vertices == {a, b, d}
  {
    a :| a in vertices;
    var rest := vertices - {a};
    assert |rest| == 2;
    b :| b in rest;
    d := ThirdVertex(vertices, a, b);
  }

  lemma PairsOfThree(edges: seq<Overlap>)
    requires |edges| == 3
    ensures EdgePairs(edges) <= {Pair(edges[0]), Pair(edges[1]), Pair(edges[2])}
  {
    forall p | p in EdgePairs(edges) ensures p in {Pair(edges[0]), Pair(edges[1]), Pair(edges[2])} {
      var e :| e in edges && e.left != e.right && p == Pair(e);
    }
  }

  lemma ListedPairIsNoLoop(edges: seq<Overlap>, e: Overlap)
    requires Pair(e) in EdgePairs(edges)
    ensures e.left != e.right
  {
    var f :| f in edges && f.left != f.right && Pair(e) == Pair(f);
    assert f.left in Pair(f) && f.right in Pair(f);
  }

  /** Three edges make three different pairs only when none is a loop and none repeats. */
  lemma PassingEdgesBound(edges: seq<Overlap>)
    requires |edges| == 3 && PassesTriangleTest(edges)
    ensures BoundsTriangle(edges)
  {
    var a, b, d := ThreeElements(Vertices(edges));
    ThreePairs(a, b, d);
    PairsOfThree(edges);
    hide AllPairs, EdgePairs, Pair;
    SizeOfTriple(EdgePairs(edges), Pair(edges[0]), Pair(edges[1]), Pair(edges[2]));
    ListedPairIsNoLoop(edges, edges[0]);
    ListedPairIsNoLoop(edges, edges[1]);
    ListedPairIsNoLoop(edges, edges[2]);
  }

  lemma SizeOfTriple(s: set<set<Name>>, p: set<Name>, q: set<Name>, r: set<Name>)
    requires |s| == 3 && s <= {p, q, r}
    ensures s == {p, q, r} && p != q && p != r && q != r
  {
    if s != {p, q, r} {
      var x :| x in {p, q, r} && x !in s;
      assert s <= {p, q, r} - {x};
      SmallerSet(s, {p, q, r} - {x});
    }
  }

  lemma SmallerSet(s: set<set<Name>>, t: set<set<Name>>)
    requires s <= t
    ensures |s| <= |t|
  {
    assert t == s + (t - s);
  }

  /** The model's triangle predicate is the program's test. */
  lemma TriangleTestIffBounds(edges: seq<Overlap>)
    requires |edges| == 3
    ensures BoundsTriangle(edges) <==> PassesTriangleTest(edges)
  {
    if BoundsTriangle(edges) { BoundingEdgesPass(edges); }
    if PassesTriangleTest(edges) { PassingEdgesBound(edges); }
  }

  /** The overlaps join x to y, x to z and y to z, three different charts. */
  predicate JoinsThree(edges: seq<Overlap>, x: Name, y: Name, z: Name)
    requires |edges| == 3
  {
    && x != y && x != z && y != z
    && {edges[0].left, edges[0].right} == {x, y}
    && {edges[1].left, edges[1].right} == {x, z}
    && {edges[2].left, edges[2].right} == {y, z}
  }

  lemma TriangleMeans(edges: seq<Overlap>)
    requires |edges| == 3
    ensures BoundsTriangle(edges) <==> exists x, y, z :: JoinsThree(edges, x, y, z)
  {
    if BoundsTriangle(edges) {
      var a, b, d := TriangleShape(edges);
      hide BoundsTriangle;
      if Pair(edges[1]) == {a, d} { assert JoinsThree(edges, a, b, d); } else { assert JoinsThree(edges, b, a, d); }
    }
    if x, y, z :| JoinsThree(edges, x, y, z) { JoinedThreeBound(edges, x, y, z); }
  }

  lemma JoinedThreeBound(edges: seq<Overlap>, x: Name, y: Name, z: Name)
    requires |edges| == 3 && JoinsThree(edges, x, y, z)
    ensures BoundsTriangle(edges)
  {
    assert Pair(edges[0]) == {x, y} && Pair(edges[1]) == {x, z} && Pair(edges[2]) == {y, z};
    assert Pair(edges[0]) + Pair(edges[1]) + Pair(edges[2]) == {x, y, z} && |{x, y, z}| == 3;
    assert z !in {x, y} && y !in {x, z} && z in {x, z} && z in {y, z} && y in {y, z};
    ProperEnds(edges[0], x, y);
    ProperEnds(edges[1], x, z);
    ProperEnds(edges[2], y, z);
  }

  lemma ProperEnds(e: Overlap, x: Name, y: Name)
    requires {e.left, e.right} == {x, y} && x != y
    ensures e.left != e.right
  {
    assert x in {e.left, e.right} && y in {e.left, e.right};
  }

  /** A triple over three overlaps that join three charts pairwise, with a list of
      different atoms. */
  ghost predicate IsTripleOver(c: Complex, t: Triple) {
    && t.atomRefs != [] && Distinct(t.atomRefs)
    && exists e, f, g, x, y, z ::
        && e in c.overlaps && f in c.overlaps && g in c.overlaps
        && t.overlapRefs == [e.id, f.id, g.id] && JoinsThree([e, f, g], x, y, z)
  }

  /** An overlap between two different charts whose source context is one of them. */
  predicate IsOverlapOf(c: Complex, e: Overlap) {
    && e.left in c.charts && e.right in c.charts && e.left != e.right
    && (e.contextRef == Some(e.left) || e.contextRef == Some(e.right))
  }

  lemma TripleMeans(c: Complex, t: Triple)
    requires Distinct(Ids(c.overlaps))
    ensures ValidTriple(t, c.overlaps) <==> IsTripleOver(c, t)
  {
    hide BoundsTriangle, JoinsThree, Distinct;
    if ValidTriple(t, c.overlaps) {
      var edges := Resolve(t.overlapRefs, c.overlaps);
      TriangleMeans(edges);
      var x, y, z :| JoinsThree(edges, x, y, z);
      assert edges == [edges[0], edges[1], edges[2]];
      assert t.overlapRefs == [edges[0].id, edges[1].id, edges[2].id];
    }
    if IsTripleOver(c, t) { TripleOverIsValid(c, t); }
  }

  lemma TripleOverIsValid(c: Complex, t: Triple)
    requires Distinct(Ids(c.overlaps)) && IsTripleOver(c, t)
    ensures ValidTriple(t, c.overlaps)
  {
    hide BoundsTriangle, JoinsThree, Distinct;
    var e, f, g, x, y, z :| e in c.overlaps && f in c.overlaps && g in c.overlaps
      && t.overlapRefs == [e.id, f.id, g.id] && JoinsThree([e, f, g], x, y, z);
    FoundByRef(c, e);
    FoundByRef(c, f);
    FoundByRef(c, g);
    TriangleMeans([e, f, g]);
    JoinedDiffer(e, f, g, x, y, z);
    ThreeDiffer(e.id, f.id, g.id);
    var edges := Resolve(t.overlapRefs, c.overlaps);
    assert edges == [e, f, g];
  }

  lemma JoinedDiffer(e: Overlap, f: Overlap, g: Overlap, x: Name, y: Name, z: Name)
    requires JoinsThree([e, f, g], x, y, z)
    ensures e != f && e != g && f != g
  {
    assert z !in {x, y} && y !in {x, z} && z in {x, z} && z in {y, z} && y in {y, z};
  }

  lemma ThreeDiffer(a: Name, b: Name, d: Name)
    requires a != b && a != d && b != d
    ensures Distinct([a, b, d])
  {
  }

  lemma FoundByRef(c: Complex, e: Overlap)
    requires Distinct(Ids(c.overlaps)) && e in c.overlaps
    ensures FindOverlap(c.overlaps, e.id) == Some(e)
  {
    var i :| 0 <= i < |c.overlaps| && c.overlaps[i] == e;
    FindByDistinctId(c.overlaps, i);
  }

  /** The incidence check accepts exactly the complexes that repeat no chart and no id, and
      whose overlaps and triples join what they name. */
  lemma IncidenceMeans(c: Complex)
    ensures HasValidFiniteIncidence(c) <==>
      && Distinct(c.charts) && Distinct(Ids(c.overlaps)) && Distinct(TripleIds(c.triples))
      && (forall e :: e in c.overlaps ==> IsOverlapOf(c, e))
      && (forall t :: t in c.triples ==> IsTripleOver(c, t))
  {
    hide ValidTriple, IsTripleOver, Distinct;
    forall e ensures ValidOverlap(e, c.charts) <==> IsOverlapOf(c, e) {}
    if Distinct(Ids(c.overlaps)) {
      forall t ensures ValidTriple(t, c.overlaps) <==> IsTripleOver(c, t) { TripleMeans(c, t); }
    }
  }

  lemma PairOfThree(x: Name, y: Name, a: Name, b: Name, d: Name)
    requires x in {a, b, d} && y in {a, b, d} && x != y
    ensures {x, y} == {a, b} || {x, y} == {a, d} || {x, y} == {b, d}
  {
  }

  lemma CoboundaryOfPair(h: Cochain0, e: Overlap, v: Name, x: Name, y: Name)
    requires Pair(e) == {x, y}
    ensures Coboundary(h, e, v) == (((x, v) in h) != ((y, v) in h))
  {
    assert e.left in {x, y} && e.right in {x, y} && x in Pair(e) && y in Pair(e);
  }

  /** Three edges bounding a triangle carry an even number of sign changes. */
  lemma TriangleEven(edges: seq<Overlap>, h: Cochain0, v: Name)
    requires |edges| == 3 && BoundsTriangle(edges)
    ensures (Coboundary(h, edges[0], v) != Coboundary(h, edges[1], v)) == Coboundary(h, edges[2], v)
  {
    var a, b, d := TriangleShape(edges);
    CoboundaryOfPair(h, edges[0], v, a, b);
    if Pair(edges[1]) == {a, d} {
      CoboundaryOfPair(h, edges[1], v, a, d);
      CoboundaryOfPair(h, edges[2], v, b, d);
    } else {
      CoboundaryOfPair(h, edges[1], v, b, d);
      CoboundaryOfPair(h, edges[2], v, a, d);
    }
  }

  lemma CountOfThree(supports: Supports, refs: seq<Name>, v: Name)
    requires |refs| == 3
    ensures Count(supports, refs, v) == Copies(supports, refs[0], v) + Copies(supports, refs[1], v) + Copies(supports, refs[2], v)
    ensures Surplus(supports, refs, v) ==
      Extra(Copies(supports, refs[0], v)) + Extra(Copies(supports, refs[1], v)) + Extra(Copies(supports, refs[2], v))
  {
    var two, one := refs[..2], refs[..1];
    assert two[..1] == one && one[..0] == [] && one[0] == refs[0] && two[1] == refs[1];
    assert Count(supports, one, v) == Count(supports, [], v) + Copies(supports, refs[0], v);
    assert Surplus(supports, one, v) == Surplus(supports, [], v) + Extra(Copies(supports, refs[0], v));
    assert Count(supports, two, v) == Count(supports, one, v) + Copies(supports, refs[1], v);
    assert Surplus(supports, two, v) == Surplus(supports, one, v) + Extra(Copies(supports, refs[1], v));
  }

  lemma TriangleOf(c: Complex, t: Triple)
    requires HasValidFiniteIncidence(c) && t in c.triples
    ensures ValidTriple(t, c.overlaps) && |t.overlapRefs| == 3
    ensures BoundsTriangle(Resolve(t.overlapRefs, c.overlaps))
  {
  }

  // ---------- Cocycles ----------

  /** delta1 of the residual on a list of overlaps: the XOR of what they carry. */
  predicate Delta1(supports: Supports, refs: seq<Name>, v: Name) {
    refs != [] && (Delta1(supports, refs[..|refs| - 1], v) != Carries(supports, refs[|refs| - 1], v))
  }

  ghost predicate DeltaVanishes(supports: Supports, refs: seq<Name>) {
    forall v :: !Delta1(supports, refs, v)
  }

  /** Z1 = ker delta1: delta1 vanishes on every triple. */
  ghost predicate InZ1(c: Complex, supports: Supports) {
    forall t :: t in c.triples ==> DeltaVanishes(supports, t.overlapRefs)
  }

  /** The program's tally is delta1 up to the listings beyond the first. */
  lemma {:induction false} TallyIsDelta(supports: Supports, refs: seq<Name>, v: Name)
    ensures Even(Count(supports, refs, v)) <==> (Delta1(supports, refs, v) == !Even(Surplus(supports, refs, v)))
  {
    if refs != [] {
      TallyIsDelta(supports, refs[..|refs| - 1], v);
      var n := Copies(supports, refs[|refs| - 1], v);
      assert n > 0 <==> Carries(supports, refs[|refs| - 1], v);
      assert n == Extra(n) + if n > 0 then 1 else 0;
    }
  }

  ghost predicate DeltaIsSurplus(supports: Supports, refs: seq<Name>) {
    forall v :: Delta1(supports, refs, v) <==> !Even(Surplus(supports, refs, v))
  }

  /** The parity check passes exactly when every overlap has a support and delta1 is the
      parity of the repeated listings. */
  lemma CocycleZeroIffDelta(supports: Supports, refs: seq<Name>)
    ensures CocycleZero(supports, refs) <==> Supported(supports, refs) && DeltaIsSurplus(supports, refs)
  {
    if CocycleZero(supports, refs) {
      forall v ensures Delta1(supports, refs, v) <==> !Even(Surplus(supports, refs, v)) {
        TallyIsDelta(supports, refs, v);
        assert Even(Count(supports, refs, v));
      }
    }
    if DeltaIsSurplus(supports, refs) {
      forall v ensures Even(Count(supports, refs, v)) {
        TallyIsDelta(supports, refs, v);
        assert Delta1(supports, refs, v) <==> !Even(Surplus(supports, refs, v));
      }
    }
  }

  lemma DeltaOfThree(supports: Supports, refs: seq<Name>, v: Name)
    requires |refs| == 3
    ensures Delta1(supports, refs, v)
         == ((Carries(supports, refs[0], v) != Carries(supports, refs[1], v)) != Carries(supports, refs[2], v))
  {
    var two, one := refs[..2], refs[..1];
    assert two[..1] == one && one[..0] == [] && one[0] == refs[0] && two[1] == refs[1];
    assert Delta1(supports, one, v) == Carries(supports, refs[0], v);
    assert Delta1(supports, two, v) == (Carries(supports, refs[0], v) != Carries(supports, refs[1], v));
  }

  lemma BoundaryVanishes(c: Complex, supports: Supports, h: Cochain0, t: Triple, v: Name)
    requires HasValidFiniteIncidence(c) && IsPrimitive(c, supports, h) && t in c.triples
    ensures !Delta1(supports, t.overlapRefs, v)
  {
    TriangleOf(c, t);
    var refs, edges := t.overlapRefs, Resolve(t.overlapRefs, c.overlaps);
    forall i | 0 <= i < 3 ensures Coboundary(h, edges[i], v) == Carries(supports, refs[i], v) {}
    TriangleEven(edges, h, v);
    DeltaOfThree(supports, refs, v);
  }

  /** delta1 delta0 = 0: every boundary of a valid complex is a cocycle. */
  lemma BoundaryIsCocycle(c: Complex, supports: Supports)
    requires HasValidFiniteIncidence(c) && InB1(c, supports)
    ensures InZ1(c, supports)
  {
    var h :| IsPrimitive(c, supports, h);
    forall t | t in c.triples ensures DeltaVanishes(supports, t.overlapRefs) {
      forall v ensures !Delta1(supports, t.overlapRefs, v) { BoundaryVanishes(c, supports, h, t, v); }
    }
  }

  /** On a valid complex, a residual in B1 passes the parity check of a triple exactly
      when every overlap of the triple has a support and the repeated listings of each
      variable are even in number. */
  lemma BoundaryPassesTriple(c: Complex, supports: Supports, t: Triple)
    requires HasValidFiniteIncidence(c) && InB1(c, supports) && t in c.triples
    ensures CocycleZero(supports, t.overlapRefs) <==>
      Supported(supports, t.overlapRefs) && SurplusEven(supports, t.overlapRefs)
  {
    BoundaryIsCocycle(c, supports);
    CocycleZeroIffDelta(supports, t.overlapRefs);
    VanishingDelta(supports, t.overlapRefs);
  }

  lemma VanishingDelta(supports: Supports, refs: seq<Name>)
    ensures DeltaVanishes(supports, refs) ==> (DeltaIsSurplus(supports, refs) <==> SurplusEven(supports, refs))
    ensures SurplusEven(supports, refs) ==> (DeltaIsSurplus(supports, refs) <==> DeltaVanishes(supports, refs))
  {
    hide Delta1, Surplus, Even;
  }

  /** The supports derive_residual builds: one entry per overlap, nothing listed twice. */
  predicate PlainSupports(c: Complex, supports: Supports) {
    && (forall id :: id in supports ==> Distinct(supports[id]))
    && (forall e :: e in c.overlaps ==> e.id in supports)
  }

  lemma {:induction false} PlainHasNoSurplus(supports: Supports, refs: seq<Name>, v: Name)
    requires forall id :: id in supports ==> Distinct(supports[id])
    ensures Surplus(supports, refs, v) == 0
  {
    if refs != [] {
      var last := refs[|refs| - 1];
      PlainHasNoSurplus(supports, refs[..|refs| - 1], v);
      if last in supports { DistinctOnce(supports[last], v); }
    }
  }

  lemma TripleSupported(c: Complex, supports: Supports, t: Triple)
    requires HasValidFiniteIncidence(c) && t in c.triples && PlainSupports(c, supports)
    ensures Supported(supports, t.overlapRefs)
  {
    TriangleOf(c, t);
    forall ref | ref in t.overlapRefs ensures ref in supports {
      var e := FindOverlap(c.overlaps, ref).value;
      assert e in c.overlaps && e.id == ref;
    }
  }

  /** With plain supports the parity check of a triple is delta1 = 0 on it. */
  lemma PlainCheckIsCocycle(c: Complex, supports: Supports, t: Triple)
    requires HasValidFiniteIncidence(c) && t in c.triples && PlainSupports(c, supports)
    ensures CocycleZero(supports, t.overlapRefs) <==> DeltaVanishes(supports, t.overlapRefs)
  {
    TripleSupported(c, supports, t);
    CocycleZeroIffDelta(supports, t.overlapRefs);
    forall v ensures Even(Surplus(supports, t.overlapRefs, v)) { PlainHasNoSurplus(supports, t.overlapRefs, v); }
    VanishingDelta(supports, t.overlapRefs);
  }

  lemma PlainBoundaryPassesTriple(c: Complex, supports: Supports, t: Triple)
    requires HasValidFiniteIncidence(c) && InB1(c, supports) && t in c.triples
    requires PlainSupports(c, supports)
    ensures CocycleZero(supports, t.overlapRefs)
  {
    BoundaryIsCocycle(c, supports);
    PlainCheckIsCocycle(c, supports, t);
  }

  /** Without the distinctness of listings a boundary can fail the check: one overlap
      listing its variable twice more than the others do. */
  lemma RepeatedListingFails()
    ensures var ab, bc, ac := Overlap("ab", "a", "b", Some("a")), Overlap("bc", "b", "c", Some("b")), Overlap("ac", "a", "c", Some("a"));
            var c := Complex(["a", "b", "c"], [ab, bc, ac], [Triple("t", ["ab", "bc", "ac"], ["x"])], true);
            var supports := map["ab" := ["v", "v"], "bc" := ["v"], "ac" := []];
            InB1(c, supports) && !CocycleZero(supports, ["ab", "bc", "ac"])
  {
    var ab, bc, ac := Overlap("ab", "a", "b", Some("a")), Overlap("bc", "b", "c", Some("b")), Overlap("ac", "a", "c", Some("a"));
    var c := Complex(["a", "b", "c"], [ab, bc, ac], [Triple("t", ["ab", "bc", "ac"], ["x"])], true);
    var supports := map["ab" := ["v", "v"], "bc" := ["v"], "ac" := []];
    assert IsPrimitive(c, supports, {("b", "v")});
    CountOfThree(supports, ["ab", "bc", "ac"], "v");
    assert Count(supports, ["ab", "bc", "ac"], "v") == 3;
  }

  // ---------- The component carrying the residual ----------

  predicate HasResidual(supports: Supports, id: Name) {
    id in supports && supports[id] != []
  }

  function ResidualIds(supports: Supports): set<Name> {
    set id | id in supports && HasResidual(supports, id)
  }

  function IdSet(c: Complex): set<Name> { set e | e in c.overlaps :: e.id }

  /** A zero residual is certified on the whole complex, another one on the component that
      lists every overlap carrying it. */
  ghost predicate IsResidualComponent(c: Complex, supports: Supports, k: Component) {
    && SearchableComplex(c)
    && ResidualIds(supports) <= k.overlapRefs
    && if ResidualIds(supports) == {} then k == Component(ChartSet(c), IdSet(c)) else IsComponent(c, k)
  }

  lemma ResidualComponentUnique(c: Complex, supports: Supports, k: Component, l: Component)
    requires IsResidualComponent(c, supports, k) && IsResidualComponent(c, supports, l)
    ensures k == l
  {
    if id :| id in ResidualIds(supports) {
      assert id in k.overlapRefs && id in l.overlapRefs;
      var e :| e in c.overlaps && IsInner(e, k.charts) && e.id == id;
      var f :| f in c.overlaps && IsInner(f, l.charts) && f.id == id;
      SameIdSameOverlap(c, e, f);
      assert k.charts == l.charts;
    }
  }

  ghost predicate IsIndex(components: seq<Component>, index: map<Name, nat>) {
    && (forall id :: id in index ==> index[id] < |components| && id in components[index[id]].overlapRefs)
    && (forall k, id :: 0 <= k < |components| && id in components[k].overlapRefs ==> id in index)
  }

  method IndexComponents(components: seq<Component>) returns (index: map<Name, nat>)
    ensures IsIndex(components, index)
  {
    index := map[];
    for k := 0 to |components|
      invariant forall id :: id in index ==> index[id] < k && id in components[index[id]].overlapRefs
      invariant forall l, id :: 0 <= l < k && id in components[l].overlapRefs ==> id in index
    {
      index := index + map id | id in components[k].overlapRefs :: k;
    }
  }

  /** The index shared by all residual overlaps; None when one has no index or two differ. */
  method SelectComponent(index: map<Name, nat>, residual: set<Name>) returns (selected: Option<nat>)
    requires residual != {}
    ensures selected.Some? ==> forall id :: id in residual ==> id in index && index[id] == selected.value
    ensures selected.None? ==> exists id, x :: id in residual && x in residual && Disagree(index, id, x)
  {
    selected := None;
    var pending, done := residual, {};
    while pending != {}
      invariant pending + done == residual
      invariant forall id :: id in done ==> selected.Some? && id in index && index[id] == selected.value
      invariant done == {} <==> selected.None?
      decreases pending
    {
      var id :| id in pending;
      if id !in index || (selected.Some? && selected.value != index[id]) {
        if selected.Some? {
          var x :| x in done;
          assert Disagree(index, id, x);
        } else {
          assert Disagree(index, id, id);
        }
        return None;
      }
      selected, pending, done := Some(index[id]), pending - {id}, done + {id};
    }
  }

  predicate Disagree(index: map<Name, nat>, id: Name, x: Name) {
    id !in index || (x in index && index[id] != index[x])
  }

  method ResidualSupportComponent(c: Complex, supports: Supports) returns (r: Option<Component>)
    ensures r.Some? ==> IsResidualComponent(c, supports, r.value)
    ensures r.None? ==> forall k :: !IsResidualComponent(c, supports, k)
  {
    var found := RepairComplexComponents(c);
    if found.None? { return None; }
    var components := found.value;
    var index := IndexComponents(components);
    if ResidualIds(supports) == {} {
      return Some(Component(ChartSet(c), IdSet(c)));
    }
    var selected := SelectComponent(index, ResidualIds(supports));
    if selected.None? {
      NoCommonComponent(c, supports, components, index);
      return None;
    }
    var id :| id in ResidualIds(supports);
    return Some(components[selected.value]);
  }

  lemma NoCommonComponent(c: Complex, supports: Supports, components: seq<Component>, index: map<Name, nat>)
    requires IsPartition(c, components)
    requires IsIndex(components, index)
    requires exists id, x :: id in ResidualIds(supports) && x in ResidualIds(supports) && Disagree(index, id, x)
    ensures forall k :: !IsResidualComponent(c, supports, k)
  {
    var id, x :| id in ResidualIds(supports) && x in ResidualIds(supports) && Disagree(index, id, x);
    forall k ensures !IsResidualComponent(c, supports, k) {
      if IsResidualComponent(c, supports, k) {
        ResidualIndex(c, supports, components, index, k, id);
        ResidualIndex(c, supports, components, index, k, x);
      }
    }
  }

  /** Residual ids are indexed at one and the same component. */
  lemma ResidualIndex(c: Complex, supports: Supports, components: seq<Component>, index: map<Name, nat>, k: Component, id: Name)
    requires IsPartition(c, components) && IsIndex(components, index)
    requires IsResidualComponent(c, supports, k) && id in ResidualIds(supports)
    ensures id in index && components[index[id]] == k
    ensures forall l :: 0 <= l < |components| && id in components[l].overlapRefs ==> l == index[id]
  {
    var e := ResidualOverlap(c, supports, k, id);
    var m := OverlapInOneComponent(c, components, e);
    ComponentIsShared(c, k, components[m], e);
    assert id in components[m].overlapRefs;
  }

  lemma ResidualOverlap(c: Complex, supports: Supports, k: Component, id: Name) returns (e: Overlap)
    requires IsResidualComponent(c, supports, k) && id in ResidualIds(supports)
    ensures e in c.overlaps && e.id == id && IsInner(e, k.charts)
  {
    assert id in k.overlapRefs;
    e :| e in c.overlaps && IsInner(e, k.charts) && e.id == id;
  }

  lemma ComponentIsShared(c: Complex, k: Component, l: Component, e: Overlap)
    requires IsComponent(c, k) && IsComponent(c, l) && e.left in k.charts && e.left in l.charts
    ensures k == l
  {
    assert k.charts == l.charts;
  }

  // ---------- The certificate ----------

  function Filter<T(!new)>(s: seq<T>, p: T -> bool): (r: seq<T>)
    ensures forall x :: x in r <==> x in s && p(x)
  {
    if s == [] then [] else (if p(s[0]) then [s[0]] else []) + Filter(s[1..], p)
  }

  predicate Touches(t: Triple, overlapRefs: set<Name>) {
    exists ref :: ref in t.overlapRefs && ref in overlapRefs
  }

  function ComponentTriples(c: Complex, k: Component): seq<Triple> {
    Filter(c.triples, (t: Triple) => Touches(t, k.overlapRefs))
  }

  function ComponentComplex(c: Complex, k: Component): Complex {
    Complex(Filter(c.charts, a => a in k.charts),
            Filter(c.overlaps, (e: Overlap) => e.id in k.overlapRefs),
            ComponentTriples(c, k), true)
  }

  datatype CertificateKind = AutomaticC2Zero | CheckedTripleCocycleZero

  datatype CocycleCertificate = CocycleCertificate(component: Component, kind: CertificateKind, triples: seq<Triple>)

  ghost predicate Certifies(c: Complex, supports: Supports, k: Component) {
    && c.enumerationComplete && Distinct(TripleIds(c.triples))
    && IsResidualComponent(c, supports, k)
    && HasValidFiniteIncidence(ComponentComplex(c, k))
    && AllEven(supports, ComponentTriples(c, k))
  }

  lemma ComponentTriplesShaped(c: Complex, k: Component)
    requires HasValidFiniteIncidence(ComponentComplex(c, k))
    ensures forall t :: t in ComponentTriples(c, k) ==> HasTripleShape(t, k.overlapRefs)
  {
    forall t | t in ComponentTriples(c, k) ensures HasTripleShape(t, k.overlapRefs) {
      ValidTripleShape(ComponentComplex(c, k), t, k.overlapRefs);
    }
  }

  ghost predicate AllEven(supports: Supports, triples: seq<Triple>) {
    forall t :: t in triples ==> CocycleZero(supports, t.overlapRefs)
  }

  method CheckTriples(supports: Supports, triples: seq<Triple>, overlapRefs: set<Name>) returns (even: bool)
    ensures even <==> AllEven(supports, triples) && forall t :: t in triples ==> HasTripleShape(t, overlapRefs)
  {
    for i := 0 to |triples|
      invariant AllEven(supports, triples[..i])
      invariant forall t :: t in triples[..i] ==> HasTripleShape(t, overlapRefs)
    {
      assert triples[i] in triples && triples[..i + 1] == triples[..i] + [triples[i]];
      even := CheckTriple(supports, triples[i], overlapRefs);
      if !even { return; }
    }
    assert triples[..|triples|] == triples;
    even := true;
  }

  method CheckTriple(supports: Supports, t: Triple, overlapRefs: set<Name>) returns (even: bool)
    ensures even <==> HasTripleShape(t, overlapRefs) && CocycleZero(supports, t.overlapRefs)
  {
    even := TripleCocycleIsZero(supports, t.overlapRefs);
    even := even && HasTripleShape(t, overlapRefs);
  }

  /** Issued exactly when some component certifies, and then for that component. */
  method ComponentCocycleCertificate(c: Complex, supports: Supports) returns (r: Option<CocycleCertificate>)
    ensures r.Some? <==> exists k :: Certifies(c, supports, k)
    ensures r.Some? ==> Certifies(c, supports, r.value.component)
    ensures r.Some? ==> r.value.triples == ComponentTriples(c, r.value.component)
    ensures r.Some? ==> forall t :: t in r.value.triples <==>
      t in c.triples && exists ref :: ref in t.overlapRefs && ref in r.value.component.overlapRefs
    ensures r.Some? ==> r.value.kind == if r.value.triples == [] then AutomaticC2Zero else CheckedTripleCocycleZero
  {
    if !c.enumerationComplete || !Distinct(TripleIds(c.triples)) { return None; }
    var found := ResidualSupportComponent(c, supports);
    if found.None? { return None; }
    var component := found.value;
    forall k | Certifies(c, supports, k) ensures k == component { ResidualComponentUnique(c, supports, k, component); }
    var triples := ComponentTriples(c, component);
    if !HasValidFiniteIncidence(ComponentComplex(c, component)) { return None; }
    ComponentTriplesShaped(c, component);
    var even := CheckTriples(supports, triples, component.overlapRefs);
    if !even { return None; }
    assert Certifies(c, supports, component);
    var kind := if triples == [] then AutomaticC2Zero else CheckedTripleCocycleZero;
    return Some(CocycleCertificate(component, kind, triples));
  }

  function RefSet(t: Triple): set<Name> { set ref | ref in t.overlapRefs }

  predicate HasTripleShape(t: Triple, overlapRefs: set<Name>) {
    |t.overlapRefs| == 3 && |RefSet(t)| == 3 && RefSet(t) <= overlapRefs
  }

  lemma ThreeDistinct(t: Triple)
    requires |t.overlapRefs| == 3 && Distinct(t.overlapRefs)
    ensures |RefSet(t)| == 3
  {
    var refs := t.overlapRefs;
    assert RefSet(t) == {refs[0], refs[1], refs[2]};
  }

  /** The shape checks of the certificate loop repeat what the incidence check ensured. */
  lemma ValidTripleShape(c: Complex, t: Triple, overlapRefs: set<Name>)
    requires HasValidFiniteIncidence(c) && t in c.triples
    requires forall e :: e in c.overlaps ==> e.id in overlapRefs
    ensures HasTripleShape(t, overlapRefs)
  {
    assert ValidTriple(t, c.overlaps);
    ThreeDistinct(t);
  }

  // ---------- Why the certificate licenses the class verdict ----------

  /** The residual is in B1 of the whole complex exactly when it is in B1 of the component. */
  lemma ComponentVerdictIsGlobal(c: Complex, supports: Supports, k: Component)
    requires IsResidualComponent(c, supports, k)
    ensures InB1(c, supports) <==> InB1(ComponentComplex(c, k), supports)
  {
    var d := ComponentComplex(c, k);
    KeptOverlaps(c, k);
    hide ComponentComplex, IsResidualComponent;
    if h :| IsPrimitive(c, supports, h) {
      assert IsPrimitive(d, supports, h);
    }
    if h :| IsPrimitive(d, supports, h) {
      var inside: Cochain0 := set p: (Name, Name) | p in h && p.0 in k.charts;
      forall e, v | e in c.overlaps ensures Coboundary(inside, e, v) == Carries(supports, e.id, v) {
        EdgeInsideOrOutside(c, supports, k, e);
        if e in d.overlaps {
          assert Coboundary(h, e, v) == Carries(supports, e.id, v);
        } else {
          CarriedInside(c, supports, k, e.id, v);
        }
      }
      assert IsPrimitive(c, supports, inside);
    }
  }

  lemma KeptOverlaps(c: Complex, k: Component)
    ensures forall e :: e in ComponentComplex(c, k).overlaps <==> e in c.overlaps && e.id in k.overlapRefs
  {
  }

  lemma CarriedInside(c: Complex, supports: Supports, k: Component, id: Name, v: Name)
    requires IsResidualComponent(c, supports, k) && id !in k.overlapRefs
    ensures !Carries(supports, id, v)
  {
    assert id !in ResidualIds(supports);
  }

  lemma EdgeInsideOrOutside(c: Complex, supports: Supports, k: Component, e: Overlap)
    requires IsResidualComponent(c, supports, k) && e in c.overlaps
    ensures if e.id in k.overlapRefs then IsInner(e, k.charts) else e.left !in k.charts && e.right !in k.charts
  {
    assert EndpointsIn(e, c.charts);
    if ResidualIds(supports) != {} {
      ClassIsClosed(c, k.charts);
      OverlapInItsComponent(c, k, k, e);
    }
  }

  // ---------- The complex of a component ----------

  /** What the component's complex keeps: its charts, its overlaps, and the triples with an
      overlap in it. */
  lemma ComponentComplexMeans(c: Complex, k: Component)
    ensures var d := ComponentComplex(c, k);
            && d.enumerationComplete
            && (forall a :: a in d.charts <==> a in c.charts && a in k.charts)
            && (forall e :: e in d.overlaps <==> e in c.overlaps && e.id in k.overlapRefs)
            && (forall t :: t in d.triples <==> t in c.triples && exists ref :: ref in t.overlapRefs && ref in k.overlapRefs)
  {
  }

  lemma {:induction false} FilterKeepsDistinct<T(!new)>(s: seq<T>, p: T -> bool)
    requires Distinct(s)
    ensures Distinct(Filter(s, p))
  {
    if s != [] {
      assert Distinct(s[1..]);
      FilterKeepsDistinct(s[1..], p);
      if p(s[0]) {
        assert s[0] !in s[1..];
        var rest := Filter(s[1..], p);
        forall i, j | 0 <= i < j < |rest| + 1 ensures ([s[0]] + rest)[i] != ([s[0]] + rest)[j] {
          assert rest[j - 1] in rest;
        }
      }
    }
  }

  /** Ids tell the listed overlaps apart. */
  lemma DistinctOverlaps(overlaps: seq<Overlap>)
    requires Distinct(Ids(overlaps))
    ensures Distinct(overlaps)
  {
    forall i, j | 0 <= i < j < |overlaps| ensures overlaps[i] != overlaps[j] {
      assert Ids(overlaps)[i] != Ids(overlaps)[j];
    }
  }

  lemma FilteredIdsDistinct(overlaps: seq<Overlap>, p: Overlap -> bool)
    requires Distinct(Ids(overlaps))
    ensures Distinct(Ids(Filter(overlaps, p)))
  {
    DistinctOverlaps(overlaps);
    FilterKeepsDistinct(overlaps, p);
    var kept := Filter(overlaps, p);
    forall i, j | 0 <= i < j < |kept| ensures Ids(kept)[i] != Ids(kept)[j] {
      assert kept[i] in kept && kept[j] in kept;
      var m :| 0 <= m < |overlaps| && overlaps[m] == kept[i];
      var n :| 0 <= n < |overlaps| && overlaps[n] == kept[j];
      assert Ids(overlaps)[m] == kept[i].id && Ids(overlaps)[n] == kept[j].id;
    }
  }

  lemma FilteredTriplesDistinct(triples: seq<Triple>, p: Triple -> bool)
    requires Distinct(TripleIds(triples))
    ensures Distinct(TripleIds(Filter(triples, p)))
  {
    forall i, j | 0 <= i < j < |triples| ensures triples[i] != triples[j] {
      assert TripleIds(triples)[i] != TripleIds(triples)[j];
    }
    FilterKeepsDistinct(triples, p);
    var kept := Filter(triples, p);
    forall i, j | 0 <= i < j < |kept| ensures TripleIds(kept)[i] != TripleIds(kept)[j] {
      assert kept[i] in kept && kept[j] in kept;
      var m :| 0 <= m < |triples| && triples[m] == kept[i];
      var n :| 0 <= n < |triples| && triples[n] == kept[j];
      assert TripleIds(triples)[m] == kept[i].id && TripleIds(triples)[n] == kept[j].id;
    }
  }

  /** A component, or everything, is closed under overlaps sharing a chart. */
  lemma OverlapRefsClosed(c: Complex, supports: Supports, k: Component, e: Overlap, f: Overlap)
    requires IsResidualComponent(c, supports, k) && e in c.overlaps && f in c.overlaps
    requires e.id in k.overlapRefs && Pair(e) * Pair(f) != {}
    ensures f.id in k.overlapRefs
  {
    EdgeInsideOrOutside(c, supports, k, e);
    EdgeInsideOrOutside(c, supports, k, f);
    var x :| x in Pair(e) && x in Pair(f);
  }

  lemma TrianglesMeet(edges: seq<Overlap>, i: nat, j: nat)
    requires |edges| == 3 && BoundsTriangle(edges) && i < 3 && j < 3
    ensures Pair(edges[i]) * Pair(edges[j]) != {}
  {
    var a, b, d := TriangleShape(edges);
    hide BoundsTriangle, Pair;
    assert a in {a, b} && b in {a, b} && a in {a, d} && d in {a, d} && b in {b, d} && d in {b, d};
  }

  /** A triple with one overlap in the component has all three. */
  lemma TripleStaysInside(c: Complex, supports: Supports, k: Component, t: Triple)
    requires HasValidFiniteIncidence(c) && IsResidualComponent(c, supports, k)
    requires t in c.triples && Touches(t, k.overlapRefs)
    ensures forall ref :: ref in t.overlapRefs ==> ref in k.overlapRefs
  {
    TriangleOf(c, t);
    var edges := Resolve(t.overlapRefs, c.overlaps);
    var ref :| ref in t.overlapRefs && ref in k.overlapRefs;
    var i :| 0 <= i < 3 && t.overlapRefs[i] == ref;
    hide HasValidFiniteIncidence, IsResidualComponent, BoundsTriangle;
    forall j | 0 <= j < 3 ensures t.overlapRefs[j] in k.overlapRefs {
      TrianglesMeet(edges, i, j);
      OverlapRefsClosed(c, supports, k, edges[i], edges[j]);
    }
  }

  lemma FoundInComponent(c: Complex, k: Component, ref: Name)
    requires Distinct(Ids(c.overlaps)) && FindOverlap(c.overlaps, ref).Some? && ref in k.overlapRefs
    ensures FindOverlap(ComponentComplex(c, k).overlaps, ref) == FindOverlap(c.overlaps, ref)
  {
    var p := (e: Overlap) => e.id in k.overlapRefs;
    var e, kept := FindOverlap(c.overlaps, ref).value, ComponentComplex(c, k).overlaps;
    ComponentComplexMeans(c, k);
    FilteredIdsDistinct(c.overlaps, (e: Overlap) => e.id in k.overlapRefs);
    assert e in kept;
    var i :| 0 <= i < |kept| && kept[i] == e;
    FindByDistinctId(kept, i);
  }

  lemma ComponentTripleValid(c: Complex, supports: Supports, k: Component, t: Triple)
    requires HasValidFiniteIncidence(c) && IsResidualComponent(c, supports, k) && t in ComponentComplex(c, k).triples
    ensures ValidTriple(t, ComponentComplex(c, k).overlaps)
  {
    ComponentComplexMeans(c, k);
    TriangleOf(c, t);
    assert Touches(t, k.overlapRefs);
    TripleStaysInside(c, supports, k, t);
    IdsOfValid(c);
    var kept := ComponentComplex(c, k).overlaps;
    hide *;
    forall ref | ref in t.overlapRefs ensures FindOverlap(kept, ref) == FindOverlap(c.overlaps, ref) {
      TripleRefsFound(t, c.overlaps, ref);
      FoundInComponent(c, k, ref);
    }
    SameResolution(t, c.overlaps, kept);
  }

  lemma IdsOfValid(c: Complex)
    requires HasValidFiniteIncidence(c)
    ensures Distinct(Ids(c.overlaps))
  {
  }

  lemma TripleRefsFound(t: Triple, overlaps: seq<Overlap>, ref: Name)
    requires ValidTriple(t, overlaps) && ref in t.overlapRefs
    ensures FindOverlap(overlaps, ref).Some?
  {
  }

  lemma SameResolution(t: Triple, overlaps: seq<Overlap>, kept: seq<Overlap>)
    requires ValidTriple(t, overlaps)
    requires forall ref :: ref in t.overlapRefs ==> FindOverlap(kept, ref) == FindOverlap(overlaps, ref)
    ensures ValidTriple(t, kept)
  {
    hide BoundsTriangle, FindOverlap;
    assert Resolve(t.overlapRefs, kept) == Resolve(t.overlapRefs, overlaps);
  }

  lemma ComponentOverlapValid(c: Complex, supports: Supports, k: Component, e: Overlap)
    requires HasValidFiniteIncidence(c) && IsResidualComponent(c, supports, k) && e in ComponentComplex(c, k).overlaps
    ensures ValidOverlap(e, ComponentComplex(c, k).charts)
  {
    ComponentComplexMeans(c, k);
    EdgeInsideOrOutside(c, supports, k, e);
    assert ValidOverlap(e, c.charts);
  }

  /** The certificate's own incidence check passes on the component of a valid complex. */
  lemma ComponentIsValid(c: Complex, supports: Supports, k: Component)
    requires HasValidFiniteIncidence(c) && IsResidualComponent(c, supports, k)
    ensures HasValidFiniteIncidence(ComponentComplex(c, k))
  {
    var d := ComponentComplex(c, k);
    FilterKeepsDistinct(c.charts, a => a in k.charts);
    FilteredIdsDistinct(c.overlaps, (e: Overlap) => e.id in k.overlapRefs);
    FilteredTriplesDistinct(c.triples, (t: Triple) => Touches(t, k.overlapRefs));
    forall e | e in d.overlaps ensures ValidOverlap(e, d.charts) { ComponentOverlapValid(c, supports, k, e); }
    forall t | t in d.triples ensures ValidTriple(t, d.overlaps) { ComponentTripleValid(c, supports, k, t); }
  }

  // ---------- When some component carries the residual ----------

  /** The overlap carries some variable. */
  ghost predicate IsResidual(supports: Supports, e: Overlap) {
    exists v :: Carries(supports, e.id, v)
  }

  /** Every listed variable sits on an overlap, and the overlaps that carry one are joined. */
  ghost predicate ResidualIsConnected(c: Complex, supports: Supports) {
    && (forall id, v :: Carries(supports, id, v) ==> exists e :: e in c.overlaps && e.id == id)
    && (forall e, f :: e in c.overlaps && f in c.overlaps && IsResidual(supports, e) && IsResidual(supports, f) ==>
          Connected(c, e.left, f.left))
  }

  lemma ResidualIdMeans(supports: Supports, id: Name)
    ensures id in ResidualIds(supports) <==> exists v :: Carries(supports, id, v)
  {
    if id in ResidualIds(supports) {
      assert supports[id][0] in supports[id];
      assert Carries(supports, id, supports[id][0]);
    }
  }

  lemma CarriedIsConnected(c: Complex, supports: Supports, k: Component)
    requires IsResidualComponent(c, supports, k)
    ensures ResidualIsConnected(c, supports)
  {
    forall id, v | Carries(supports, id, v) ensures exists e :: e in c.overlaps && e.id == id {
      ResidualIdMeans(supports, id);
      var e := ResidualOverlap(c, supports, k, id);
    }
    forall e, f | e in c.overlaps && f in c.overlaps && IsResidual(supports, e) && IsResidual(supports, f)
      ensures Connected(c, e.left, f.left)
    {
      ResidualIdMeans(supports, e.id);
      ResidualIdMeans(supports, f.id);
      EdgeInsideOrOutside(c, supports, k, e);
      EdgeInsideOrOutside(c, supports, k, f);
    }
  }

  lemma ClassOfChart(c: Complex, a: Name) returns (s: set<Name>)
    requires EndpointsDeclared(c) && a in c.charts
    ensures IsClass(c, s) && a in s
  {
    s := set b | b in c.charts && Connected(c, a, b);
    ConnectedToItself(c, a);
    forall e | e in c.overlaps ensures e.left in s <==> e.right in s {
      assert EndpointsIn(e, c.charts);
      var i :| 0 <= i < |c.overlaps| && c.overlaps[i] == e;
      OverlapConnects(c, i);
      ConnectedSymmetric(c, e.left, e.right);
      if e.left in s { ConnectedTransitive(c, a, e.left, e.right); }
      if e.right in s { ConnectedTransitive(c, a, e.right, e.left); }
    }
    GrownIsClass(c, a, s);
  }

  lemma ConnectedToItself(c: Complex, a: Name)
    ensures Connected(c, a, a)
  {
    assert IsWalk(c, a, a, []);
  }

  lemma ConnectedIsCarried(c: Complex, supports: Supports) returns (k: Component)
    requires SearchableComplex(c) && ResidualIsConnected(c, supports)
    ensures IsResidualComponent(c, supports, k)
  {
    if ResidualIds(supports) == {} { return Component(ChartSet(c), IdSet(c)); }
    var id :| id in ResidualIds(supports);
    ResidualIdMeans(supports, id);
    var v :| Carries(supports, id, v);
    var e :| e in c.overlaps && e.id == id;
    assert EndpointsIn(e, c.charts);
    var s := ClassOfChart(c, e.left);
    k := Component(s, InnerIds(c, s));
    ClassIsClosed(c, s);
    forall other | other in ResidualIds(supports) ensures other in k.overlapRefs {
      ResidualIdMeans(supports, other);
      var u :| Carries(supports, other, u);
      var f :| f in c.overlaps && f.id == other;
      assert IsResidual(supports, e) && IsResidual(supports, f);
      assert EndpointsIn(f, c.charts) && f.left in s;
    }
  }

  /** A component carries the residual exactly when the charts and ids are sound and the
      overlaps that carry a variable are joined by walks. */
  lemma CarriedIffConnected(c: Complex, supports: Supports)
    ensures (exists k :: IsResidualComponent(c, supports, k)) <==> SearchableComplex(c) && ResidualIsConnected(c, supports)
  {
    if k :| IsResidualComponent(c, supports, k) { CarriedIsConnected(c, supports, k); }
    if SearchableComplex(c) && ResidualIsConnected(c, supports) { var k := ConnectedIsCarried(c, supports); }
  }

  lemma ValidIsSearchable(c: Complex)
    requires HasValidFiniteIncidence(c)
    ensures SearchableComplex(c)
  {
    forall e | e in c.overlaps ensures EndpointsIn(e, c.charts) { assert ValidOverlap(e, c.charts); }
  }

  lemma PlainOnComponent(c: Complex, supports: Supports, k: Component)
    requires PlainSupports(c, supports)
    ensures PlainSupports(ComponentComplex(c, k), supports)
  {
  }

  /** With plain supports, what is certified is exactly that the residual is a cocycle of
      the component that carries it. */
  lemma CertifiedIffCocycle(c: Complex, supports: Supports, k: Component)
    requires c.enumerationComplete && Distinct(TripleIds(c.triples)) && PlainSupports(c, supports)
    requires IsResidualComponent(c, supports, k) && HasValidFiniteIncidence(ComponentComplex(c, k))
    ensures Certifies(c, supports, k) <==> InZ1(ComponentComplex(c, k), supports)
  {
    PlainOnComponent(c, supports, k);
    hide HasValidFiniteIncidence, IsResidualComponent, PlainSupports, CocycleZero, DeltaVanishes, Filter, Distinct;
    var triples := ComponentTriples(c, k);
    forall t | t in triples ensures CocycleZero(supports, t.overlapRefs) <==> DeltaVanishes(supports, t.overlapRefs) {
      PlainCheckIsCocycle(ComponentComplex(c, k), supports, t);
    }
  }

  lemma DeltaOffSupport(supports: Supports, refs: seq<Name>, v: Name)
    requires forall ref :: ref in refs ==> !Carries(supports, ref, v)
    ensures !Delta1(supports, refs, v)
  {
  }

  /** Triples off the component carry no residual, so a cocycle there is one globally. */
  lemma ComponentCocycleIsGlobal(c: Complex, supports: Supports, k: Component)
    requires IsResidualComponent(c, supports, k)
    ensures InZ1(c, supports) <==> InZ1(ComponentComplex(c, k), supports)
  {
    forall t | t in c.triples && !Touches(t, k.overlapRefs) ensures DeltaVanishes(supports, t.overlapRefs) {
      forall v ensures !Delta1(supports, t.overlapRefs, v) {
        forall ref | ref in t.overlapRefs ensures !Carries(supports, ref, v) {
          assert Carries(supports, ref, v) ==> ref in ResidualIds(supports);
        }
        DeltaOffSupport(supports, t.overlapRefs, v);
      }
    }
  }

  // ---------- Classes ----------

  /** The two residuals differ by a coboundary: one class in H1. */
  ghost predicate Cohomologous(c: Complex, s: Supports, t: Supports) {
    exists h :: IsDifference(c, s, t, h)
  }

  ghost predicate IsDifference(c: Complex, s: Supports, t: Supports, h: Cochain0) {
    forall e, v :: e in c.overlaps ==> Coboundary(h, e, v) == (Carries(s, e.id, v) != Carries(t, e.id, v))
  }

  /** The class in Z1/B1 is that of the zero residual. */
  ghost predicate HasZeroClass(c: Complex, supports: Supports) {
    InZ1(c, supports) && Cohomologous(c, supports, map[])
  }

  lemma ZeroClassIsBoundary(c: Complex, supports: Supports)
    requires InZ1(c, supports)
    ensures HasZeroClass(c, supports) <==> InB1(c, supports)
  {
    forall h ensures IsDifference(c, supports, map[], h) <==> IsPrimitive(c, supports, h) {}
  }

  /** A certificate for plain supports: the residual is in Z1, of its component and of the
      whole complex, and its class in Z1/B1 of the component is zero exactly when the global
      membership in B1 holds. */
  lemma CertificateLicensesClass(c: Complex, supports: Supports, k: Component)
    requires Certifies(c, supports, k) && PlainSupports(c, supports)
    ensures InZ1(ComponentComplex(c, k), supports) && InZ1(c, supports)
    ensures HasZeroClass(ComponentComplex(c, k), supports) <==> InB1(c, supports)
    ensures HasZeroClass(c, supports) <==> InB1(c, supports)
  {
    CertifiedIffCocycle(c, supports, k);
    ComponentCocycleIsGlobal(c, supports, k);
    ComponentVerdictIsGlobal(c, supports, k);
    ZeroClassIsBoundary(ComponentComplex(c, k), supports);
    ZeroClassIsBoundary(c, supports);
  }

  /** Without plain supports a certificate says only that delta1 is the parity of the
      repeated listings. */
  lemma CertifiedUpToSurplus(c: Complex, supports: Supports, k: Component, t: Triple, v: Name)
    requires Certifies(c, supports, k) && t in ComponentComplex(c, k).triples
    ensures Delta1(supports, t.overlapRefs, v) <==> !Even(Surplus(supports, t.overlapRefs, v))
  {
    assert CocycleZero(supports, t.overlapRefs);
    CocycleZeroIffDelta(supports, t.overlapRefs);
  }

  /** On a valid complex with plain supports a certificate is issued exactly when the complex
      is complete, the residual is a cocycle, and the overlaps carrying it are joined. */
  lemma CertificateIssuedIff(c: Complex, supports: Supports)
    requires HasValidFiniteIncidence(c) && PlainSupports(c, supports)
    ensures (exists k :: Certifies(c, supports, k)) <==>
      c.enumerationComplete && InZ1(c, supports) && ResidualIsConnected(c, supports)
  {
    ValidIsSearchable(c);
    CarriedIffConnected(c, supports);
    forall k | IsResidualComponent(c, supports, k) && c.enumerationComplete
      ensures Certifies(c, supports, k) <==> InZ1(c, supports)
    {
      ComponentIsValid(c, supports, k);
      CertifiedIffCocycle(c, supports, k);
      ComponentCocycleIsGlobal(c, supports, k);
    }
    hide HasValidFiniteIncidence, IsResidualComponent, InZ1, ResidualIsConnected, SearchableComplex;
    if k :| Certifies(c, supports, k) { assert IsResidualComponent(c, supports, k); }
    if k :| IsResidualComponent(c, supports, k) {}
  }

  /** On a valid, complete complex a derived residual that is a boundary and is carried by a
      component is never refused. */
  lemma BoundaryIsCertified(c: Complex, supports: Supports, k: Component)
    requires HasValidFiniteIncidence(c) && c.enumerationComplete && PlainSupports(c, supports)
    requires IsResidualComponent(c, supports, k) && InB1(c, supports)
    ensures Certifies(c, supports, k)
  {
    ComponentIsValid(c, supports, k);
    BoundaryIsCocycle(c, supports);
    ComponentCocycleIsGlobal(c, supports, k);
    CertifiedIffCocycle(c, supports, k);
  }
}
