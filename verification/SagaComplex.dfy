/**
 The finite complex of charts, overlaps and triples that a cover and its restriction
 edges derive, with the incidence check of tools/archsig/src/saga_complex.rs.
 A `BTreeSet` is a `set`; an unordered pair, which the program keeps sorted, is a
 two-element set.
 */
module SagaComplex {
  import opened Sequences
  import opened Names
  import opened Options

  datatype Overlap = Overlap(id: Name, left: Name, right: Name, contextRef: Option<Name>)

  datatype Triple = Triple(id: Name, overlapRefs: seq<Name>, atomRefs: seq<Name>)

  datatype Complex = Complex(
    charts: seq<Name>,
    overlaps: seq<Overlap>,
    triples: seq<Triple>,
    enumerationComplete: bool)

  /** For each overlap id, the residual variables it carries. */
  type Supports = map<Name, seq<Name>>

  function Ids(overlaps: seq<Overlap>): (ids: seq<Name>)
    ensures |ids| == |overlaps| && forall i :: 0 <= i < |ids| ==> ids[i] == overlaps[i].id
  {
    seq(|overlaps|, i requires 0 <= i < |overlaps| => overlaps[i].id)
  }

  function TripleIds(triples: seq<Triple>): (ids: seq<Name>)
    ensures |ids| == |triples| && forall i :: 0 <= i < |ids| ==> ids[i] == triples[i].id
  {
    seq(|triples|, i requires 0 <= i < |triples| => triples[i].id)
  }

  predicate EndpointsIn(overlap: Overlap, charts: seq<Name>) {
    overlap.left in charts && overlap.right in charts
  }

  predicate EndpointsDeclared(c: Complex) {
    forall e :: e in c.overlaps ==> EndpointsIn(e, c.charts)
  }

  /** The first overlap with the given id. */
  function FindOverlap(overlaps: seq<Overlap>, id: Name): (r: Option<Overlap>)
    ensures r.Some? ==> r.value in overlaps && r.value.id == id
    ensures r.None? ==> id !in Ids(overlaps)
  {
    if overlaps == [] then None
    else if overlaps[0].id == id then Some(overlaps[0])
    else
      var rest := FindOverlap(overlaps[1..], id);
      assert rest.None? ==> forall i :: 0 <= i < |overlaps| ==> i == 0 || overlaps[i] == overlaps[1..][i - 1];
      assert rest.None? ==> forall i :: 1 <= i < |overlaps| ==> Ids(overlaps)[i] == Ids(overlaps[1..])[i - 1];
      rest
  }

  predicate ValidOverlap(overlap: Overlap, charts: seq<Name>) {
    && EndpointsIn(overlap, charts)
    && overlap.left != overlap.right
    && overlap.contextRef.Some?
    && (overlap.contextRef.value == overlap.left || overlap.contextRef.value == overlap.right)
  }

  function Pair(e: Overlap): set<Name> { {e.left, e.right} }

  /** The three overlaps bound a triangle: three vertices and three different pairs of
      them, which are then all the pairs (see AllPairsAreEdges). */
  predicate BoundsTriangle(edges: seq<Overlap>)
    requires |edges| == 3
  {
    && edges[0].left != edges[0].right && edges[1].left != edges[1].right && edges[2].left != edges[2].right
    && |Pair(edges[0]) + Pair(edges[1]) + Pair(edges[2])| == 3
    && Pair(edges[0]) != Pair(edges[1]) && Pair(edges[0]) != Pair(edges[2]) && Pair(edges[1]) != Pair(edges[2])
  }

  function Resolve(refs: seq<Name>, overlaps: seq<Overlap>): (edges: seq<Overlap>)
    requires forall ref :: ref in refs ==> FindOverlap(overlaps, ref).Some?
    ensures |edges| == |refs|
    ensures forall i :: 0 <= i < |refs| ==> edges[i] in overlaps && edges[i].id == refs[i]
  {
    seq(|refs|, i requires 0 <= i < |refs| => FindOverlap(overlaps, refs[i]).value)
  }

  predicate ValidTriple(triple: Triple, overlaps: seq<Overlap>) {
    && triple.atomRefs != [] && Distinct(triple.atomRefs)
    && |triple.overlapRefs| == 3 && Distinct(triple.overlapRefs)
    && (forall ref :: ref in triple.overlapRefs ==> FindOverlap(overlaps, ref).Some?)
    && BoundsTriangle(Resolve(triple.overlapRefs, overlaps))
  }

  predicate HasValidFiniteIncidence(c: Complex) {
    && Distinct(c.charts)
    && Distinct(Ids(c.overlaps))
    && Distinct(TripleIds(c.triples))
    && (forall e :: e in c.overlaps ==> ValidOverlap(e, c.charts))
    && (forall t :: t in c.triples ==> ValidTriple(t, c.overlaps))
  }

  lemma {:induction false} FindByDistinctId(overlaps: seq<Overlap>, i: nat)
    requires Distinct(Ids(overlaps)) && i < |overlaps|
    ensures FindOverlap(overlaps, overlaps[i].id) == Some(overlaps[i])
  {
    var found := FindOverlap(overlaps, overlaps[i].id);
    assert Ids(overlaps)[i] == overlaps[i].id;
    var k :| 0 <= k < |overlaps| && overlaps[k] == found.value;
    assert Ids(overlaps)[k] == Ids(overlaps)[i];
  }
}
