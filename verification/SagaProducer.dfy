/**
 Deriving the finite complex from a cover and its observed restrictions, as in
 tools/archsig/src/saga_complex.rs, and when the consumer's incidence check accepts it.
 */
module SagaProducer {
  import opened Sequences
  import opened Options
  import opened SagaComplex
  import opened Names

  datatype Context = Context(id: Name, restrictsTo: seq<Name>, atoms: seq<Name>)

  /** `value` is the trimmed object of the atom, absent when missing or blank. */
  datatype Atom = Atom(id: Name, isSectionValue: bool, value: Option<Name>)

  datatype Cover = Cover(id: Name, sourceId: Name, contextIds: seq<Name>)

  datatype Archmap = Archmap(contexts: seq<Context>, covers: seq<Cover>, atoms: seq<Atom>)

  /** The contexts of the first cover with the given id or source id. */
  function Charts(covers: seq<Cover>, ref: Name): seq<Name> {
    if covers == [] then []
    else if covers[0].id == ref || covers[0].sourceId == ref then covers[0].contextIds
    else Charts(covers[1..], ref)
  }

  // ---------- Overlaps ----------

  type NamePair = (Name, Name)

  function SortedPair(a: Name, b: Name): NamePair {
    if AtMost(b, a) then (b, a) else (a, b)
  }

  function AddTarget(sources: map<NamePair, Name>, id: Name, target: Name): map<NamePair, Name> {
    var pair := SortedPair(id, target);
    sources[pair := if pair in sources && AtMost(sources[pair], id) then sources[pair] else id]
  }

  function AddTargets(sources: map<NamePair, Name>, id: Name, targets: seq<Name>, charts: set<Name>): map<NamePair, Name> {
    if targets == [] then sources else
      var n := |targets| - 1;
      var before := AddTargets(sources, id, targets[..n], charts);
      if targets[n] in charts then AddTarget(before, id, targets[n]) else before
  }

  /** For each restricted pair of charts, the least context restricting one to the other. */
  function PairSources(contexts: seq<Context>, charts: set<Name>): map<NamePair, Name> {
    if contexts == [] then map[] else
      var last := contexts[|contexts| - 1];
      var before := PairSources(contexts[..|contexts| - 1], charts);
      if last.id in charts then AddTargets(before, last.id, last.restrictsTo, charts) else before
  }

  method CollectPairSources(contexts: seq<Context>, charts: set<Name>) returns (sources: map<NamePair, Name>)
    ensures sources == PairSources(contexts, charts)
  {
    sources := map[];
    for i := 0 to |contexts|
      invariant sources == PairSources(contexts[..i], charts)
    {
      assert contexts[..i + 1][..i] == contexts[..i];
      if contexts[i].id in charts {
        ghost var before := sources;
        var targets := contexts[i].restrictsTo;
        for j := 0 to |targets|
          invariant sources == AddTargets(before, contexts[i].id, targets[..j], charts)
        {
          assert targets[..j + 1][..j] == targets[..j];
          if targets[j] in charts { sources := AddTarget(sources, contexts[i].id, targets[j]); }
        }
        assert targets[..|targets|] == targets;
      }
    }
    assert contexts[..|contexts|] == contexts;
  }

  /** Some listed context with this id restricts to the target. */
  predicate Restricts(contexts: seq<Context>, id: Name, target: Name) {
    exists i :: 0 <= i < |contexts| && contexts[i].id == id && target in contexts[i].restrictsTo
  }

  ghost predicate IsSource(contexts: seq<Context>, charts: set<Name>, pair: NamePair, id: Name) {
    exists target :: id in charts && target in charts && Restricts(contexts, id, target) && pair == SortedPair(id, target)
  }

  /** The recorded source of a pair is its least source, and only pairs with one appear. */
  ghost predicate LeastSources(sources: map<NamePair, Name>, isSource: (NamePair, Name) -> bool) {
    && (forall pair :: pair in sources ==> isSource(pair, sources[pair]))
    && (forall pair, id :: isSource(pair, id) ==> pair in sources && AtMost(sources[pair], id))
  }

  lemma AddTargetLeast(sources: map<NamePair, Name>, id: Name, target: Name, p: (NamePair, Name) -> bool, q: (NamePair, Name) -> bool)
    requires LeastSources(sources, p)
    requires forall pair, x :: q(pair, x) <==> p(pair, x) || (pair == SortedPair(id, target) && x == id)
    ensures LeastSources(AddTarget(sources, id, target), q)
  {
    var pair, r := SortedPair(id, target), AddTarget(sources, id, target);
    forall k, x | q(k, x) ensures k in r && AtMost(r[k], x) {
      AtMostTotal(id, x);
      if k == pair && pair in sources {
        AtMostTotal(sources[pair], id);
        if p(k, x) && !AtMost(sources[pair], id) { AtMostTransitive(id, sources[pair], x); }
      }
    }
  }

  lemma SameTest(sources: map<NamePair, Name>, p: (NamePair, Name) -> bool, q: (NamePair, Name) -> bool)
    requires LeastSources(sources, p) && forall pair, x :: p(pair, x) <==> q(pair, x)
    ensures LeastSources(sources, q)
  {
  }

  ghost function SourceTest(contexts: seq<Context>, charts: set<Name>): (NamePair, Name) -> bool {
    (pair: NamePair, id: Name) => IsSource(contexts, charts, pair, id)
  }

  ghost function PartialTest(contexts: seq<Context>, charts: set<Name>, id: Name, targets: seq<Name>): (NamePair, Name) -> bool {
    (pair: NamePair, x: Name) => IsSource(contexts, charts, pair, x)
      || (x == id && exists t :: t in targets && t in charts && pair == SortedPair(id, t))
  }

  lemma {:induction false} AddTargetsLeast(sources: map<NamePair, Name>, contexts: seq<Context>, id: Name, targets: seq<Name>, charts: set<Name>)
    requires LeastSources(sources, SourceTest(contexts, charts))
    ensures LeastSources(AddTargets(sources, id, targets, charts), PartialTest(contexts, charts, id, targets))
  {
    if targets != [] {
      var n := |targets| - 1;
      var p, q := PartialTest(contexts, charts, id, targets[..n]), PartialTest(contexts, charts, id, targets);
      AddTargetsLeast(sources, contexts, id, targets[..n], charts);
      assert targets == targets[..n] + [targets[n]];
      if targets[n] in charts {
        AddTargetLeast(AddTargets(sources, id, targets[..n], charts), id, targets[n], p, q);
      } else {
        SameTest(AddTargets(sources, id, targets[..n], charts), p, q);
      }
    } else {
      SameTest(sources, SourceTest(contexts, charts), PartialTest(contexts, charts, id, targets));
    }
  }

  lemma {:induction false} PairSourcesLeast(contexts: seq<Context>, charts: set<Name>)
    ensures LeastSources(PairSources(contexts, charts), SourceTest(contexts, charts))
  {
    if contexts != [] {
      var n := |contexts| - 1;
      var init, last := contexts[..n], contexts[n];
      PairSourcesLeast(init, charts);
      forall id, target ensures Restricts(contexts, id, target) <==> Restricts(init, id, target) || (id == last.id && target in last.restrictsTo) {
        RestrictsLast(contexts, id, target);
      }
      if last.id in charts {
        AddTargetsLeast(PairSources(init, charts), init, last.id, last.restrictsTo, charts);
        forall pair, x ensures SourceTest(contexts, charts)(pair, x) <==> PartialTest(init, charts, last.id, last.restrictsTo)(pair, x) {
          LastSource(contexts, charts, pair, x);
        }
        SameTest(PairSources(contexts, charts), PartialTest(init, charts, last.id, last.restrictsTo), SourceTest(contexts, charts));
      } else {
        SameTest(PairSources(contexts, charts), SourceTest(init, charts), SourceTest(contexts, charts));
      }
    }
  }

  lemma RestrictsLast(contexts: seq<Context>, id: Name, target: Name)
    requires contexts != []
    ensures var n := |contexts| - 1;
            Restricts(contexts, id, target) <==>
              Restricts(contexts[..n], id, target) || (id == contexts[n].id && target in contexts[n].restrictsTo)
  {
    var n := |contexts| - 1;
    if i :| 0 <= i < n && contexts[..n][i].id == id && target in contexts[..n][i].restrictsTo {
      assert contexts[i].id == id && target in contexts[i].restrictsTo;
    }
    if i :| 0 <= i < |contexts| && contexts[i].id == id && target in contexts[i].restrictsTo {
      assert i < n ==> contexts[..n][i].id == id && target in contexts[..n][i].restrictsTo;
    }
  }

  lemma LastSource(contexts: seq<Context>, charts: set<Name>, pair: NamePair, x: Name)
    requires contexts != []
    ensures var last := contexts[|contexts| - 1];
            last.id in charts ==>
              (SourceTest(contexts, charts)(pair, x)
               <==> PartialTest(contexts[..|contexts| - 1], charts, last.id, last.restrictsTo)(pair, x))
  {
    var init, last := contexts[..|contexts| - 1], contexts[|contexts| - 1];
    forall target
      ensures Restricts(contexts, x, target) <==> (Restricts(init, x, target) || (x == last.id && target in last.restrictsTo))
    {
      RestrictsLast(contexts, x, target);
    }
  }

  function OverlapId(pair: NamePair): Name { "overlap:" + pair.0 + ":" + pair.1 }

  function MakeOverlap(pair: NamePair, source: Name): Overlap {
    Overlap(OverlapId(pair), pair.0, pair.1, Some(source))
  }

  /** The keys of the map in their order: first component first. */
  function OrderedPairs(order: seq<Name>, sources: map<NamePair, Name>): seq<NamePair> {
    PairsUpTo(order, |order|, sources)
  }

  function PairsUpTo(order: seq<Name>, n: nat, sources: map<NamePair, Name>): seq<NamePair>
    requires n <= |order|
  {
    if n == 0 then [] else PairsUpTo(order, n - 1, sources) + PairsOf(order[n - 1], order, sources)
  }

  function PairsOf(left: Name, order: seq<Name>, sources: map<NamePair, Name>): seq<NamePair> {
    if order == [] then [] else
      var n := |order| - 1;
      PairsOf(left, order[..n], sources) + if (left, order[n]) in sources then [(left, order[n])] else []
  }

  lemma {:induction false} PairsOfAre(left: Name, order: seq<Name>, sources: map<NamePair, Name>)
    requires Distinct(order)
    ensures forall p :: p in PairsOf(left, order, sources) <==> p.0 == left && p.1 in order && p in sources
    ensures Distinct(PairsOf(left, order, sources))
  {
    if order != [] {
      var n := |order| - 1;
      PairsOfAre(left, order[..n], sources);
      assert order == order[..n] + [order[n]];
      assert order[n] !in order[..n];
      var before := PairsOf(left, order[..n], sources);
      assert (left, order[n]) !in before;
    }
  }

  lemma DistinctConcat<T>(a: seq<T>, b: seq<T>)
    requires Distinct(a) && Distinct(b) && forall x :: x in a ==> x !in b
    ensures Distinct(a + b)
  {
    forall i, j | 0 <= i < j < |a + b| ensures (a + b)[i] != (a + b)[j] {
      if i < |a| <= j { assert a[i] in a && b[j - |a|] in b; }
    }
  }

  lemma {:induction false} PairsUpToAre(order: seq<Name>, n: nat, sources: map<NamePair, Name>)
    requires Distinct(order) && n <= |order|
    ensures forall p :: p in PairsUpTo(order, n, sources) <==> p.0 in order[..n] && p.1 in order && p in sources
    ensures Distinct(PairsUpTo(order, n, sources))
  {
    if n > 0 {
      PairsUpToAre(order, n - 1, sources);
      PairsOfAre(order[n - 1], order, sources);
      assert order[..n] == order[..n - 1] + [order[n - 1]];
      assert order[n - 1] !in order[..n - 1];
      DistinctConcat(PairsUpTo(order, n - 1, sources), PairsOf(order[n - 1], order, sources));
    }
  }

  method ListPairs(order: seq<Name>, sources: map<NamePair, Name>) returns (pairs: seq<NamePair>)
    ensures pairs == OrderedPairs(order, sources)
  {
    pairs := [];
    for i := 0 to |order|
      invariant pairs == PairsUpTo(order, i, sources)
    {
      for j := 0 to |order|
        invariant pairs == PairsUpTo(order, i, sources) + PairsOf(order[i], order[..j], sources)
      {
        assert order[..j + 1][..j] == order[..j];
        if (order[i], order[j]) in sources { pairs := pairs + [(order[i], order[j])]; }
      }
      assert order[..|order|] == order;
    }
  }

  function Overlaps(pairs: seq<NamePair>, sources: map<NamePair, Name>): (r: seq<Overlap>)
    requires forall p :: p in pairs ==> p in sources
    ensures |r| == |pairs| && forall i :: 0 <= i < |r| ==> pairs[i] in sources && r[i] == MakeOverlap(pairs[i], sources[pairs[i]])
  {
    seq(|pairs|, i requires 0 <= i < |pairs| => assert pairs[i] in pairs; MakeOverlap(pairs[i], sources[pairs[i]]))
  }
}
