/**
 The reduction behind necessity_map.py and depth_map_toy.py: a comparison is safe for every
 law exactly when every constant-coefficient A-subnerve comparison is an isomorphism on H1.
 */
module Uniformity {
  import opened Options
  import opened Sequences
  import opened Matrices
  import opened Cohomology
  import opened H1Meaning
  import opened DirectSums
  import opened Nerves
  import opened NerveUnions
  import opened Restriction
  import opened LawBlocks

  /** The analysis of the A-subnerve comparison. */
  ghost function BlockAnalysis(c: Comparison, a: Targets): H1Analysis
    requires IsComparison(c)
  {
    SubcomparisonIsMorphism(c, a);
    MorphismIsCochainMap(Subcomparison(c, a), Identity(1));
    AnalysisOf(CoefficientMap(Subcomparison(c, a), Identity(1)))
  }

  /** Every nonempty set of coarse targets gives an isomorphism. */
  ghost predicate IsUniform(c: Comparison)
    requires IsComparison(c)
  {
    forall a: Targets :: a != {} && InRange(a, c.coarseTargets) ==> BlockAnalysis(c, a).isomorphism
  }

  /** The analysis of the law-generated comparison. */
  ghost function LawAnalysis(c: Comparison, law: Law): H1Analysis
    requires IsComparison(c) && IsLaw(c, law)
  {
    LawAnalysisIsSumOverValues(c, law);
    AnalysisOf(Underlying(Generated(c, law)))
  }

  // ---------- Sums of isomorphisms ----------

  predicate IsBounded(a: H1Analysis) {
    && a == Analysis(a.coarseDimension, a.fineDimension, a.comparisonRank)
    && 0 <= a.comparisonRank <= a.coarseDimension && a.comparisonRank <= a.fineDimension
  }

  /** A bounded sum is an isomorphism exactly when each summand is. */
  lemma {:induction false} TotalIsIsomorphism(items: seq<H1Analysis>)
    requires forall i :: 0 <= i < |items| ==> IsBounded(items[i])
    ensures IsBounded(DirectSums.Total(items))
    ensures DirectSums.Total(items).isomorphism <==> forall i :: 0 <= i < |items| ==> items[i].isomorphism
  {
    if items != [] { TotalIsIsomorphism(items[..|items| - 1]); }
  }

  lemma BlockIsBounded(c: Comparison, a: Targets)
    requires IsComparison(c)
    ensures IsBounded(BlockAnalysis(c, a))
  {
    SubcomparisonIsMorphism(c, a);
    MorphismIsCochainMap(Subcomparison(c, a), Identity(1));
    RankIsBounded(CoefficientMap(Subcomparison(c, a), Identity(1)));
  }

  /** The blocks of a law, one per value. */
  lemma LawBlocksOf(c: Comparison, law: Law) returns (items: seq<H1Analysis>)
    requires IsComparison(c) && IsLaw(c, law)
    ensures var values := ValueOrder(law.fineDescend);
            && |items| == |values|
            && (forall i :: 0 <= i < |values| ==> items[i] == BlockAnalysis(c, TargetsOf(law.coarseDescend, values[i])))
    ensures LawAnalysis(c, law) == DirectSums.Total(items)
  {
    hide IsComparison, IsLaw, IsMorphism, IsCochainMap, AnalysisOf, CoefficientMap, Generated, Subcomparison;
    LawAnalysisIsSumOverValues(c, law);
    var parts := Parts(c, law.coarseDescend, ValueOrder(law.fineDescend));
    items :| |items| == |parts|
      && (forall i :: 0 <= i < |parts| ==> items[i] == AnalysisOf(CoefficientMap(parts[i], Identity(1))))
      && AnalysisOf(Underlying(Generated(c, law))) == DirectSums.Total(items)
      && Defect(AnalysisOf(Underlying(Generated(c, law)))) == SumDefects(items);
  }

  /** A law reads an isomorphism exactly when each of its value classes does. */
  lemma LawIsIsomorphism(c: Comparison, law: Law)
    requires IsComparison(c) && IsLaw(c, law)
    ensures IsBounded(LawAnalysis(c, law))
    ensures var values := ValueOrder(law.fineDescend);
            LawAnalysis(c, law).isomorphism <==>
              forall i :: 0 <= i < |values| ==> BlockAnalysis(c, TargetsOf(law.coarseDescend, values[i])).isomorphism
  {
    hide IsComparison, IsLaw, BlockAnalysis, LawAnalysis, IsBounded, TargetsOf, ValueOrder;
    var items := LawBlocksOf(c, law);
    var values := ValueOrder(law.fineDescend);
    forall i | 0 <= i < |values| ensures IsBounded(items[i]) { BlockIsBounded(c, TargetsOf(law.coarseDescend, values[i])); }
    TotalIsIsomorphism(items);
  }

  // ---------- The law that separates A ----------

  function Indicator(a: Targets, t: int): int { if t in a then 1 else 0 }

  /** One on A and zero off it. */
  function IndicatorLaw(c: Comparison, a: Targets): Law
    requires IsComparison(c)
  {
    var fine := seq(|c.pi|, t requires 0 <= t < |c.pi| => Indicator(a, c.pi[t]));
    Law(fine, seq(c.coarseTargets, u => Indicator(a, u)), fine)
  }

  lemma IndicatorIsLaw(c: Comparison, a: Targets)
    requires IsComparison(c) && a != {} && InRange(a, c.coarseTargets)
    ensures var law := IndicatorLaw(c, a);
            && IsLaw(c, law) && TargetsOf(law.coarseDescend, 1) == a
            && 1 in ValueOrder(law.fineDescend)
  {
    var law := IndicatorLaw(c, a);
    assert TargetsOf(law.coarseDescend, 1) == a;
    ValueClassesAreLegal(c, law, 1);
  }

  lemma UniformGivesLaw(c: Comparison, law: Law)
    requires IsComparison(c) && IsUniform(c) && IsLaw(c, law)
    ensures LawAnalysis(c, law).isomorphism
  {
    hide IsComparison, IsLaw, BlockAnalysis, LawAnalysis, ValueOrder, InRange, TargetsOf;
    ClassesOfLawAreLegal(c, law);
    LawIsIsomorphism(c, law);
  }

  lemma LawGivesBlock(c: Comparison, a: Targets)
    requires IsComparison(c) && a != {} && InRange(a, c.coarseTargets)
    requires IsLaw(c, IndicatorLaw(c, a)) ==> LawAnalysis(c, IndicatorLaw(c, a)).isomorphism
    ensures BlockAnalysis(c, a).isomorphism
  {
    hide IsComparison, IsLaw, BlockAnalysis, LawAnalysis, ValueOrder, InRange, IndicatorLaw;
    IndicatorIsLaw(c, a);
    var law := IndicatorLaw(c, a);
    LawIsIsomorphism(c, law);
    var values := ValueOrder(law.fineDescend);
    var i :| 0 <= i < |values| && values[i] == 1;
  }

  /** Every A gives an isomorphism exactly when every law does. */
  lemma UniformIffEveryLaw(c: Comparison)
    requires IsComparison(c)
    ensures IsUniform(c) <==> forall law :: IsLaw(c, law) ==> LawAnalysis(c, law).isomorphism
  {
    hide IsComparison, IsLaw, BlockAnalysis, LawAnalysis, InRange, IndicatorLaw;
    if IsUniform(c) {
      forall law | IsLaw(c, law) ensures LawAnalysis(c, law).isomorphism { UniformGivesLaw(c, law); }
    }
    if forall law :: IsLaw(c, law) ==> LawAnalysis(c, law).isomorphism {
      forall a: Targets | a != {} && InRange(a, c.coarseTargets) ensures BlockAnalysis(c, a).isomorphism { LawGivesBlock(c, a); }
    }
  }

  /** And exactly when J_A is (0, 0) for every A. */
  lemma UniformIffNoDefect(c: Comparison)
    requires IsComparison(c)
    ensures IsUniform(c) <==>
      forall a: Targets :: a != {} && InRange(a, c.coarseTargets) ==> Defect(BlockAnalysis(c, a)) == (0, 0)
  {
    hide IsComparison, BlockAnalysis, InRange;
    forall a: Targets ensures BlockAnalysis(c, a).isomorphism <==> Defect(BlockAnalysis(c, a)) == (0, 0) {
      BlockIsBounded(c, a);
    }
  }

  // ---------- The program's enumeration ----------

  function TargetRange(n: nat): (r: Targets)
    ensures forall t :: t in r <==> 0 <= t < n
  {
    if n == 0 then {} else TargetRange(n - 1) + {n - 1}
  }

  /** Every nonempty set of coarse targets is analysed; none is refused. */
  method CheckUniform(c: Comparison) returns (uniform: bool)
    requires IsComparison(c)
    ensures uniform <==> IsUniform(c)
  {
    hide IsComparison, IsMorphism, AnalysisOf, CoefficientMap, Subcomparison;
    assert 0 <= c.coarseTargets by { PositiveTargets(c); }
    var all := TargetRange(c.coarseTargets);
    var subsets := Enumerate(set a: Targets | a <= all);
    for i := 0 to |subsets|
      invariant forall j :: 0 <= j < i && subsets[j] != {} ==> BlockAnalysis(c, subsets[j]).isomorphism
    {
      assert subsets[i] in subsets;
      if subsets[i] != {} {
        var part := CoordinateSubcomparison(c, subsets[i]);
        var analysis := AnalyzeH1(part.value.morphism, Identity(1));
        if !analysis.value.isomorphism { return false; }
      }
    }
    forall a: Targets | a != {} && InRange(a, c.coarseTargets) ensures BlockAnalysis(c, a).isomorphism {
      assert a <= all;
      assert a in subsets;
    }
    return true;
  }

  lemma PositiveTargets(c: Comparison)
    requires IsComparison(c)
    ensures c.coarseTargets > 0
  {
  }
}
