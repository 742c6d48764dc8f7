/**
 Deriving the residual of a run (tools/archsig/src/saga.rs): every fault the derivation
 can report, which of them a derived complex can still meet, and what the result feeds.
 */
module ResidualDerivation {
  import opened Sequences
  import opened Options
  import opened SagaComplex
  import opened BoundaryMembership
  import opened Certificate
  import opened Names
  import opened SagaProducer
  import opened SagaDerivation
  import opened ResidualCompare

  const MISMATCH_VARIABLE: Name := "cech:section-mismatch"

  datatype Profile = Profile(coefficient: Name, coverRef: Name)

  datatype LawPlan = LawPlan(evaluator: Name, lawIdIsBlank: bool)

  /** What observing the sections on an edge yields. */
  datatype Observation = Observation(observed: bool, value: bool)

  type Observer = (Name, Name) -> Observation

  datatype Fault =
    | CoefficientOutsideF2
    | CoverUnresolved
    | LawPlanNotSelected
    | ChartOutsideCover
    | NoRestrictionEdges
    | DuplicateOverlapId
    | DuplicateChartPair
    | EndpointUndeclared
    | NoSourceContext
    | SourceNotAnEndpoint
    | RestrictionUnobserved
    | SectionUnobserved

  datatype Outcome = Residual(supports: Supports, edges: seq<RunEdge>) | Faulted(fault: Fault)

  predicate PlanIsSelected(plan: Option<LawPlan>) {
    plan.Some? ==> plan.value.evaluator == "ag.saga-descent" && !plan.value.lawIdIsBlank
  }

  // ---------- The checks, in order ----------

  function DuplicateFault(overlaps: seq<Overlap>): Option<Fault> {
    if overlaps == [] then None else
      var init, last := overlaps[..|overlaps| - 1], overlaps[|overlaps| - 1];
      var before := DuplicateFault(init);
      if before.Some? then before
      else if last.id in SeenIds(init) then Some(DuplicateOverlapId)
      else if Pair(last) in SeenPairs(init) then Some(DuplicateChartPair)
      else None
  }

  function SeenIds(overlaps: seq<Overlap>): set<Name> { set e | e in overlaps :: e.id }

  function SeenPairs(overlaps: seq<Overlap>): set<set<Name>> { set e | e in overlaps :: Pair(e) }

  lemma SeenNext(overlaps: seq<Overlap>, i: nat)
    requires i < |overlaps|
    ensures SeenIds(overlaps[..i + 1]) == SeenIds(overlaps[..i]) + {overlaps[i].id}
    ensures SeenPairs(overlaps[..i + 1]) == SeenPairs(overlaps[..i]) + {Pair(overlaps[i])}
  {
    hide Pair;
    assert overlaps[..i + 1] == overlaps[..i] + [overlaps[i]];
  }

  lemma SeenIdsAreIds(overlaps: seq<Overlap>, id: Name)
    ensures id in SeenIds(overlaps) <==> id in Ids(overlaps)
  {
    if e :| e in overlaps && e.id == id {
      var i :| 0 <= i < |overlaps| && overlaps[i] == e;
      assert Ids(overlaps)[i] == id;
    }
    if i :| 0 <= i < |overlaps| && Ids(overlaps)[i] == id { assert overlaps[i] in overlaps; }
  }

  function OverlapFault(n: Archmap, charts: seq<Name>, observe: Observer, e: Overlap): Option<Fault> {
    if !EndpointsIn(e, charts) then Some(EndpointUndeclared)
    else if e.contextRef.None? then Some(NoSourceContext)
    else
      var source := e.contextRef.value;
      if source != e.left && source != e.right then Some(SourceNotAnEndpoint)
      else if !Restricts(n.contexts, source, if source == e.left then e.right else e.left) then Some(RestrictionUnobserved)
      else if !observe(e.left, e.right).observed then Some(SectionUnobserved)
      else None
  }

  function OverlapsFault(n: Archmap, charts: seq<Name>, observe: Observer, overlaps: seq<Overlap>): Option<Fault> {
    if overlaps == [] then None else
      var before := OverlapsFault(n, charts, observe, overlaps[..|overlaps| - 1]);
      if before.Some? then before else OverlapFault(n, charts, observe, overlaps[|overlaps| - 1])
  }

  function ResidualFault(n: Archmap, profile: Profile, c: Complex, plan: Option<LawPlan>, observe: Observer): Option<Fault> {
    var selected := Charts(n.covers, profile.coverRef);
    if profile.coefficient != "F2" then Some(CoefficientOutsideF2)
    else if selected == [] then Some(CoverUnresolved)
    else if !PlanIsSelected(plan) then Some(LawPlanNotSelected)
    else if exists a :: a in c.charts && a !in selected then Some(ChartOutsideCover)
    else if c.overlaps == [] then Some(NoRestrictionEdges)
    else if DuplicateFault(c.overlaps).Some? then DuplicateFault(c.overlaps)
    else OverlapsFault(n, c.charts, observe, c.overlaps)
  }

  function SupportOf(observe: Observer, e: Overlap): seq<Name> {
    if observe(e.left, e.right).value then [MISMATCH_VARIABLE] else []
  }

  function SupportsOf(observe: Observer, overlaps: seq<Overlap>): (s: Supports)
    ensures forall id :: id in s ==> s[id] == [MISMATCH_VARIABLE] || s[id] == []
  {
    if overlaps == [] then map[] else
      var last := overlaps[|overlaps| - 1];
      SupportsOf(observe, overlaps[..|overlaps| - 1])[last.id := SupportOf(observe, last)]
  }

  function EdgeOf(observe: Observer, e: Overlap): RunEdge {
    RunEdge(e.id, e.left, e.right, observe(e.left, e.right).value)
  }

  /** What is recorded of an overlap: its name and ends, and whether its sections differ. */
  predicate IsRecorded(observe: Observer, e: Overlap, r: RunEdge) {
    r.overlap == e.id && r.left == e.left && r.right == e.right && (r.value <==> observe(e.left, e.right).value)
  }

  /** One entry per overlap: the shared variable when its sections differ, nothing otherwise. */
  ghost predicate IsSupportTable(observe: Observer, overlaps: seq<Overlap>, s: Supports) {
    && (forall id :: id in s ==> exists e :: e in overlaps && e.id == id)
    && forall e :: e in overlaps ==> e.id in s && s[e.id] == if observe(e.left, e.right).value then [MISMATCH_VARIABLE] else []
  }

  lemma RecordedEdges(overlaps: seq<Overlap>, observe: Observer)
    ensures forall i :: 0 <= i < |overlaps| ==> IsRecorded(observe, overlaps[i], EdgeOf(observe, overlaps[i]))
  {
  }

  /** With no repeated id every overlap keeps its entry. */
  lemma SupportsAreTable(overlaps: seq<Overlap>, observe: Observer)
    requires DuplicateFault(overlaps) == None
    ensures IsSupportTable(observe, overlaps, SupportsOf(observe, overlaps))
  {
    FirstRepeat(overlaps);
    hide DuplicateFault, SupportsOf;
    forall i, j | 0 <= i < j < |overlaps| ensures Ids(overlaps)[i] != Ids(overlaps)[j] { assert !Repeats(overlaps, j); }
    forall e | e in overlaps
      ensures e.id in SupportsOf(observe, overlaps)
      ensures SupportsOf(observe, overlaps)[e.id] == if observe(e.left, e.right).value then [MISMATCH_VARIABLE] else []
    {
      var i :| 0 <= i < |overlaps| && overlaps[i] == e;
      SupportsAt(observe, overlaps, i);
    }
    SupportIds(observe, overlaps);
  }

  lemma {:induction false} SupportIds(observe: Observer, overlaps: seq<Overlap>)
    ensures forall id :: id in SupportsOf(observe, overlaps) ==> exists e :: e in overlaps && e.id == id
  {
    if overlaps != [] {
      var m := |overlaps| - 1;
      assert overlaps[m] in overlaps;
      SupportIds(observe, overlaps[..m]);
    }
  }

  method CheckDuplicates(overlaps: seq<Overlap>) returns (fault: Option<Fault>)
    ensures fault == DuplicateFault(overlaps)
  {
    hide Pair, SeenIds, SeenPairs;
    var ids: set<Name>, pairs: set<set<Name>> := {}, {};
    NothingSeen();
    for i := 0 to |overlaps|
      invariant DuplicateFault(overlaps[..i]) == None
      invariant ids == SeenIds(overlaps[..i]) && pairs == SeenPairs(overlaps[..i])
    {
      assert overlaps[..i + 1][..i] == overlaps[..i];
      if overlaps[i].id in ids {
        FaultStays(overlaps, i + 1);
        return Some(DuplicateOverlapId);
      }
      if Pair(overlaps[i]) in pairs {
        FaultStays(overlaps, i + 1);
        return Some(DuplicateChartPair);
      }
      SeenNext(overlaps, i);
      ids, pairs := ids + {overlaps[i].id}, pairs + {Pair(overlaps[i])};
    }
    assert overlaps[..|overlaps|] == overlaps;
    return None;
  }

  lemma NothingSeen()
    ensures SeenIds([]) == {} && SeenPairs([]) == {}
  {
  }

  lemma {:induction false} FaultStays(overlaps: seq<Overlap>, i: nat)
    requires i <= |overlaps| && DuplicateFault(overlaps[..i]).Some?
    ensures DuplicateFault(overlaps) == DuplicateFault(overlaps[..i])
    decreases |overlaps|
  {
    if i < |overlaps| {
      assert overlaps[..|overlaps| - 1][..i] == overlaps[..i];
      FaultStays(overlaps[..|overlaps| - 1], i);
    } else {
      assert overlaps[..i] == overlaps;
    }
  }

  lemma {:induction false} OverlapFaultStays(n: Archmap, charts: seq<Name>, observe: Observer, overlaps: seq<Overlap>, i: nat)
    requires i <= |overlaps| && OverlapsFault(n, charts, observe, overlaps[..i]).Some?
    ensures OverlapsFault(n, charts, observe, overlaps) == OverlapsFault(n, charts, observe, overlaps[..i])
    decreases |overlaps|
  {
    if i < |overlaps| {
      assert overlaps[..|overlaps| - 1][..i] == overlaps[..i];
      OverlapFaultStays(n, charts, observe, overlaps[..|overlaps| - 1], i);
    } else {
      assert overlaps[..i] == overlaps;
    }
  }

  method DeriveResidual(n: Archmap, profile: Profile, c: Complex, plan: Option<LawPlan>, observe: Observer) returns (r: Outcome)
    ensures r.Faulted? <==> ResidualFault(n, profile, c, plan, observe).Some?
    ensures r.Faulted? ==> ResidualFault(n, profile, c, plan, observe) == Some(r.fault)
    ensures r.Residual? ==> r.supports == SupportsOf(observe, c.overlaps)
    ensures r.Residual? ==> |r.edges| == |c.overlaps| && forall i :: 0 <= i < |r.edges| ==> IsRecorded(observe, c.overlaps[i], r.edges[i])
    ensures r.Residual? ==> IsSupportTable(observe, c.overlaps, r.supports)
  {
    if profile.coefficient != "F2" { return Faulted(CoefficientOutsideF2); }
    var selected := Charts(n.covers, profile.coverRef);
    if selected == [] { return Faulted(CoverUnresolved); }
    if !PlanIsSelected(plan) { return Faulted(LawPlanNotSelected); }
    if exists a :: a in c.charts && a !in selected { return Faulted(ChartOutsideCover); }
    if c.overlaps == [] { return Faulted(NoRestrictionEdges); }
    var duplicate := CheckDuplicates(c.overlaps);
    if duplicate.Some? { return Faulted(duplicate.value); }
    SupportsAreTable(c.overlaps, observe);
    RecordedEdges(c.overlaps, observe);
    hide OverlapsFault, SupportsOf, EdgeOf, DuplicateFault, IsSupportTable, IsRecorded;
    r := ObserveOverlaps(n, c, observe);
  }

  method ObserveOverlaps(n: Archmap, c: Complex, observe: Observer) returns (r: Outcome)
    ensures r.Faulted? <==> OverlapsFault(n, c.charts, observe, c.overlaps).Some?
    ensures r.Faulted? ==> OverlapsFault(n, c.charts, observe, c.overlaps) == Some(r.fault)
    ensures r.Residual? ==> r.supports == SupportsOf(observe, c.overlaps)
    ensures r.Residual? ==> |r.edges| == |c.overlaps| && forall i :: 0 <= i < |r.edges| ==> r.edges[i] == EdgeOf(observe, c.overlaps[i])
  {
    hide OverlapFault, EdgeOf, SupportOf;
    var supports: Supports, edges: seq<RunEdge> := map[], [];
    for i := 0 to |c.overlaps|
      invariant OverlapsFault(n, c.charts, observe, c.overlaps[..i]) == None
      invariant supports == SupportsOf(observe, c.overlaps[..i])
      invariant |edges| == i && forall j :: 0 <= j < i ==> edges[j] == EdgeOf(observe, c.overlaps[j])
    {
      var e := c.overlaps[i];
      assert c.overlaps[..i + 1][..i] == c.overlaps[..i];
      var fault := OverlapFault(n, c.charts, observe, e);
      if fault.Some? {
        OverlapFaultStays(n, c.charts, observe, c.overlaps, i + 1);
        return Faulted(fault.value);
      }
      edges := edges + [EdgeOf(observe, e)];
      supports := supports[e.id := SupportOf(observe, e)];
    }
    assert c.overlaps[..|c.overlaps|] == c.overlaps;
    return Residual(supports, edges);
  }

  // ---------- What each fault means ----------

  predicate RepeatsId(overlaps: seq<Overlap>, k: int) {
    0 <= k < |overlaps| && exists i :: 0 <= i < k && overlaps[i].id == overlaps[k].id
  }

  predicate RepeatsPair(overlaps: seq<Overlap>, k: int) {
    0 <= k < |overlaps| && exists i :: 0 <= i < k && {overlaps[i].left, overlaps[i].right} == {overlaps[k].left, overlaps[k].right}
  }

  predicate Repeats(overlaps: seq<Overlap>, k: int) { RepeatsId(overlaps, k) || RepeatsPair(overlaps, k) }

  lemma SeenMeans(overlaps: seq<Overlap>, k: nat)
    requires k < |overlaps|
    ensures overlaps[k].id in SeenIds(overlaps[..k]) <==> RepeatsId(overlaps, k)
    ensures Pair(overlaps[k]) in SeenPairs(overlaps[..k]) <==> RepeatsPair(overlaps, k)
  {
    var e := overlaps[k];
    if i :| 0 <= i < k && overlaps[i].id == e.id { assert overlaps[..k][i] in overlaps[..k]; }
    if i :| 0 <= i < k && {overlaps[i].left, overlaps[i].right} == {e.left, e.right} { assert overlaps[..k][i] in overlaps[..k]; }
    if f :| f in overlaps[..k] && f.id == e.id { var i :| 0 <= i < k && overlaps[i] == f; }
    if f :| f in overlaps[..k] && Pair(f) == Pair(e) { var i :| 0 <= i < k && overlaps[i] == f; }
  }

  /** The first overlap that repeats an earlier id or an earlier pair of charts is reported,
      the id before the pair; none is reported when no overlap does. */
  lemma {:induction false} DuplicateFaultMeans(overlaps: seq<Overlap>, k: nat)
    requires k <= |overlaps| && forall i :: 0 <= i < k ==> !Repeats(overlaps, i)
    requires k < |overlaps| ==> Repeats(overlaps, k)
    ensures DuplicateFault(overlaps) == if k == |overlaps| then None
                                        else Some(if RepeatsId(overlaps, k) then DuplicateOverlapId else DuplicateChartPair)
  {
    CleanSoFar(overlaps, k);
    if k < |overlaps| {
      SeenMeans(overlaps, k);
      assert overlaps[..k + 1][..k] == overlaps[..k];
      FaultStays(overlaps, k + 1);
    } else {
      assert overlaps[..k] == overlaps;
    }
  }

  lemma {:induction false} CleanSoFar(overlaps: seq<Overlap>, k: nat)
    requires k <= |overlaps| && forall i :: 0 <= i < k ==> !Repeats(overlaps, i)
    ensures DuplicateFault(overlaps[..k]) == None
  {
    if k > 0 {
      assert !Repeats(overlaps, k - 1);
      CleanSoFar(overlaps, k - 1);
      SeenMeans(overlaps, k - 1);
      assert overlaps[..k][..k - 1] == overlaps[..k - 1];
    }
  }

  /** Both ends are charts, the source context is one of them and restricts to the other,
      and the sections over the edge were observed. */
  predicate IsObservedEdge(n: Archmap, charts: seq<Name>, observe: Observer, e: Overlap) {
    && e.left in charts && e.right in charts
    && ((e.contextRef == Some(e.left) && Restricts(n.contexts, e.left, e.right))
        || (e.contextRef == Some(e.right) && Restricts(n.contexts, e.right, e.left)))
    && observe(e.left, e.right).observed
  }

  /** Why an overlap is at fault: the first of the five conditions that fails. */
  predicate OverlapFails(n: Archmap, charts: seq<Name>, observe: Observer, e: Overlap, fault: Fault) {
    var declared := e.left in charts && e.right in charts;
    var toRight := e.contextRef == Some(e.left);
    var toLeft := e.contextRef == Some(e.right);
    var restricted := (toRight && Restricts(n.contexts, e.left, e.right)) || (toLeft && Restricts(n.contexts, e.right, e.left));
    match fault
    case EndpointUndeclared => !declared
    case NoSourceContext => declared && e.contextRef == None
    case SourceNotAnEndpoint => declared && e.contextRef.Some? && !toRight && !toLeft
    case RestrictionUnobserved => declared && (toRight || toLeft) && !restricted
    case SectionUnobserved => declared && restricted && !observe(e.left, e.right).observed
    case _ => false
  }

  lemma OverlapFaultMeans(n: Archmap, charts: seq<Name>, observe: Observer, e: Overlap)
    ensures OverlapFault(n, charts, observe, e) == None <==> IsObservedEdge(n, charts, observe, e)
    ensures forall fault :: OverlapFault(n, charts, observe, e) == Some(fault) <==> OverlapFails(n, charts, observe, e, fault)
  {
  }

  /** The first overlap that is at fault decides. */
  lemma {:induction false} OverlapsFaultMeans(n: Archmap, charts: seq<Name>, observe: Observer, overlaps: seq<Overlap>, k: nat)
    requires k <= |overlaps| && forall i :: 0 <= i < k ==> IsObservedEdge(n, charts, observe, overlaps[i])
    requires k < |overlaps| ==> !IsObservedEdge(n, charts, observe, overlaps[k])
    ensures k == |overlaps| ==> OverlapsFault(n, charts, observe, overlaps) == None
    ensures k < |overlaps| ==>
      forall fault :: (OverlapsFault(n, charts, observe, overlaps) == Some(fault) <==> OverlapFails(n, charts, observe, overlaps[k], fault))
  {
    hide IsObservedEdge, OverlapFault, OverlapFails;
    ObservedSoFar(n, charts, observe, overlaps, k);
    if k < |overlaps| {
      OverlapFaultMeans(n, charts, observe, overlaps[k]);
      assert overlaps[..k + 1][..k] == overlaps[..k];
      OverlapFaultStays(n, charts, observe, overlaps, k + 1);
    } else {
      assert overlaps[..k] == overlaps;
    }
  }

  lemma {:induction false} ObservedSoFar(n: Archmap, charts: seq<Name>, observe: Observer, overlaps: seq<Overlap>, k: nat)
    requires k <= |overlaps| && forall i :: 0 <= i < k ==> IsObservedEdge(n, charts, observe, overlaps[i])
    ensures OverlapsFault(n, charts, observe, overlaps[..k]) == None
  {
    hide IsObservedEdge, OverlapFault;
    if k > 0 {
      ObservedSoFar(n, charts, observe, overlaps, k - 1);
      OverlapFaultMeans(n, charts, observe, overlaps[k - 1]);
      assert overlaps[..k][..k - 1] == overlaps[..k - 1];
    }
  }

  /** A residual is derived exactly when the coefficient is F2, the cover has charts, no law
      plan was given or it names the descent evaluator and a law, the charts of the complex are
      among those of the cover, and its overlaps are there, unrepeated and observed. */
  lemma NoFaultMeans(n: Archmap, profile: Profile, c: Complex, plan: Option<LawPlan>, observe: Observer)
    ensures ResidualFault(n, profile, c, plan, observe) == None <==>
      && profile.coefficient == "F2"
      && Charts(n.covers, profile.coverRef) != []
      && (plan == None || (plan.value.evaluator == "ag.saga-descent" && !plan.value.lawIdIsBlank))
      && (forall a :: a in c.charts ==> a in Charts(n.covers, profile.coverRef))
      && c.overlaps != []
      && (forall k :: 0 <= k < |c.overlaps| ==> !Repeats(c.overlaps, k))
      && (forall k :: 0 <= k < |c.overlaps| ==> IsObservedEdge(n, c.charts, observe, c.overlaps[k]))
  {
    hide Charts, Repeats, IsObservedEdge, DuplicateFault, OverlapsFault;
    FirstRepeat(c.overlaps);
    FirstUnobserved(n, c.charts, observe, c.overlaps);
  }

  lemma FirstRepeat(overlaps: seq<Overlap>)
    ensures DuplicateFault(overlaps) == None <==> forall k :: 0 <= k < |overlaps| ==> !Repeats(overlaps, k)
  {
    hide Repeats, DuplicateFault;
    var k: nat := 0;
    while k < |overlaps| && !Repeats(overlaps, k)
      invariant k <= |overlaps| && forall i :: 0 <= i < k ==> !Repeats(overlaps, i)
    {
      k := k + 1;
    }
    DuplicateFaultMeans(overlaps, k);
  }

  lemma FirstUnobserved(n: Archmap, charts: seq<Name>, observe: Observer, overlaps: seq<Overlap>)
    ensures OverlapsFault(n, charts, observe, overlaps) == None <==>
      forall k :: 0 <= k < |overlaps| ==> IsObservedEdge(n, charts, observe, overlaps[k])
  {
    hide IsObservedEdge, OverlapsFault, OverlapFails;
    var k: nat := 0;
    while k < |overlaps| && IsObservedEdge(n, charts, observe, overlaps[k])
      invariant k <= |overlaps| && forall i :: 0 <= i < k ==> IsObservedEdge(n, charts, observe, overlaps[i])
    {
      k := k + 1;
    }
    OverlapsFaultMeans(n, charts, observe, overlaps, k);
    if k < |overlaps| { SomeOverlapFails(n, charts, observe, overlaps[k]); }
  }

  lemma SomeOverlapFails(n: Archmap, charts: seq<Name>, observe: Observer, e: Overlap)
    requires !IsObservedEdge(n, charts, observe, e)
    ensures exists fault :: OverlapFails(n, charts, observe, e, fault)
  {
    OverlapFaultMeans(n, charts, observe, e);
    var fault := OverlapFault(n, charts, observe, e).value;
    assert OverlapFails(n, charts, observe, e, fault);
  }

  /** The four checks before the overlaps, each reported when those before it pass. */
  lemma EarlyFaultsMean(n: Archmap, profile: Profile, c: Complex, plan: Option<LawPlan>, observe: Observer)
    ensures var fault := ResidualFault(n, profile, c, plan, observe);
            var charts := Charts(n.covers, profile.coverRef);
            var planned := plan == None || (plan.value.evaluator == "ag.saga-descent" && !plan.value.lawIdIsBlank);
            var field, covered := profile.coefficient == "F2", charts != [];
            var inside := forall a :: a in c.charts ==> a in charts;
            && (fault == Some(CoefficientOutsideF2) <==> !field)
            && (fault == Some(CoverUnresolved) <==> field && !covered)
            && (fault == Some(LawPlanNotSelected) <==> field && covered && !planned)
            && (fault == Some(ChartOutsideCover) <==> field && covered && planned && !inside)
            && (fault == Some(NoRestrictionEdges) <==> field && covered && planned && inside && c.overlaps == [])
            && (field && covered && planned && inside && c.overlaps != [] ==>
                  fault == if DuplicateFault(c.overlaps).Some? then DuplicateFault(c.overlaps)
                           else OverlapsFault(n, c.charts, observe, c.overlaps))
  {
    hide Charts, DuplicateFault, OverlapsFault;
    DuplicateFaultsOnly(c.overlaps);
    OverlapFaultsOnly(n, c.charts, observe, c.overlaps);
  }

  lemma {:induction false} DuplicateFaultsOnly(overlaps: seq<Overlap>)
    ensures DuplicateFault(overlaps) in {None, Some(DuplicateOverlapId), Some(DuplicateChartPair)}
  {
    if overlaps != [] { DuplicateFaultsOnly(overlaps[..|overlaps| - 1]); }
  }

  lemma {:induction false} OverlapFaultsOnly(n: Archmap, charts: seq<Name>, observe: Observer, overlaps: seq<Overlap>)
    ensures OverlapsFault(n, charts, observe, overlaps) in
      {None, Some(EndpointUndeclared), Some(NoSourceContext), Some(SourceNotAnEndpoint), Some(RestrictionUnobserved), Some(SectionUnobserved)}
  {
    if overlaps != [] { OverlapFaultsOnly(n, charts, observe, overlaps[..|overlaps| - 1]); }
  }

  // ---------- What a derived complex can still fault on ----------

  ghost predicate SomeRestriction(n: Archmap, ref: Name) {
    exists a, b :: a in ChartSet(n, ref) && b in ChartSet(n, ref) && Restricts(n.contexts, a, b)
  }

  ghost predicate AllSectionsObserved(n: Archmap, ref: Name, observe: Observer) {
    forall p :: p in Sources(n, ref) ==> observe(p.0, p.1).observed
  }

  lemma KeysAreSorted(n: Archmap, ref: Name, p: NamePair)
    requires p in Sources(n, ref)
    ensures AtMost(p.0, p.1)
  {
    SourcesAre(n, ref);
    assert SourceTest(n.contexts, ChartSet(n, ref))(p, Sources(n, ref)[p]);
    var t :| p == SortedPair(Sources(n, ref)[p], t);
    SortedPairIsSorted(Sources(n, ref)[p], t);
  }

  lemma SortedPairIsSorted(a: Name, b: Name)
    ensures AtMost(SortedPair(a, b).0, SortedPair(a, b).1)
  {
    AtMostTotal(a, b);
    if AtMost(b, a) { assert SortedPair(a, b) == (b, a); } else { assert SortedPair(a, b) == (a, b); }
  }

  lemma SameEnds(n: Archmap, ref: Name, p: NamePair, q: NamePair)
    requires p in Sources(n, ref) && q in Sources(n, ref) && {p.0, p.1} == {q.0, q.1}
    ensures p == q
  {
    KeysAreSorted(n, ref, p);
    KeysAreSorted(n, ref, q);
    AtMostTotal(p.0, p.1);
    assert p.0 in {q.0, q.1} && p.1 in {q.0, q.1} && q.0 in {p.0, p.1} && q.1 in {p.0, p.1};
  }

  lemma DistinctIdsLast(overlaps: seq<Overlap>)
    requires overlaps != []
    ensures var init, last := overlaps[..|overlaps| - 1], overlaps[|overlaps| - 1];
            Distinct(Ids(overlaps)) <==> Distinct(Ids(init)) && last.id !in Ids(init)
  {
    var init, last := overlaps[..|overlaps| - 1], overlaps[|overlaps| - 1];
    assert Ids(overlaps) == Ids(init) + [last.id];
  }

  lemma {:induction false} NoDuplicates(overlaps: seq<Overlap>)
    requires forall i, j :: 0 <= i < j < |overlaps| ==> Pair(overlaps[i]) != Pair(overlaps[j])
    ensures DuplicateFault(overlaps) == if Distinct(Ids(overlaps)) then None else Some(DuplicateOverlapId)
  {
    if overlaps != [] {
      var init, last := overlaps[..|overlaps| - 1], overlaps[|overlaps| - 1];
      forall e | e in init ensures Pair(e) != Pair(last) {
        var i :| 0 <= i < |init| && init[i] == e;
        assert overlaps[i] == e;
      }
      hide Pair, Distinct, SeenIds;
      DistinctIdsLast(overlaps);
      SeenIdsAreIds(init, last.id);
      NoDuplicates(init);
    } else {
      NoIds(overlaps);
    }
  }

  lemma NoIds(overlaps: seq<Overlap>)
    requires overlaps == []
    ensures Distinct(Ids(overlaps))
  {
  }

  lemma DerivedDuplicates(n: Archmap, ref: Name)
    ensures DuplicateFault(Derived(n, ref).overlaps) == if InjectivePairs(Sources(n, ref)) then None else Some(DuplicateOverlapId)
  {
    var pairs, overlaps := DerivedPairs(n, ref), Derived(n, ref).overlaps;
    forall i, j | 0 <= i < j < |overlaps| ensures Pair(overlaps[i]) != Pair(overlaps[j]) {
      assert pairs[i] in pairs && pairs[j] in pairs;
      if Pair(overlaps[i]) == Pair(overlaps[j]) { SameEnds(n, ref, pairs[i], pairs[j]); }
    }
    NoDuplicates(overlaps);
    InjectiveIffDistinctIds(pairs, Sources(n, ref));
  }

  lemma DerivedOverlapFault(n: Archmap, ref: Name, observe: Observer, p: NamePair)
    requires p in Sources(n, ref)
    ensures OverlapFault(n, Charts(n.covers, ref), observe, MakeOverlap(p, Sources(n, ref)[p]))
         == if observe(p.0, p.1).observed then None else Some(SectionUnobserved)
  {
    SourcesAre(n, ref);
    assert SourceTest(n.contexts, ChartSet(n, ref))(p, Sources(n, ref)[p]);
  }

  lemma {:induction false} OnlyUnobserved(n: Archmap, charts: seq<Name>, observe: Observer, overlaps: seq<Overlap>)
    requires forall e :: e in overlaps ==>
      OverlapFault(n, charts, observe, e) == if observe(e.left, e.right).observed then None else Some(SectionUnobserved)
    ensures OverlapsFault(n, charts, observe, overlaps)
         == if forall e :: e in overlaps ==> observe(e.left, e.right).observed then None else Some(SectionUnobserved)
  {
    if overlaps != [] {
      var m := |overlaps| - 1;
      assert overlaps == overlaps[..m] + [overlaps[m]];
      OnlyUnobserved(n, charts, observe, overlaps[..m]);
    }
  }

  lemma DerivedOverlapsFault(n: Archmap, ref: Name, observe: Observer)
    ensures OverlapsFault(n, Charts(n.covers, ref), observe, Derived(n, ref).overlaps)
         == if AllSectionsObserved(n, ref, observe) then None else Some(SectionUnobserved)
  {
    var pairs, overlaps := DerivedPairs(n, ref), Derived(n, ref).overlaps;
    forall i | 0 <= i < |overlaps|
      ensures pairs[i] in Sources(n, ref) && overlaps[i].left == pairs[i].0 && overlaps[i].right == pairs[i].1
      ensures OverlapFault(n, Charts(n.covers, ref), observe, overlaps[i])
           == if observe(pairs[i].0, pairs[i].1).observed then None else Some(SectionUnobserved)
    {
      assert pairs[i] in pairs;
      DerivedOverlapFault(n, ref, observe, pairs[i]);
    }
    hide Sources, OverlapFault, Charts;
    OnlyUnobserved(n, Charts(n.covers, ref), observe, overlaps);
    if forall e :: e in overlaps ==> observe(e.left, e.right).observed {
      forall p | p in Sources(n, ref) ensures observe(p.0, p.1).observed {
        assert p in pairs;
        var i :| 0 <= i < |pairs| && pairs[i] == p;
        assert overlaps[i] in overlaps;
      }
    }
  }

  lemma EdgesIffRestriction(n: Archmap, ref: Name)
    ensures Derived(n, ref).overlaps == [] <==> !SomeRestriction(n, ref)
  {
    SourcesAre(n, ref);
    var charts, sources, pairs := ChartSet(n, ref), Sources(n, ref), DerivedPairs(n, ref);
    if a, b :| a in charts && b in charts && Restricts(n.contexts, a, b) {
      assert SourceTest(n.contexts, charts)(SortedPair(a, b), a);
      assert SortedPair(a, b) in pairs;
    }
    if pairs != [] {
      assert pairs[0] in pairs;
      assert SourceTest(n.contexts, charts)(pairs[0], sources[pairs[0]]);
    }
  }

  /** The whole fault behaviour on a derived complex: coefficient, cover, law plan, no
      restriction at all, colliding ids, an unobserved section, in this order; the other
      six faults cannot occur. */
  lemma DerivedFault(n: Archmap, profile: Profile, plan: Option<LawPlan>, observe: Observer)
    ensures var ref := profile.coverRef;
            ResidualFault(n, profile, Derived(n, ref), plan, observe) ==
              if profile.coefficient != "F2" then Some(CoefficientOutsideF2)
              else if Charts(n.covers, ref) == [] then Some(CoverUnresolved)
              else if plan.Some? && (plan.value.evaluator != "ag.saga-descent" || plan.value.lawIdIsBlank) then Some(LawPlanNotSelected)
              else if !SomeRestriction(n, ref) then Some(NoRestrictionEdges)
              else if !InjectivePairs(Sources(n, ref)) then Some(DuplicateOverlapId)
              else if !AllSectionsObserved(n, ref, observe) then Some(SectionUnobserved)
              else None
  {
    EdgesIffRestriction(n, profile.coverRef);
    DerivedDuplicates(n, profile.coverRef);
    DerivedOverlapsFault(n, profile.coverRef, observe);
  }

  // ---------- What the residual feeds ----------

  lemma {:induction false} SupportsAt(observe: Observer, overlaps: seq<Overlap>, i: nat)
    requires Distinct(Ids(overlaps)) && i < |overlaps|
    ensures overlaps[i].id in SupportsOf(observe, overlaps)
    ensures SupportsOf(observe, overlaps)[overlaps[i].id] == SupportOf(observe, overlaps[i])
  {
    var n := |overlaps| - 1;
    if i < n {
      assert Ids(overlaps)[i] != Ids(overlaps)[n];
      assert forall j :: 0 <= j < n ==> Ids(overlaps[..n])[j] == Ids(overlaps)[j];
      SupportsAt(observe, overlaps[..n], i);
    }
  }

  /** The derived supports are plain, carry one shared variable, and record exactly the
      mismatching edges; the recorded edges are the run's packet. */
  lemma SupportsRecordMismatches(c: Complex, observe: Observer)
    requires Distinct(Ids(c.overlaps))
    ensures var s := SupportsOf(observe, c.overlaps);
            && PlainSupports(c, s)
            && (forall id, v :: Carries(s, id, v) ==> v == MISMATCH_VARIABLE)
            && (forall e :: e in c.overlaps ==> (Carries(s, e.id, MISMATCH_VARIABLE) <==> observe(e.left, e.right).value))
            && forall i :: 0 <= i < |c.overlaps| ==> Packet(c, s, MISMATCH_VARIABLE)[i] == EdgeOf(observe, c.overlaps[i])
  {
    var s := SupportsOf(observe, c.overlaps);
    forall i | 0 <= i < |c.overlaps|
      ensures c.overlaps[i].id in s && s[c.overlaps[i].id] == SupportOf(observe, c.overlaps[i])
    {
      SupportsAt(observe, c.overlaps, i);
    }
  }

  /** Two runs over one derived complex: if the base run's residual is a boundary, comparing
      the recorded edges decides whether the head run's is. */
  lemma TwoRuns(n: Archmap, ref: Name, base: Observer, head: Observer)
    requires InjectivePairs(Sources(n, ref))
    ensures var c := Derived(n, ref);
            var b, h := SupportsOf(base, c.overlaps), SupportsOf(head, c.overlaps);
            InB1(c, b) ==>
              (InB1(c, h) <==> SameClass(Collected(Packet(c, b, MISMATCH_VARIABLE)), Collected(Packet(c, h, MISMATCH_VARIABLE))))
  {
    var c := Derived(n, ref);
    var b, h := SupportsOf(base, c.overlaps), SupportsOf(head, c.overlaps);
    InjectiveIffDistinctIds(DerivedPairs(n, ref), Sources(n, ref));
    SupportsRecordMismatches(c, base);
    SupportsRecordMismatches(c, head);
    if InB1(c, b) { ReadingTransportsB1(c, b, h, MISMATCH_VARIABLE); }
  }

  /** On an accepted derived complex a residual in B1 is even on every derived triple. */
  lemma DerivedBoundaryIsCocycle(n: Archmap, ref: Name, observe: Observer, t: Triple)
    requires HasValidFiniteIncidence(Derived(n, ref)) && t in Derived(n, ref).triples
    requires InB1(Derived(n, ref), SupportsOf(observe, Derived(n, ref).overlaps))
    ensures CocycleZero(SupportsOf(observe, Derived(n, ref).overlaps), t.overlapRefs)
  {
    var c := Derived(n, ref);
    SupportsRecordMismatches(c, observe);
    PlainBoundaryPassesTriple(c, SupportsOf(observe, c.overlaps), t);
  }

  /** From the archmap to the certificate: on an accepted derived complex a run is certified
      exactly when its residual is a cocycle carried by one connected class, and a residual in
      B1 carried by one class always is. */
  lemma DerivedCertificate(n: Archmap, ref: Name, observe: Observer)
    requires HasValidFiniteIncidence(Derived(n, ref))
    ensures var c := Derived(n, ref);
            var s := SupportsOf(observe, c.overlaps);
            && c.charts == Charts(n.covers, ref)
            && ((exists k :: Certifies(c, s, k)) <==> InZ1(c, s) && ResidualIsConnected(c, s))
            && (InB1(c, s) && ResidualIsConnected(c, s) ==> exists k :: Certifies(c, s, k))
  {
    var c := Derived(n, ref);
    var s := SupportsOf(observe, c.overlaps);
    SupportsRecordMismatches(c, observe);
    CertificateIssuedIff(c, s);
    if InB1(c, s) { BoundaryIsCocycle(c, s); }
  }
}
