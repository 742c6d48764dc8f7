# Verified model of the descent evaluator, the cohomology comparison engine and the context search

This project models, in Dafny, the parts of the repository that compute a verdict with an
independent meaning, and proves that the verdict has that meaning for every input.

1. **F2 descent (ArchSig, Rust).** A cover and its restriction edges give a finite complex of
   charts, overlaps and triples (`SagaProducer`, `SagaDerivation`), and `DerivedMeaning`
   says what it contains in terms of covers, contexts and atoms; observing sections puts a
   0/1 residual on the overlaps (`ResidualDerivation`). `F2Solver` is the in-place
   Gauss-Jordan elimination; `BoundaryMembership` the linear system and the membership
   question B1 = im delta0; `Components` the search for connected components; `Certificate`
   the triple parities and the certificate that licenses reading a class;
   `ResidualCompare` the comparison of two runs, `ResidualClasses` that comparison on certified
   classes; `CollidingNames` holds two covers whose names collide. The main results: a residual is in B1 iff
   every closed walk of overlaps crosses an even number of residual edges; a certified residual
   is a cocycle, and its component's class verdict is the global one; the consumer's incidence check accepts a derived
   complex under an exact condition; knowing one run is in B1, the comparison decides the other.
2. **Exact cohomology comparison (Python).** `Matrices`, `Spans`, `Elimination`,
   `LinearSystems`, `ReducedForms` and `Quotients` are rational elimination: rank, kernel basis
   and solver, with the rank defined without elimination (a column counts when the columns
   before it do not span it). `Cohomology` and `H1Meaning` give the H1 dimensions, greedy
   representatives, the induced matrix and the meaning of the injective and surjective flags.
   `Kronecker`, `Nerves` show that every accepted nerve morphism gives a cochain map;
   `Restriction` that A-subnerves stay valid; `DirectSums`, `NerveUnions` and `LawBlocks` that
   the globally generated law complex is, entry for entry, the block sum of its A-subnerve
   comparisons, so that dimensions and comparison rank add over the values of a law.
   `Uniformity` draws the conclusion: every A-subnerve comparison is an isomorphism iff every
   law reads one. `DepthMap` is the profile J of the toy, which ranks vectors by rows.
3. **Context search (Rust).** `ContextCycles` proves the two cycle detectors exact, hence
   equal on resolved graphs; `ContextPaths` and `Refinement` the path search capped at two and
   the refinement map built on it.
4. **Canonical forms.** `Relabelling` and `Observation`: the least payload over the orbit of
   pi-preserving relabels (Python). `CanonicalJson`: sorting members at every depth (Rust).

`Options`, `Sequences` and `Names` hold the shared vocabulary: optional values, lists without
repetition, names in string order. `dafny verify dfyconfig.toml` checks everything.

How things are represented. A byte that is 0 or 1 is a `bool` and `^=` is `!=`; a Python
`Fraction` is a `real`; a `BTreeSet` or `BTreeMap` is a `set` or `map`, listed in order where
the order shows in a result; a vector a function owns and changes in place is a local sequence
that the method reassigns; the shared `&mut` stacks and sets of the two graph searches are
fields of a class. Exceptions and error returns are `Option`, `Result`-like datatypes, or fault
codes.

Four properties hold only under a condition, which is stated exactly:

- A residual in B1 is even on a triple exactly when its overlaps have support entries and the
  listings beyond the first add up to an even number for every variable (`Certificate.BoundaryPassesTriple`,
  `Certificate.RepeatedListingFails`); the supports that `derive_residual` builds always do.
- A repeated restriction target makes a unique path look like two
  (`Refinement.RepeatedTargetLooksAmbiguous`): `validated_context_map` accepts it, and one path
  is returned iff it is the only one and none of its steps is listed twice
  (`Refinement.OnePathReturned`). The normalizer drops repeated targets
  (tools/archsig/src/normalizer.rs:105-106), so only a normalized file from elsewhere carries one.
- Derived ids are not injective on names containing the separator, which every normalized name
  does. `CollidingNames.OverlapIdsCollide` is a cover on which two overlaps share an id,
  `CollidingNames.OnlyTripleIdsCollide` one on which only two triples do; the incidence check
  refuses both. Injectivity on the restricted pairs and on the faces is part of the exact
  condition in `SagaDerivation.DerivedIsValid`.
- For composable matrices the counting assertion of `quotient_h1_representatives` fires exactly
  when d1 d0 is not zero
  (`Cohomology.QuotientH1Representatives`).

## Model

| member | source | states |
|---|---|---|
| F2Solver.XorFromColumn | tools/archsig/src/saga.rs:1109-1115 | XORing only from the pivot column rightward is the XOR of whole rows |
| F2Solver.ClearColumn | tools/archsig/src/saga.rs:1109-1115 | clearing a column extends the echelon form by one pivot and keeps the solution set |
| F2Solver.FindPivot | tools/archsig/src/saga.rs:1103-1106 | finds the first row with a one in the column, or none exists |
| F2Solver.Eliminate | tools/archsig/src/saga.rs:1100-1118 | the swaps and XORs end in echelon form with the solutions of the input |
| F2Solver.SolveF2 | tools/archsig/src/saga.rs:1099-1129 | an assignment satisfying every original equation, the least one comparing the last unknown first, or None exactly when none exists |
| BoundaryMembership.BuildSystem | tools/archsig/src/saga.rs:1019-1040 | the loops build one equation per overlap and variable, overlap-major |
| BoundaryMembership.EquationHolds | tools/archsig/src/saga.rs:1033-1038 | an equation says that the two charts of the overlap differ exactly where the residual carries the variable, self-overlaps cancelling |
| BoundaryMembership.SolveBoundaryMembership | tools/archsig/src/saga.rs:1004-1051 | in_b1 iff the residual is a coboundary of some 0-cochain; the witness is one |
| BoundaryMembership.InB1IffClosedWalksEven | tools/archsig/src/saga.rs:1004-1051 | membership in B1 iff every closed walk of overlaps crosses each variable an even number of times |
| Components.Grow | tools/archsig/src/saga.rs:944-959 | the worklist terminates and grows exactly the connected class of its start |
| Components.BuildNeighbors | tools/archsig/src/saga.rs:918-942 | None iff a chart or an overlap id is repeated or an endpoint is not a chart; otherwise every chart's neighbours |
| Components.RepairComplexComponents | tools/archsig/src/saga.rs:918-979 | the components partition the charts into connected classes, with the overlaps inside each |
| Components.ShareComponentIffConnected | tools/archsig/src/saga.rs:944-975 | two charts lie in one component iff a walk of overlaps joins them |
| Components.OverlapInOneComponent | tools/archsig/src/saga.rs:960-974 | every overlap lands in exactly one component |
| Certificate.TripleCocycleIsZero | tools/archsig/src/saga.rs:981-995 | true iff every overlap has a support entry and every variable is listed an even number of times over the triple |
| Certificate.AllPairsAreEdges | tools/archsig/src/saga_complex.rs:225-257 | three edges bounding a triangle have exactly the pairs of their vertices, the program's own test |
| Certificate.TriangleTestIffBounds | tools/archsig/src/saga_complex.rs:225-257 | the triangle predicate of the model holds iff the program's test does: three vertices, and the pairs of the proper edges are all their pairs |
| Certificate.IncidenceMeans | tools/archsig/src/saga_complex.rs:178-258 | the incidence check accepts iff no chart and no id is repeated, every overlap joins two different charts and starts at one of them, and every triple names three overlaps that join three charts pairwise and lists different atoms |
| Certificate.BoundaryPassesTriple | tools/archsig/src/saga.rs:981-995 | on a valid complex a residual in B1 passes the parity check of a triple iff its three overlaps have support entries and its repeated listings add up evenly |
| Certificate.CocycleZeroIffDelta | tools/archsig/src/saga.rs:981-995 | the parity check of a triple passes iff every overlap has a support entry and delta1, the XOR of what the overlaps carry, is the parity of the repeated listings |
| Certificate.PlainCheckIsCocycle | tools/archsig/src/saga.rs:981-995 | with supports listing nothing twice, the check passes on a triple of a valid complex iff delta1 vanishes on it for every variable |
| Certificate.BoundaryIsCocycle | tools/archsig/src/saga.rs:1004-1051 | delta1 delta0 = 0: on a valid complex every residual in B1 is in Z1 |
| Certificate.PlainBoundaryPassesTriple | tools/archsig/src/saga.rs:981-1051 | with supports listing nothing twice, a residual in B1 passes the check on every triple |
| Certificate.RepeatedListingFails | tools/archsig/src/saga.rs:981-995 | a residual in B1 that fails the check because one overlap lists its variable twice |
| Certificate.ResidualSupportComponent | tools/archsig/src/saga.rs:876-916 | the component carrying the whole residual, the whole complex when there is none, and None exactly when no component carries it all |
| Certificate.ResidualComponentUnique | tools/archsig/src/saga.rs:902-916 | at most one component can carry a nonzero residual |
| Certificate.CarriedIffConnected | tools/archsig/src/saga.rs:876-916 | some component carries the residual iff the complex is searchable and the residual overlaps are joined by walks |
| Certificate.ComponentIsValid | tools/archsig/src/saga.rs:819-844 | the component of a valid complex passes the incidence check |
| Certificate.ComponentCocycleCertificate | tools/archsig/src/saga.rs:795-874 | a certificate is issued iff enumeration is complete, triple ids are distinct, and some component carries the residual, is valid and has only even triples; it lists exactly the triples naming an overlap of the component |
| Certificate.ComponentVerdictIsGlobal | tools/archsig/src/saga.rs:692-705 | once a component is certified, the residual is in B1 of the whole complex iff it is in B1 of the component |
| Certificate.CertifiedIffCocycle | tools/archsig/src/saga.rs:795-874 | with plain supports, a component carrying the residual is certified iff the residual is in Z1 of that component |
| Certificate.CertificateIssuedIff | tools/archsig/src/saga.rs:795-874 | on a valid complex with plain supports a certificate is issued iff enumeration is complete, the residual is in Z1 and its overlaps are joined by walks |
| Certificate.ComponentCocycleIsGlobal | tools/archsig/src/saga.rs:876-916 | the residual is in Z1 of its component iff it is in Z1 of the whole complex |
| Certificate.CertificateLicensesClass | tools/archsig/src/saga.rs:692-705 | a certified plain residual is in Z1, and its class in Z1/B1 of the component is zero iff the global membership holds |
| Certificate.CertifiedUpToSurplus | tools/archsig/src/saga.rs:846-861 | without plain supports a certificate says that delta1 is the parity of the repeated listings on each triple |
| Certificate.BoundaryIsCertified | tools/archsig/src/saga.rs:795-874 | on a valid, complete complex with plain supports, a residual in B1 carried by one component is always certified |
| SagaProducer.CollectPairSources | tools/archsig/src/saga_complex.rs:27-46 | the nested loops record for each restricted pair a source context |
| SagaProducer.PairSourcesLeast | tools/archsig/src/saga_complex.rs:27-46 | the recorded pairs are exactly the restricted ones, each with its least source context |
| SagaProducer.PairsUpToAre | tools/archsig/src/saga_complex.rs:47-55 | the overlaps list every recorded pair exactly once |
| SagaDerivation.CollectValues | tools/archsig/src/saga_complex.rs:71-92 | a context's section values, each with the atoms showing it (ObservedIffShown reads them off the atoms) |
| SagaDerivation.FirstLoopHas | tools/archsig/src/saga_complex.rs:95-149 | the triples are exactly the faces over increasing chart positions whose charts share a value and whose three overlaps exist |
| SagaDerivation.DeriveSagaComplex | tools/archsig/src/saga_complex.rs:11-164 | the whole derivation; the rows of DerivedMeaning say what it contains |
| DerivedMeaning.ChartsMean | tools/archsig/src/saga_complex.rs:15-23 | the charts are those of the first cover with the given id or source id, none when there is none |
| DerivedMeaning.DerivedOverlapsMean | tools/archsig/src/saga_complex.rs:24-55 | an overlap is derived iff its ends are charts in name order, one restricts to the other, and its context is the least that does |
| DerivedMeaning.DerivedOverlapsOrdered | tools/archsig/src/saga_complex.rs:47-55 | overlaps come in the order of their ends |
| DerivedMeaning.ObservedIffShown | tools/archsig/src/saga_complex.rs:63-97 | an atom is observed at a chart under a value iff the context of that name lists it, it carries the value, and its id is that of a section value |
| DerivedMeaning.FaceMeans | tools/archsig/src/saga_complex.rs:98-149 | a triple sits at three chart positions iff some value is observed at all three, they restrict pairwise, and its overlaps and atoms are the ones that say so |
| DerivedMeaning.DerivedTriplesMean | tools/archsig/src/saga_complex.rs:98-153 | the derived triples, from covers, contexts and atoms alone: a shared value, three restrictions, the three overlap ids, and as atoms exactly those showing a shared value at one of the charts, sorted |
| DerivedMeaning.DerivedTriplesOrdered | tools/archsig/src/saga_complex.rs:98-153 | triples come in the order of their chart positions |
| SagaDerivation.InjectiveIffDistinctIds | tools/archsig/src/saga_complex.rs:166-168 | overlap ids are distinct iff the naming is injective on the restricted pairs |
| SagaDerivation.DistinctIffInjectiveFaces | tools/archsig/src/saga_complex.rs:95-149 | triple ids are distinct iff faces at different chart positions get different ids |
| SagaDerivation.DerivedTripleValid | tools/archsig/src/saga_complex.rs:196-257 | a derived face has three different overlaps bounding a triangle and a nonempty list of distinct atoms |
| SagaDerivation.DerivedIsValid | tools/archsig/src/saga_complex.rs:178-258 | the incidence check accepts a derived complex iff the cover repeats no chart, no chart restricts to itself, and different restricted pairs and different faces get different ids |
| SagaDerivation.InjectiveNamesAreAccepted | tools/archsig/src/saga_complex.rs:178-258 | with injective names every derived complex of a plain cover is accepted |
| CollidingNames.OverlapIdsCollide | tools/archsig/src/saga_complex.rs:166-168 | a cover with normalized names on which two overlaps share an id: the incidence check and the residual derivation refuse |
| CollidingNames.OnlyTripleIdsCollide | tools/archsig/src/saga_complex.rs:144-148 | a cover with normalized names on which only two triples share an id: the incidence check refuses what the residual derivation accepts |
| ResidualDerivation.CheckDuplicates | tools/archsig/src/saga.rs:107-125 | reports the first repeated id or unordered pair, the id first |
| ResidualDerivation.DuplicateFaultMeans | tools/archsig/src/saga.rs:107-125 | the first overlap repeating an earlier id or pair of charts is reported, the id before the pair; none when no overlap does |
| ResidualDerivation.ObserveOverlaps | tools/archsig/src/saga.rs:126-186 | the first overlap at fault and its fault, or one support and one recorded edge per overlap |
| ResidualDerivation.OverlapsFaultMeans | tools/archsig/src/saga.rs:126-171 | the first overlap that fails one of the five conditions decides, with the fault of the first condition it fails; no fault when every overlap meets them |
| ResidualDerivation.DeriveResidual | tools/archsig/src/saga.rs:59-192 | faults exactly as the checks in order say, with that fault; otherwise one recorded edge per overlap, and one support entry per overlap, holding the shared variable iff the sections differ |
| ResidualDerivation.NoFaultMeans | tools/archsig/src/saga.rs:66-171 | a residual is derived iff the coefficient is F2, the cover has charts, the plan (if any) names the descent evaluator and a law, the charts lie in the cover, and the overlaps exist, repeat nothing and are observed |
| ResidualDerivation.EarlyFaultsMean | tools/archsig/src/saga.rs:66-106 | each of the first five faults is reported iff its own condition fails and the ones before hold |
| ResidualDerivation.DerivedFault | tools/archsig/src/saga.rs:66-171 | on a derived complex only coefficient, cover, law plan, no edges, colliding ids and unobserved sections can fault, each exactly when its condition holds and in this order |
| ResidualDerivation.SupportsRecordMismatches | tools/archsig/src/saga.rs:161-185 | supports list one shared variable exactly on the mismatching overlaps, nothing twice, and the edges are the run's record |
| ResidualDerivation.TwoRuns | tools/archsig/src/compare.rs:235-330 | two runs over one derived complex, the base in B1: comparing their records decides whether the head is |
| ResidualDerivation.DerivedBoundaryIsCocycle | tools/archsig/src/saga.rs:981-995 | on an accepted derived complex a residual in B1 is even on every derived triple |
| ResidualDerivation.DerivedCertificate | tools/archsig/src/saga.rs:795-874 | from the archmap to the certificate: on an accepted derived complex a run is certified iff its residual is in Z1 and its overlaps are joined by walks, which every connected residual in B1 meets |
| ResidualCompare.Collect | tools/archsig/src/compare.rs:230-241 | collecting recorded edges, a later one overwriting an equal key |
| ResidualCompare.CollectedIsLast | tools/archsig/src/compare.rs:236-247 | the value of a key is that of the last edge with its overlap and ends |
| ResidualCompare.BuildRows | tools/archsig/src/compare.rs:271-284 | one equation per shared edge and the support of the difference |
| ResidualCompare.ResidualDifferenceReading | tools/archsig/src/compare.rs:230-330 | complexes mismatch, no change, difference in B1 (with a primitive) or not, each exactly when it holds; the support is exactly the overlaps of the keys on which the two maps differ |
| ResidualCompare.SupportIsDifferingOverlaps | tools/archsig/src/compare.rs:275-284 | for two runs over one complex the support is exactly the ids of the overlaps on which the residuals differ |
| ResidualCompare.SameClassReflexive | tools/archsig/src/compare.rs:285-330 | a run compared with itself reads no change |
| ResidualCompare.SameClassSymmetric | tools/archsig/src/compare.rs:285-330 | the reading does not depend on which run is the base |
| ResidualCompare.SameClassTransitive | tools/archsig/src/compare.rs:285-330 | the reading is transitive |
| ResidualCompare.HeadVerdictFromReading | tools/archsig/src/compare.rs:285-330 | if the base residual is a boundary, the head residual is one iff the reading holds |
| ResidualCompare.PacketBoundaryIsInB1 | tools/archsig/src/compare.rs:259-270 | taking charts only from edges loses nothing: the record is a boundary iff the residual is in B1 of the whole complex |
| ResidualCompare.ReadingTransportsB1 | tools/archsig/src/compare.rs:235-330 | over one complex with one residual variable, base in B1: head in B1 iff the reading is no change or difference in B1 |
| ResidualClasses.ReadingIsCohomologous | tools/archsig/src/compare.rs:285-330 | the reading of two runs over one complex holds iff their residuals differ by a coboundary |
| ResidualClasses.CohomologousCocycles | tools/archsig/src/compare.rs:285-330 | residuals read alike are both cocycles or neither |
| ResidualClasses.TwoCertifiedRuns | tools/archsig/src/compare.rs:285-330 | for two certified runs the reading says whether their classes in Z1/B1 agree, and then one is zero iff the other is |
| Elimination.FindPivot | research/experiments/g104-necessity-map/necessity_map.py:93-98 | finds the first row with a nonzero entry in the column, or none exists |
| Elimination.ClearColumn | research/experiments/g104-necessity-map/necessity_map.py:100-109 | dividing and subtracting extends the reduced form by one pivot and keeps the kernel |
| Elimination.Eliminate | research/experiments/g104-necessity-map/necessity_map.py:89-113 | reduced form with the same kernel; the pivots are the columns no earlier columns span, also after the early stop |
| LinearSystems.MatrixRank | research/experiments/g104-necessity-map/necessity_map.py:89-113 | the number of pivots is the dimension of the column span |
| LinearSystems.KernelBasis | research/experiments/g104-necessity-map/necessity_map.py:115-160 | columns in the kernel, every kernel vector a unique combination, one at their own free column and zero at the others; their number plus the rank is the column count |
| ReducedForms.KernelBasisIsDetermined | research/experiments/g104-necessity-map/necessity_map.py:144-160 | only one basis picks the free columns in order |
| LinearSystems.SolveLinearSystem | research/experiments/g104-necessity-map/necessity_map.py:414-453 | a true solution, zero off the pivots; raises for a wrong length, and as inconsistent iff no solution exists |
| ReducedForms.SolutionIsDetermined | research/experiments/g104-necessity-map/necessity_map.py:450-453 | at most one solution is zero off the pivots |
| Spans.RankOfEqualSpans | research/experiments/g104-necessity-map/necessity_map.py:89-113 | matrices with one column span have one rank |
| Spans.EqualRankEqualSpan | research/experiments/g104-necessity-map/necessity_map.py:398-403 | a span inside another of equal rank is all of it |
| Quotients.RankGap | research/experiments/g104-necessity-map/necessity_map.py:396-403 | stacking adds the number of columns to the rank iff they are independent modulo the rest |
| Quotients.KeptSpan | research/experiments/g104-necessity-map/necessity_map.py:393-403 | the greedily kept candidates span, with the start, what all candidates span, and each raises the rank by one |
| Quotients.KeptIffNew | research/experiments/g104-necessity-map/necessity_map.py:393-403 | a candidate is kept iff the start and all candidates before it do not span it |
| Cohomology.AnalyzeComplexMap | research/experiments/g104-necessity-map/necessity_map.py:311-347 | raises iff one of the four guards fails; otherwise the two H1 dimensions and the comparison rank |
| Cohomology.KeptCount | research/experiments/g104-necessity-map/necessity_map.py:404-405 | the asserted count is reached iff d1 d0 is zero |
| Cohomology.QuotientH1Representatives | research/experiments/g104-necessity-map/necessity_map.py:388-411 | for composable matrices the assertion fires iff d1 d0 is not zero; otherwise the chosen cycles are as many as the dimension, independent modulo boundaries and span all cycles with them; for others it returns only without cycles and boundaries |
| Cohomology.RepresentativesAreDetermined | research/experiments/g104-necessity-map/necessity_map.py:388-411 | the chosen representatives are determined by the two matrices |
| Cohomology.MappedCycle | research/experiments/g104-necessity-map/necessity_map.py:463-483 | a cochain map sends cycles to cycles, so every solve is consistent |
| Cohomology.InducedH1MapMatrix | research/experiments/g104-necessity-map/necessity_map.py:463-490 | any five matrices: returns iff both sides have representatives, the pullback composes, and every chosen coarse representative is sent to a fine cycle; the columns give each image modulo boundaries |
| Cohomology.CochainMapInduces | research/experiments/g104-necessity-map/necessity_map.py:463-490 | on a cochain map no solve fails |
| Cohomology.InducedByIsInducedMap | research/experiments/g104-necessity-map/necessity_map.py:463-490 | on a cochain map the result represents the image of every coarse class |
| H1Meaning.ComparisonRankIsInducedRank | research/experiments/g104-necessity-map/necessity_map.py:332-347 | the comparison rank computed by stacking is the rank of the induced matrix on H1 |
| H1Meaning.RankIsBounded | research/experiments/g104-necessity-map/necessity_map.py:332-347 | the comparison rank lies between zero and both dimensions |
| H1Meaning.DefectIsKernelAndCokernel | research/experiments/atlas-reduction-toy/depth_map_toy.py:141-156 | the pair (phantom, hidden) is the dimensions of kernel and cokernel of the induced matrix |
| H1Meaning.InducedMapExists | research/experiments/g104-necessity-map/necessity_map.py:463-490 | every cochain map has an induced matrix |
| H1Meaning.InjectiveFlag | research/experiments/g104-necessity-map/necessity_map.py:340-347 | the flag says that only boundaries map to boundaries |
| H1Meaning.SurjectiveFlag | research/experiments/g104-necessity-map/necessity_map.py:340-347 | the flag says that every fine cycle is an image modulo boundaries |
| Kronecker.MixedProduct | research/experiments/g104-necessity-map/necessity_map.py:173-186 | the product of tensors is the tensor of products |
| Kronecker.KroneckerProduct | research/experiments/g104-necessity-map/necessity_map.py:173-186 | the four nested loops write the Kronecker product |
| Kronecker.KronEntry | research/experiments/g104-necessity-map/necessity_map.py:173-186 | entry by entry: the blocks of the product are the multiples of the right matrix by the entries of the left |
| Nerves.FillD0 | research/experiments/g104-necessity-map/necessity_map.py:221-226 | the incidence matrix of edges, a self-loop cancelling |
| Nerves.FillD1 | research/experiments/g104-necessity-map/necessity_map.py:228-234 | the incidence matrix of faces, repeated edges adding up |
| Nerves.D0At | research/experiments/g104-necessity-map/necessity_map.py:221-226 | d0 takes the difference of a vertex function along an edge |
| Nerves.EndpointEqualitiesGiveComplex | research/experiments/g104-necessity-map/necessity_map.py:210-219 | the three endpoint equalities force d1 d0 = 0, so the last check never raises |
| Nerves.FillPullback | research/experiments/g104-necessity-map/necessity_map.py:282-298 | one row per fine cell, zero when degenerate |
| Nerves.VertexSquare | research/experiments/g104-necessity-map/necessity_map.py:257-267 | every accepted morphism makes the degree-zero square commute, degenerate edges included |
| Nerves.EdgeSquare | research/experiments/g104-necessity-map/necessity_map.py:269-280 | every accepted morphism makes the degree-one square commute, degenerate faces included |
| Nerves.MorphismIsCochainMap | research/experiments/g104-necessity-map/necessity_map.py:323-363 | for every accepted morphism and every coefficient matrix no guard of the analysis can raise |
| Nerves.CoefficientMapIsTensor | research/experiments/g104-necessity-map/necessity_map.py:350-363 | cell by cell the incidences carry the identity and the pullbacks the coefficient map |
| Nerves.AnalyzeH1 | research/experiments/g104-necessity-map/necessity_map.py:350-363 | the analysis of the tensored comparison, always defined |
| Restriction.SelectedEdgeKeepsEnds | research/experiments/g104-necessity-map/necessity_map.py:832-835 | an edge whose support meets A has both endpoints selected |
| Restriction.SelectedFaceKeepsEdges | research/experiments/g104-necessity-map/necessity_map.py:836-838 | a face whose support meets A has all its edges selected |
| Restriction.RenumberedIsIncidence | research/experiments/g104-necessity-map/necessity_map.py:839-855 | the restricted nerve passes the nerve constructor |
| Restriction.FineEdgeImage | research/experiments/g104-necessity-map/necessity_map.py:1000-1008 | a selected fine edge has a selected coarse image or none at all |
| Restriction.FineFaceImage | research/experiments/g104-necessity-map/necessity_map.py:1009-1017 | a selected fine face has a selected coarse image or none at all |
| Restriction.SubselectionIsClosed | research/experiments/g104-necessity-map/necessity_map.py:789-838 | for every comparison and every A no internal assertion can fire |
| Restriction.SubcomparisonIsMorphism | research/experiments/g104-necessity-map/necessity_map.py:1018-1028 | the restricted maps pass the morphism constructor |
| Restriction.CellsAreTouched | research/experiments/g104-necessity-map/necessity_map.py:789-838 | a vertex, edge or face is kept iff some target of A (for the fine side: over A) lies on every chart of the cell; kept cells come in ascending order |
| Restriction.RestrictionReadsBack | research/experiments/g104-necessity-map/necessity_map.py:839-855 | renumbered ends, boundaries and images name the cells of the original nerves |
| Restriction.CoordinateSubcomparison | research/experiments/g104-necessity-map/necessity_map.py:964-1028 | refused iff A is empty or leaves the coarse targets; otherwise exactly the cells with a target of A (over A) on all their charts, with ends, boundaries and images as in the original, which pass the morphism constructor |
| DirectSums.RankOfDiag | research/experiments/g104-necessity-map/necessity_map.py:548-560 | the rank of a block diagonal is the sum of ranks |
| DirectSums.DiagKernelBasis | research/experiments/g104-necessity-map/necessity_map.py:548-560 | the block diagonal of kernel bases is a kernel basis |
| DirectSums.BlockDiagonal | research/experiments/g104-necessity-map/necessity_map.py:548-560 | the loops with running offsets write the block diagonal |
| DirectSums.BlockDiagEntry | research/experiments/g104-necessity-map/necessity_map.py:548-560 | entry by entry: each block at its offsets, zero beside it |
| DirectSums.DirectSumAnalysis | research/experiments/g104-necessity-map/necessity_map.py:366-378 | the field-by-field sums, flags read off the totals |
| DirectSums.AnalysisOfTwo | research/experiments/g104-necessity-map/necessity_map.py:366-378 | dimensions and comparison rank add over two blocks |
| DirectSums.AnalysisOfDirectSum | research/experiments/g104-necessity-map/necessity_map.py:366-378 | the analysis of any direct sum of cochain maps is the sum of their analyses |
| NerveUnions.UnionPlainMap | research/experiments/g104-necessity-map/necessity_map.py:1252-1331 | a disjoint union of morphisms has block-diagonal incidence and pullback matrices, in order |
| NerveUnions.PlainCoefficients | research/experiments/g104-necessity-map/necessity_map.py:865-866 | with the identity coefficient the tensored comparison is the plain one |
| LawBlocks.GeneratedValueOrder | research/experiments/g104-necessity-map/necessity_map.py:650-655 | the values in order of first occurrence |
| LawBlocks.ValueOrderIsFirstOccurrence | research/experiments/g104-necessity-map/necessity_map.py:650-655 | the values come in the order in which the descent first takes them |
| LawBlocks.BasisHas | research/experiments/g104-necessity-map/necessity_map.py:658-670 | a coordinate is a value of the law with a cell whose support meets that value's targets |
| LawBlocks.BasisIsOrdered | research/experiments/g104-necessity-map/necessity_map.py:658-670 | coordinates come value-major, then by ascending cell, none twice |
| LawBlocks.GeneratedIsUnion | research/experiments/g104-necessity-map/necessity_map.py:673-734 | the coordinates, incidences and images of the generator are those of the disjoint union of the A-subcomparisons, and none of its lookups fails |
| LawBlocks.GeneratedMeans | research/experiments/g104-necessity-map/necessity_map.py:737-778 | read off nerves, supports and law alone: (cell, value) is a coordinate iff some target on all charts of the cell takes the value; d0, d1 and the pullbacks, entry for entry, relate coordinates of one value along ends, boundaries and images |
| LawBlocks.BuildLawGeneratedComparison | research/experiments/g104-necessity-map/necessity_map.py:737-778 | refused iff the law is invalid; otherwise the generated comparison, with the coordinates and entries of GeneratedMeans, a cochain map |
| LawBlocks.ValueClassesAreLegal | research/experiments/g104-necessity-map/necessity_map.py:1259-1267 | the class of a value is nonempty iff the law takes the value, and lies among the coarse targets |
| LawBlocks.LegalClassMeans | research/experiments/g104-necessity-map/necessity_map.py:1259-1267 | the class of a value is legal iff the descent takes the value, at coarse targets only |
| LawBlocks.BlockBasisAt | research/experiments/g104-necessity-map/necessity_map.py:1268-1290 | the coordinates of a block follow those of the blocks before it, its cells in order |
| LawBlocks.BuildValueBlockDirectSum | research/experiments/g104-necessity-map/necessity_map.py:1252-1331 | refused iff the class of some value is empty or leaves the coarse targets; otherwise the assembled sum, a cochain map, equal to the generated comparison of every valid law with these descents and values |
| LawBlocks.BlockReduction | research/experiments/g104-necessity-map/necessity_map.py:737-778 | for every comparison and valid law the generated bases, d0, d1 and pullbacks equal the block sum, entry for entry and in order |
| LawBlocks.LawAnalysisIsSumOverValues | research/experiments/g104-necessity-map/necessity_map.py:614-623 | the dimensions, the rank and the defect of a law's comparison are the sums over its value classes of the constant-coefficient A-subnerve comparisons |
| Uniformity.UniformIffEveryLaw | research/experiments/g104-necessity-map/necessity_map.py:1030-1037 | every nonempty A gives an isomorphism iff every valid law does |
| Uniformity.UniformIffNoDefect | research/experiments/atlas-reduction-toy/depth_map_toy.py:3-7 | every nonempty A gives an isomorphism iff J_A is (0, 0) for every nonempty A |
| Uniformity.LawIsIsomorphism | research/experiments/g104-necessity-map/necessity_map.py:614-623 | a law's comparison is an isomorphism iff that of each of its value classes is |
| Uniformity.CheckUniform | research/experiments/g104-necessity-map/necessity_map.py:1030-1037 | the enumeration of nonempty subsets decides uniformity and no subset is refused |
| DepthMap.RankOfTranspose | research/experiments/atlas-reduction-toy/depth_map_toy.py:96-113 | eliminating rows or columns counts the same pivots |
| DepthMap.RankOfVectors | research/experiments/atlas-reduction-toy/depth_map_toy.py:111-113 | dropping zero vectors and eliminating the rest as rows gives the dimension of their span |
| DepthMap.ComplexOf | research/experiments/atlas-reduction-toy/depth_map_toy.py:128-139 | cycles, boundaries and the dimension of H1 of a nerve |
| DepthMap.Profile | research/experiments/atlas-reduction-toy/depth_map_toy.py:141-156 | J of an accepted morphism's edge map is the defect of its comparison |
| ContextCycles.CycleSearch.Visit | tools/archsig/src/compare.rs:826-846 | true only on a cycle; false finishes the context and leaves the stack of visited contexts as it was |
| ContextCycles.HasContextCycle | tools/archsig/src/compare.rs:825-853 | true iff a nonempty directed cycle exists |
| ContextCycles.LastVisit | tools/archsig/src/archmap.rs:939-948 | a walk may be cut so that it never returns to its start |
| ContextCycles.PathStack.RestrictionCycleReaches | tools/archsig/src/archmap.rs:933-950 | true iff a walk of at least one step reaches the start off the stack, resolved or not; the stack is restored |
| ContextCycles.CyclicContexts | tools/archsig/src/archmap.rs:911-925 | reports exactly the contexts on a cycle |
| ContextCycles.DetectorsAgree | tools/archsig/src/archmap.rs:911-950 | on resolved graphs both detectors give one answer |
| ContextPaths.PathSearch.Walk | tools/archsig/src/compare.rs:860-889 | appends the listed paths up to two in all, and restores the stack |
| ContextPaths.ContextPaths | tools/archsig/src/compare.rs:855-897 | the first two listed paths, none when an end is unknown |
| ContextPaths.AllPathsExact | tools/archsig/src/compare.rs:866-889 | the listed paths are exactly the simple restriction paths, each as often as its targets are repeated |
| ContextPaths.AllPathsOrdered | tools/archsig/src/compare.rs:866-889 | with distinct targets the paths come in lexicographic order, so the two returned are the least |
| Refinement.CappedSearchExact | tools/archsig/src/compare.rs:855-897 | with distinct targets, fewer than two returned paths are all, two are different valid ones |
| Refinement.OnePathReturned | tools/archsig/src/compare.rs:855-897 | exactly one path is returned iff it is the only simple path and none of its steps is listed twice |
| Refinement.RepeatedTargetLooksAmbiguous | tools/archsig/src/compare.rs:767-823 | a map the validation accepts, with one path and a repeated target: two paths are returned and the refinement is refused as ambiguous |
| Refinement.FindRow | tools/archsig/src/compare.rs:596-635 | the row of a fine context, or the exact reason it has none |
| Refinement.DeriveRefinement | tools/archsig/src/compare.rs:583-641 | established iff both covers are nonempty and every fine context has a row; one row per fine context in order; otherwise the reason of the first context without one |
| Refinement.RowIsUnique | tools/archsig/src/compare.rs:596-635 | the row of a fine context is determined |
| Refinement.RowIsOnlyWalk | tools/archsig/src/compare.rs:596-635 | on a validated map a non-identity row names the only coarse context any walk reaches and the only walk |
| Refinement.ValidatedContextMap | tools/archsig/src/compare.rs:767-823 | accepted iff contexts are named, named once, every target is named, and no cycle exists, and then each name has its own targets; otherwise the error of the first bad entry, or unresolved targets before cycles |
| Relabelling.PermutationsAre | research/experiments/g104-necessity-map/g_local_v1.py:631-632 | exactly the permutations are enumerated |
| Relabelling.PreservingCompose | research/experiments/g104-necessity-map/g_local_v1.py:624-641 | pi-preserving relabels are closed under composition |
| Relabelling.PreservingInverse | research/experiments/g104-necessity-map/g_local_v1.py:624-641 | and under inverse |
| Relabelling.PreservingRelabelsAre | research/experiments/g104-necessity-map/g_local_v1.py:624-641 | the enumeration is exact and never empty, so its assertion cannot fire |
| Relabelling.ClippedRowsCount | research/experiments/g104-necessity-map/g_local_v1.py:229-232 | a payload occurring n times counts min(n, 2) |
| Observation.PreservesIffConsistent | research/experiments/g104-necessity-map/g_local_v1.py:624-658 | a relabel respects pi iff it keeps every label's pi-image the image of its support |
| Relabelling.RenameCommutesWithClip | research/experiments/g104-necessity-map/g_local_v1.py:441-452 | an injective renaming commutes with clipping at two |
| Relabelling.MergingBreaksClip | research/experiments/g104-necessity-map/g_local_v1.py:441-452 | a renaming that merges payloads does not |
| Relabelling.RenameRows | research/experiments/g104-necessity-map/g_local_v1.py:661-690 | expanding clipped rows, renaming and clipping again renames the rows |
| Observation.RelabelBallRows | research/experiments/g104-necessity-map/g_local_v1.py:661-690 | relabelling a ball expands and clips its descriptor rows again, which renames root and rows and keeps them clipped |
| Observation.RelabelScopeRecord | research/experiments/g104-necessity-map/g_local_v1.py:693-713 | relabelling a record ball by ball renames its balls and nothing else, and keeps the rows of both levels clipped |
| Observation.RecordMoves | research/experiments/g104-necessity-map/g_local_v1.py:644-713 | what a relabelled record is: supports and pi-images moved target by target, every row moved with its count, nothing else changed |
| Observation.AggregateMeans | research/experiments/g104-necessity-map/g_local_v1.py:716-731 | the aggregate: C0*, C5*, C6* of the whole record, and each of C1* to C4* true iff no A-record lacks it |
| Observation.CandidateMeans | research/experiments/g104-necessity-map/g_local_v1.py:766-781 | a candidate is the aggregate, the moved whole record, and the clipped count of the moved A-records |
| Observation.RecordCompose | research/experiments/g104-necessity-map/g_local_v1.py:644-713 | relabelling twice is relabelling by the composition |
| Observation.RecordsInjective | research/experiments/g104-necessity-map/g_local_v1.py:644-713 | relabelling never merges two records |
| Observation.ObserveGLocal | research/experiments/g104-necessity-map/g_local_v1.py:749-782 | the least payload over all pi-preserving relabels |
| Observation.ObservationIsOrbitInvariant | research/experiments/g104-necessity-map/g_local_v1.py:749-782 | relabelling all records first, in any order of A-records, changes neither the payloads nor the minimum |
| CanonicalJson.Visit | tools/archsig/src/policy_bundle.rs:229-293 | the strict visitor accepts exactly the values without a repeated key at any depth |
| CanonicalJson.DuplicateFreeMeans | tools/archsig/src/policy_bundle.rs:229-293 | a value is accepted iff no object in it, at any depth, repeats a key |
| CanonicalJson.CanonicalFinds | tools/archsig/src/policy_bundle.rs:298-306 | canonicalizing an object canonicalizes each value and loses no member |
| CanonicalJson.CanonicalIsTheSortedForm | tools/archsig/src/policy_bundle.rs:295-309 | the canonical form of a duplicate-free value is its only reordering with ascending keys at every depth |
| CanonicalJson.CanonicalDecidesSame | tools/archsig/src/policy_bundle.rs:295-309 | two duplicate-free values have one canonical form iff they are equal up to member order at every depth |
| CanonicalJson.CanonicalTwice | tools/archsig/src/policy_bundle.rs:295-309 | canonicalizing twice changes nothing |

## Left out

- Residual values other than 0 and 1: a recorded edge value is a byte in the program, and a difference is counted only when it is 1; here a value is a `bool`.
- Observing a section on an edge (`observe_cech_edge` is not part of this model): a function from two contexts to an observation is a parameter.
- The scope records under an observation (the terminal reductions and the condition clauses are not part of this model): a record is a parameter, clipped at both levels, and the clauses that hold stand for its table of conditions.
- The canonical text of an observation candidate: any function from candidates to strings stands for it; histogram rows are maps from payload values to counts, so that different values have different texts is taken for granted there.
- The trace union worklist of the observation, whose steps are not part of this model.
- ResidualCompare.ResidualDifferenceReading: the support is a set of overlap ids, where the program lists an id once per key and two keys could share an id.
- The certificate's list of triples keeps the order of the complex, where the program sorts it by id.
- Trimming white space: an atom's object and a context's id arrive trimmed, and absent when blank.
- Python's `Fraction` is a `real`, of which only field arithmetic and comparison with zero are used; the elimination loop that the program writes three times is modelled once.
- Cohomology.AnalyzeComplexMap: does not tell apart the four guards and the dimension error of a product, because all of them refuse the comparison.
- LawBlocks.BuildLawGeneratedComparison: a law value is an integer, since the program compares a truth value and its integer alike.
- In-place updates of vectors and lists that one function owns are updates of a local sequence; no aliasing can arise there.
- The order in which a set is walked where the result does not show it: variables of the linear system, components (the program starts from the least unvisited chart), relabels; witnesses are sets of charts rather than sorted lists.
- JSON numbers are opaque scalars; serde_json's map already keeps members in key order, so the sort is modelled on lists of members.
- Reading files, digests, report assembly, view models, gate tables and the other validators: no deep invariant.
- Condition vectors C1-C4, C0/C5/C6 reports and subset enumeration: bookkeeping over the analyses proved here.
- `depth_map_toy.py` names cells by strings and merges parallel edges, and its `law_complex` lists coordinates cell by cell; J is modelled on nerves, and the sum over value classes is proved for the value-major construction.
