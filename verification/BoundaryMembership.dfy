/**
 Boundary membership of tools/archsig/src/saga.rs: the linear system built from the
 overlaps, and what its solvability means on closed walks.
 */
module BoundaryMembership {
  import opened Sequences
  import opened Names
  import opened SagaComplex
  import opened F2Solver

  // ---------- The meaning: B1 = im delta0 ----------

  predicate Carries(supports: Supports, id: Name, v: Name) {
    id in supports && v in supports[id]
  }

  /** A 0-cochain is the set of (chart, variable) pairs on which it is 1. */
  type Cochain0 = set<(Name, Name)>

  /** The coboundary of h on overlap e, in variable v. */
  predicate Coboundary(h: Cochain0, e: Overlap, v: Name) {
    ((e.left, v) in h) != ((e.right, v) in h)
  }

  ghost predicate IsPrimitive(c: Complex, supports: Supports, h: Cochain0) {
    forall e, v :: e in c.overlaps ==> Coboundary(h, e, v) == Carries(supports, e.id, v)
  }

  ghost predicate InB1(c: Complex, supports: Supports) {
    exists h :: IsPrimitive(c, supports, h)
  }

  // ---------- The system of equations ----------

  /** The row with a one (XORed) at `left` and at `right`, and right-hand side `rhs`. */
  function EdgeRow(n: nat, left: nat, right: nat, rhs: bool): (row: Bits)
    requires left < n && right < n
    ensures |row| == n + 1
  {
    seq(n, i => (i == left) != (i == right)) + [rhs]
  }

  lemma EdgeRowHolds(n: nat, left: nat, right: nat, rhs: bool, x: Bits)
    requires left < n && right < n && |x| == n
    ensures Holds(EdgeRow(n, left, right, rhs), x) <==> ((x[left] != x[right]) == rhs)
  {
    var a, b := seq(n, i => i == left), seq(n, i => i == right);
    DotSingle(a, x, left);
    DotSingle(b, x, right);
    DotXor(a, b, x);
    assert EdgeRow(n, left, right, rhs)[..n] == XorRow(a, b);
  }

  /** The index under which a map filled in order keeps a name: its last occurrence. */
  function IndexOf(names: seq<Name>, name: Name): (i: nat)
    requires name in names
    ensures i < |names| && names[i] == name
  {
    if names[|names| - 1] == name then |names| - 1 else IndexOf(names[..|names| - 1], name)
  }

  /** The unknown for chart i and variable j. */
  function Unknown(i: nat, j: nat, charts: nat, variables: nat): (k: nat)
    requires i < charts && j < variables
    ensures k < charts * variables
    ensures k / variables == i && k % variables == j
  {
    UnknownDecodes(i, j, charts, variables);
    i * variables + j
  }

  lemma UnknownDecodes(i: nat, j: nat, charts: nat, variables: nat)
    requires i < charts && j < variables
    ensures i * variables + j < charts * variables
    ensures (i * variables + j) / variables == i && (i * variables + j) % variables == j
  {
    SmallMultiple(i - charts + 1, variables);
    var k := i * variables + j;
    SameQuotient(i, j, k / variables, k % variables, variables);
  }

  lemma SameQuotient(i: int, j: int, q: int, r: int, n: nat)
    requires i * n + j == q * n + r && 0 <= j < n && 0 <= r < n
    ensures q == i && r == j
  {
    assert (q - i) * n == j - r;
    SmallMultiple(q - i, n);
  }

  lemma SmallMultiple(d: int, n: nat)
    ensures d <= 0 ==> d * n <= 0
    ensures 0 < d * n + n && d * n < n ==> d == 0
  {
    if d >= 1 { AtLeastOnce(d, n); }
    if d <= -1 {
      AtLeastOnce(-d, n);
      assert d * n == -((-d) * n);
    }
  }

  lemma {:induction false} AtLeastOnce(d: int, n: nat)
    requires d >= 1
    ensures d * n >= n
    decreases d
  {
    if d > 1 {
      AtLeastOnce(d - 1, n);
      assert d * n == (d - 1) * n + n;
    }
  }

  function Equation(charts: seq<Name>, supports: Supports, variables: seq<Name>, e: Overlap, j: nat): (row: Bits)
    requires EndpointsIn(e, charts) && j < |variables|
    ensures |row| == |charts| * |variables| + 1
  {
    EdgeRow(|charts| * |variables|,
            Unknown(IndexOf(charts, e.left), j, |charts|, |variables|),
            Unknown(IndexOf(charts, e.right), j, |charts|, |variables|),
            Carries(supports, e.id, variables[j]))
  }

  lemma EquationHolds(charts: seq<Name>, supports: Supports, variables: seq<Name>, e: Overlap, j: nat, x: Bits)
    requires EndpointsIn(e, charts) && j < |variables| && |x| == |charts| * |variables|
    ensures Holds(Equation(charts, supports, variables, e, j), x) <==>
      ((x[Unknown(IndexOf(charts, e.left), j, |charts|, |variables|)]
        != x[Unknown(IndexOf(charts, e.right), j, |charts|, |variables|)]) == Carries(supports, e.id, variables[j]))
  {
    EdgeRowHolds(|x|, Unknown(IndexOf(charts, e.left), j, |charts|, |variables|),
                 Unknown(IndexOf(charts, e.right), j, |charts|, |variables|),
                 Carries(supports, e.id, variables[j]), x);
  }

  function Equations(charts: seq<Name>, supports: Supports, variables: seq<Name>, e: Overlap): (rows: seq<Bits>)
    requires EndpointsIn(e, charts)
    ensures |rows| == |variables| && Rectangular(rows, |charts| * |variables| + 1)
    ensures forall j :: 0 <= j < |variables| ==> rows[j] == Equation(charts, supports, variables, e, j)
  {
    seq(|variables|, j requires 0 <= j < |variables| => Equation(charts, supports, variables, e, j))
  }

  /** One equation for every overlap and variable, overlap-major. */
  function System(charts: seq<Name>, overlaps: seq<Overlap>, supports: Supports, variables: seq<Name>): (rows: seq<Bits>)
    requires forall e :: e in overlaps ==> EndpointsIn(e, charts)
    ensures Rectangular(rows, |charts| * |variables| + 1)
  {
    if overlaps == [] then [] else
      var last := overlaps[|overlaps| - 1];
      System(charts, overlaps[..|overlaps| - 1], supports, variables)
      + Equations(charts, supports, variables, last)
  }

  lemma AllHoldConcat(a: seq<Bits>, b: seq<Bits>, x: Bits)
    requires Rectangular(a, |x| + 1) && Rectangular(b, |x| + 1)
    ensures Rectangular(a + b, |x| + 1) && (AllHold(a + b, x) <==> AllHold(a, x) && AllHold(b, x))
  {
    hide Holds;
    assert forall i :: 0 <= i < |a| ==> (a + b)[i] == a[i];
    assert forall i :: 0 <= i < |b| ==> (a + b)[|a| + i] == b[i];
  }

  lemma {:induction false} SystemHolds(charts: seq<Name>, overlaps: seq<Overlap>, supports: Supports, variables: seq<Name>, x: Bits)
    requires forall e :: e in overlaps ==> EndpointsIn(e, charts)
    requires |x| == |charts| * |variables|
    ensures AllHold(System(charts, overlaps, supports, variables), x) <==>
      forall e, j :: e in overlaps && 0 <= j < |variables| ==> Holds(Equation(charts, supports, variables, e, j), x)
  {
    hide Holds, Equation;
    if overlaps != [] {
      var m := |overlaps| - 1;
      var before, last := System(charts, overlaps[..m], supports, variables), overlaps[m];
      SystemHolds(charts, overlaps[..m], supports, variables, x);
      AllHoldConcat(before, Equations(charts, supports, variables, last), x);
      assert AllHold(Equations(charts, supports, variables, last), x) <==>
        forall j :: 0 <= j < |variables| ==> Holds(Equation(charts, supports, variables, last, j), x);
      assert overlaps == overlaps[..m] + [last];
    }
  }

  function VariableSet(supports: Supports): (vs: set<Name>)
    ensures forall id, v :: Carries(supports, id, v) ==> v in vs
  {
    set id, v | id in supports && v in supports[id] :: v
  }

  method BuildSystem(c: Complex, supports: Supports, variables: seq<Name>) returns (rows: seq<Bits>)
    requires EndpointsDeclared(c)
    ensures rows == System(c.charts, c.overlaps, supports, variables)
  {
    rows := [];
    for i := 0 to |c.overlaps|
      invariant rows == System(c.charts, c.overlaps[..i], supports, variables)
    {
      var equations := [];
      for j := 0 to |variables|
        invariant |equations| == j
        invariant forall k :: 0 <= k < j ==> equations[k] == Equation(c.charts, supports, variables, c.overlaps[i], k)
      {
        var row := BuildRow(c.charts, supports, variables, c.overlaps[i], j);
        equations := equations + [row];
      }
      assert c.overlaps[..i + 1][..i] == c.overlaps[..i];
      assert equations == Equations(c.charts, supports, variables, c.overlaps[i]);
      rows := rows + equations;
    }
    assert c.overlaps[..|c.overlaps|] == c.overlaps;
  }

  method BuildRow(charts: seq<Name>, supports: Supports, variables: seq<Name>, e: Overlap, j: nat) returns (row: Bits)
    requires EndpointsIn(e, charts) && j < |variables|
    ensures row == Equation(charts, supports, variables, e, j)
  {
    var n := |charts| * |variables|;
    var left := Unknown(IndexOf(charts, e.left), j, |charts|, |variables|);
    var right := Unknown(IndexOf(charts, e.right), j, |charts|, |variables|);
    row := seq(n + 1, _ => false);
    row := row[left := !row[left]];
    row := row[right := !row[right]];
    row := row[n := Carries(supports, e.id, variables[j])];
  }

  function CochainOf(c: Complex, variables: seq<Name>, x: Bits): Cochain0
    requires |x| == |c.charts| * |variables|
  {
    set chart, v | chart in c.charts && v in variables
                   && x[Unknown(IndexOf(c.charts, chart), IndexOf(variables, v), |c.charts|, |variables|)]
                 :: (chart, v)
  }

  lemma SolutionIsPrimitive(c: Complex, supports: Supports, variables: seq<Name>, x: Bits)
    requires EndpointsDeclared(c)
    requires forall v :: v in variables <==> v in VariableSet(supports)
    requires |x| == |c.charts| * |variables| && AllHold(System(c.charts, c.overlaps, supports, variables), x)
    ensures IsPrimitive(c, supports, CochainOf(c, variables, x))
  {
    var h := CochainOf(c, variables, x);
    SystemHolds(c.charts, c.overlaps, supports, variables, x);
    forall e, v | e in c.overlaps
      ensures Coboundary(h, e, v) == Carries(supports, e.id, v)
    {
      if v in variables {
        EquationHolds(c.charts, supports, variables, e, IndexOf(variables, v), x);
      }
    }
  }

  lemma PrimitiveGivesSolution(c: Complex, supports: Supports, variables: seq<Name>, h: Cochain0) returns (x: Bits)
    requires EndpointsDeclared(c)
    requires IsPrimitive(c, supports, h)
    ensures |x| == |c.charts| * |variables| && AllHold(System(c.charts, c.overlaps, supports, variables), x)
  {
    var n, m := |c.charts| * |variables|, |variables|;
    forall k | 0 <= k < n ensures m > 0 && k / m < |c.charts| { DecodeInRange(k, |c.charts|, m); }
    x := seq(n, k requires 0 <= k < n => (c.charts[k / m], variables[k % m]) in h);
    forall e, j | e in c.overlaps && 0 <= j < m
      ensures Holds(Equation(c.charts, supports, variables, e, j), x)
    {
      assert Coboundary(h, e, variables[j]) == Carries(supports, e.id, variables[j]);
      EquationHolds(c.charts, supports, variables, e, j, x);
    }
    SystemHolds(c.charts, c.overlaps, supports, variables, x);
  }

  lemma DecodeInRange(k: nat, charts: nat, variables: nat)
    requires k < charts * variables
    ensures variables > 0 && k / variables < charts
  {
    if variables > 0 {
      var q := k / variables;
      assert q * variables <= k;
      assert (q - charts) * variables < 0;
    }
  }

  /** Decides membership in B1, with a primitive when the residual is one. */
  method SolveBoundaryMembership(c: Complex, supports: Supports) returns (inB1: bool, primitive: Cochain0)
    requires EndpointsDeclared(c)
    ensures inB1 <==> InB1(c, supports)
    ensures inB1 ==> IsPrimitive(c, supports, primitive)
  {
    var variables := Enumerate(VariableSet(supports));
    var rows := BuildSystem(c, supports, variables);
    var solution := SolveF2(rows, |c.charts| * |variables|);
    if solution.None? {
      if h :| IsPrimitive(c, supports, h) {
        var x := PrimitiveGivesSolution(c, supports, variables, h);
      }
      return false, {};
    }
    SolutionIsPrimitive(c, supports, variables, solution.value);
    return true, CochainOf(c, variables, solution.value);
  }

  // ---------- Closed walks ----------

  /** Crossing one overlap, from left to right or back. */
  datatype Step = Step(overlap: nat, forward: bool)

  predicate IsStep(c: Complex, s: Step) { s.overlap < |c.overlaps| }

  function From(c: Complex, s: Step): Name
    requires IsStep(c, s)
  {
    if s.forward then c.overlaps[s.overlap].left else c.overlaps[s.overlap].right
  }

  function To(c: Complex, s: Step): Name
    requires IsStep(c, s)
  {
    if s.forward then c.overlaps[s.overlap].right else c.overlaps[s.overlap].left
  }

  predicate IsWalk(c: Complex, a: Name, b: Name, w: seq<Step>)
    decreases w
  {
    if w == [] then a == b else IsStep(c, w[0]) && From(c, w[0]) == a && IsWalk(c, To(c, w[0]), b, w[1..])
  }

  /** Whether the walk crosses overlaps carrying v an odd number of times. */
  predicate Odd(c: Complex, supports: Supports, v: Name, w: seq<Step>) {
    w != [] && ((IsStep(c, w[0]) && Carries(supports, c.overlaps[w[0].overlap].id, v)) != Odd(c, supports, v, w[1..]))
  }

  ghost predicate ClosedWalksEven(c: Complex, supports: Supports) {
    forall a, w, v :: IsWalk(c, a, a, w) ==> !Odd(c, supports, v, w)
  }

  ghost predicate Connected(c: Complex, a: Name, b: Name) {
    exists w :: IsWalk(c, a, b, w)
  }

  lemma {:induction false} WalkParity(c: Complex, supports: Supports, h: Cochain0, a: Name, b: Name, v: Name, w: seq<Step>)
    requires IsPrimitive(c, supports, h) && IsWalk(c, a, b, w)
    ensures Odd(c, supports, v, w) <==> (((a, v) in h) != ((b, v) in h))
    decreases w
  {
    if w != [] {
      var e := c.overlaps[w[0].overlap];
      assert e in c.overlaps && Coboundary(h, e, v) == Carries(supports, e.id, v);
      WalkParity(c, supports, h, To(c, w[0]), b, v, w[1..]);
    }
  }

  lemma {:induction false} WalkJoin(c: Complex, supports: Supports, a: Name, b: Name, d: Name, v: Name, w: seq<Step>, u: seq<Step>)
    requires IsWalk(c, a, b, w) && IsWalk(c, b, d, u)
    ensures IsWalk(c, a, d, w + u)
    ensures Odd(c, supports, v, w + u) == (Odd(c, supports, v, w) != Odd(c, supports, v, u))
    decreases w
  {
    if w == [] {
      assert w + u == u;
    } else {
      assert (w + u)[1..] == w[1..] + u;
      WalkJoin(c, supports, To(c, w[0]), b, d, v, w[1..], u);
    }
  }

  function Back(w: seq<Step>): seq<Step> {
    if w == [] then [] else Back(w[1..]) + [Step(w[0].overlap, !w[0].forward)]
  }

  lemma {:induction false} WalkBack(c: Complex, supports: Supports, a: Name, b: Name, v: Name, w: seq<Step>)
    requires IsWalk(c, a, b, w)
    ensures IsWalk(c, b, a, Back(w)) && Odd(c, supports, v, Back(w)) == Odd(c, supports, v, w)
    decreases w
  {
    if w != [] {
      var last := Step(w[0].overlap, !w[0].forward);
      WalkBack(c, supports, To(c, w[0]), b, v, w[1..]);
      assert [last][1..] == [];
      assert IsWalk(c, To(c, w[0]), a, [last]);
      assert Odd(c, supports, v, [last]) == Carries(supports, c.overlaps[w[0].overlap].id, v);
      WalkJoin(c, supports, b, To(c, w[0]), a, v, Back(w[1..]), [last]);
    }
  }

  lemma ConnectedSymmetric(c: Complex, a: Name, b: Name)
    requires Connected(c, a, b)
    ensures Connected(c, b, a)
  {
    var w :| IsWalk(c, a, b, w);
    WalkBack(c, map[], a, b, "", w);
  }

  lemma ConnectedTransitive(c: Complex, a: Name, b: Name, d: Name)
    requires Connected(c, a, b) && Connected(c, b, d)
    ensures Connected(c, a, d)
  {
    var w :| IsWalk(c, a, b, w);
    var u :| IsWalk(c, b, d, u);
    WalkJoin(c, map[], a, b, d, "", w, u);
  }

  lemma OverlapConnects(c: Complex, i: nat)
    requires i < |c.overlaps|
    ensures IsWalk(c, c.overlaps[i].left, c.overlaps[i].right, [Step(i, true)])
    ensures Connected(c, c.overlaps[i].left, c.overlaps[i].right)
  {
    var w := [Step(i, true)];
    assert w[1..] == [];
    assert IsWalk(c, c.overlaps[i].left, c.overlaps[i].right, w);
  }

  // ---------- Every closed walk even, then a primitive exists ----------

  function Ends(c: Complex): set<Name> {
    (set e | e in c.overlaps :: e.left) + (set e | e in c.overlaps :: e.right)
  }

  ghost function Class(c: Complex, a: Name): set<Name> {
    set b | b in Ends(c) && Connected(c, a, b)
  }

  ghost function Pick(s: set<Name>): Name
    requires s != {}
  {
    var x :| x in s; x
  }

  lemma ClassIsShared(c: Complex, a: Name, b: Name)
    requires Connected(c, a, b)
    ensures Class(c, a) == Class(c, b)
  {
    ConnectedSymmetric(c, a, b);
    forall d | d in Ends(c) ensures Connected(c, a, d) <==> Connected(c, b, d) {
      if Connected(c, a, d) { ConnectedTransitive(c, b, a, d); }
      if Connected(c, b, d) { ConnectedTransitive(c, a, b, d); }
    }
  }

  /** Some walk to a from the representative of its class. */
  ghost function WalkFromRoot(c: Complex, a: Name): (w: seq<Step>)
    requires a in Ends(c)
    ensures Class(c, a) != {} && IsWalk(c, Pick(Class(c, a)), a, w)
  {
    assert IsWalk(c, a, a, []);
    assert a in Class(c, a);
    ConnectedSymmetric(c, a, Pick(Class(c, a)));
    var w :| IsWalk(c, Pick(Class(c, a)), a, w); w
  }

  ghost function Potential(c: Complex, supports: Supports): Cochain0 {
    set a, v | a in Ends(c) && v in VariableSet(supports) && Odd(c, supports, v, WalkFromRoot(c, a)) :: (a, v)
  }

  lemma {:induction false} OddIsCarried(c: Complex, supports: Supports, v: Name, w: seq<Step>)
    requires v !in VariableSet(supports)
    ensures !Odd(c, supports, v, w)
  {
    if w != [] { OddIsCarried(c, supports, v, w[1..]); }
  }

  lemma EvenWalksGivePrimitive(c: Complex, supports: Supports)
    requires ClosedWalksEven(c, supports)
    ensures IsPrimitive(c, supports, Potential(c, supports))
  {
    var h := Potential(c, supports);
    forall e, v | e in c.overlaps
      ensures Coboundary(h, e, v) == Carries(supports, e.id, v)
    {
      var i :| 0 <= i < |c.overlaps| && c.overlaps[i] == e;
      OverlapConnects(c, i);
      ClassIsShared(c, e.left, e.right);
      var w, across, u := WalkFromRoot(c, e.left), [Step(i, true)], WalkFromRoot(c, e.right);
      var root := Pick(Class(c, e.left));
      WalkJoin(c, supports, root, e.left, e.right, v, w, across);
      WalkBack(c, supports, root, e.right, v, u);
      WalkJoin(c, supports, root, e.right, root, v, w + across, Back(u));
      assert !Odd(c, supports, v, w + across + Back(u));
      assert across[1..] == [];
      OddIsCarriedForAll(c, supports, v);
    }
  }

  lemma OddIsCarriedForAll(c: Complex, supports: Supports, v: Name)
    ensures v !in VariableSet(supports) ==> forall w :: !Odd(c, supports, v, w)
  {
    if v !in VariableSet(supports) {
      forall w ensures !Odd(c, supports, v, w) { OddIsCarried(c, supports, v, w); }
    }
  }

  /** The residual is in B1 exactly when every closed walk of overlaps crosses, for each
      variable, an even number of overlaps carrying it. */
  lemma InB1IffClosedWalksEven(c: Complex, supports: Supports)
    ensures InB1(c, supports) <==> ClosedWalksEven(c, supports)
  {
    if h :| IsPrimitive(c, supports, h) {
      forall a, w, v | IsWalk(c, a, a, w) ensures !Odd(c, supports, v, w) {
        WalkParity(c, supports, h, a, a, v, w);
      }
    }
    if ClosedWalksEven(c, supports) {
      EvenWalksGivePrimitive(c, supports);
    }
  }
}
