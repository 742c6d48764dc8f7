/**
 The residual-difference reading of tools/archsig/src/compare.rs: two runs whose derived
 residuals differ by a coboundary, and what that reading says about their B1 verdicts.
 */
module ResidualCompare {
  import opened Sequences
  import opened Names
  import opened SagaComplex
  import opened F2Solver
  import opened BoundaryMembership

  // ---------- Recorded residuals ----------

  /** One recorded edge of a run's derived residual. */
  datatype RunEdge = RunEdge(overlap: Name, left: Name, right: Name, value: bool)

  type Key = (Name, Name, Name)

  type Residual = map<Key, bool>

  function KeyOf(e: RunEdge): Key { (e.overlap, e.left, e.right) }

  /** The map collected from the recorded edges; a later edge overwrites an equal key. */
  function Collected(edges: seq<RunEdge>): (r: Residual)
    ensures forall k :: k in r <==> exists e :: e in edges && KeyOf(e) == k
  {
    if edges == [] then map[] else
      var last := edges[|edges| - 1];
      assert edges == edges[..|edges| - 1] + [last];
      Collected(edges[..|edges| - 1])[KeyOf(last) := last.value]
  }

  /** The value of a key is that of the last edge with its overlap and endpoints. */
  lemma {:induction false} CollectedIsLast(edges: seq<RunEdge>, i: nat)
    requires i < |edges|
    requires forall j :: i < j < |edges| ==>
      (edges[j].overlap, edges[j].left, edges[j].right) != (edges[i].overlap, edges[i].left, edges[i].right)
    ensures var k := (edges[i].overlap, edges[i].left, edges[i].right);
            k in Collected(edges) && Collected(edges)[k] == edges[i].value
  {
    hide Collected;
    var n := |edges| - 1;
    CollectedWithLast(edges);
    if i < n {
      assert KeyOf(edges[n]) != KeyOf(edges[i]);
      CollectedIsLast(edges[..n], i);
    }
  }

  lemma CollectedWithLast(edges: seq<RunEdge>)
    requires edges != []
    ensures var n := |edges| - 1; Collected(edges) == Collected(edges[..n])[KeyOf(edges[n]) := edges[n].value]
  {
  }

  method Collect(edges: seq<RunEdge>) returns (r: Residual)
    ensures r == Collected(edges)
  {
    r := map[];
    for i := 0 to |edges|
      invariant r == Collected(edges[..i])
    {
      assert edges[..i + 1][..i] == edges[..i];
      r := r[KeyOf(edges[i]) := edges[i].value];
    }
    assert edges[..|edges|] == edges;
  }

  /** h is a primitive of r: r is one exactly where h changes across the edge. */
  predicate Bounds(r: Residual, h: set<Name>) {
    forall k :: k in r ==> r[k] == ((k.1 in h) != (k.2 in h))
  }

  ghost predicate IsBoundary(r: Residual) { exists h :: Bounds(r, h) }

  function Delta(base: Residual, head: Residual): (d: Residual)
    requires base.Keys == head.Keys
    ensures d.Keys == base.Keys
  {
    map k | k in base :: base[k] != head[k]
  }

  // ---------- The reading ----------

  datatype Reading =
    | ComplexesDoNotMatch
    | NoResidualChange
    | DifferenceInB1(support: set<Name>, primitive: set<Name>)
    | DifferenceNotInB1(support: set<Name>)

  function DeltaSupport(d: Residual): set<Name> { set k | k in d && d[k] :: k.0 }

  function KeyRow(charts: seq<Name>, k: Key, rhs: bool): (row: Bits)
    requires k.1 in charts && k.2 in charts
    ensures |row| == |charts| + 1
  {
    EdgeRow(|charts|, IndexOf(charts, k.1), IndexOf(charts, k.2), rhs)
  }

  ghost predicate IsSystem(rows: seq<Bits>, charts: seq<Name>, keys: seq<Key>, d: Residual) {
    && |rows| == |keys|
    && (forall k :: k in keys <==> k in d)
    && (forall k :: k in d ==> k.1 in charts && k.2 in charts)
    && (forall i :: 0 <= i < |keys| ==> keys[i] in d && rows[i] == KeyRow(charts, keys[i], d[keys[i]]))
  }

  method BuildRow(charts: seq<Name>, k: Key, rhs: bool) returns (row: Bits)
    requires k.1 in charts && k.2 in charts
    ensures row == KeyRow(charts, k, rhs)
  {
    var n := |charts|;
    row := seq(n + 1, _ => false);
    row := row[IndexOf(charts, k.1) := !row[IndexOf(charts, k.1)]];
    row := row[IndexOf(charts, k.2) := !row[IndexOf(charts, k.2)]];
    row := row[n := rhs];
  }

  method BuildRows(charts: seq<Name>, keys: seq<Key>, d: Residual) returns (rows: seq<Bits>, support: set<Name>)
    requires forall k :: k in keys <==> k in d
    requires forall k :: k in d ==> k.1 in charts && k.2 in charts
    ensures IsSystem(rows, charts, keys, d) && support == DeltaSupport(d)
  {
    rows, support := [], {};
    for i := 0 to |keys|
      invariant |rows| == i
      invariant forall j :: 0 <= j < i ==> keys[j] in d && rows[j] == KeyRow(charts, keys[j], d[keys[j]])
      invariant support == set j | 0 <= j < i && keys[j] in d && d[keys[j]] :: keys[j].0
    {
      assert keys[i] in d;
      if d[keys[i]] { support := support + {keys[i].0}; }
      var row := BuildRow(charts, keys[i], d[keys[i]]);
      rows := rows + [row];
    }
  }

  function Ones(charts: seq<Name>, x: Bits): set<Name>
    requires |x| == |charts|
  {
    set c | c in charts && x[IndexOf(charts, c)]
  }

  /** The charts are those the base edges mention. */
  function Endpoints(edges: seq<RunEdge>): set<Name> {
    (set e | e in edges :: e.left) + (set e | e in edges :: e.right)
  }

  lemma KeyRowHolds(charts: seq<Name>, k: Key, rhs: bool, x: Bits)
    requires k.1 in charts && k.2 in charts && |x| == |charts|
    ensures Holds(KeyRow(charts, k, rhs), x) <==> rhs == ((k.1 in Ones(charts, x)) != (k.2 in Ones(charts, x)))
  {
    EdgeRowHolds(|charts|, IndexOf(charts, k.1), IndexOf(charts, k.2), rhs, x);
  }

  lemma SystemMeansBounds(rows: seq<Bits>, charts: seq<Name>, keys: seq<Key>, d: Residual, x: Bits)
    requires IsSystem(rows, charts, keys, d) && |x| == |charts|
    ensures Rectangular(rows, |x| + 1)
    ensures AllHold(rows, x) <==> Bounds(d, Ones(charts, x))
  {
    forall i | 0 <= i < |rows| ensures Holds(rows[i], x) <==> d[keys[i]] == ((keys[i].1 in Ones(charts, x)) != (keys[i].2 in Ones(charts, x))) {
      KeyRowHolds(charts, keys[i], d[keys[i]], x);
    }
    if AllHold(rows, x) {
      forall k | k in d ensures d[k] == ((k.1 in Ones(charts, x)) != (k.2 in Ones(charts, x))) {
        assert k in keys;
        var i :| 0 <= i < |keys| && keys[i] == k;
        assert Holds(rows[i], x);
      }
    }
  }

  /** Only the charts that edges mention matter to a primitive. */
  lemma PrimitiveOnCharts(charts: seq<Name>, d: Residual, h: set<Name>) returns (x: Bits)
    requires Bounds(d, h) && forall k :: k in d ==> k.1 in charts && k.2 in charts
    ensures |x| == |charts| && Bounds(d, Ones(charts, x))
  {
    x := seq(|charts|, i requires 0 <= i < |charts| => charts[i] in h);
  }

  lemma NoSolution(rows: seq<Bits>, charts: seq<Name>, keys: seq<Key>, d: Residual)
    requires IsSystem(rows, charts, keys, d) && Rectangular(rows, |charts| + 1)
    requires forall x: Bits {:trigger AllHold(rows, x)} :: |x| == |charts| ==> !AllHold(rows, x)
    ensures !IsBoundary(d)
  {
    if h :| Bounds(d, h) {
      var x := PrimitiveOnCharts(charts, d, h);
      SystemMeansBounds(rows, charts, keys, d, x);
    }
  }

  lemma NoSupport(base: Residual, head: Residual)
    requires base.Keys == head.Keys
    ensures DeltaSupport(Delta(base, head)) == {} <==> base == head
  {
    var d := Delta(base, head);
    if DeltaSupport(d) == {} {
      forall k | k in base ensures base[k] == head[k] { assert d[k] ==> k.0 in DeltaSupport(d); }
    }
  }

  /** The support names the overlaps on which the two records differ. */
  lemma SupportMeans(base: Residual, head: Residual, x: Name)
    requires base.Keys == head.Keys
    ensures x in DeltaSupport(Delta(base, head)) <==> exists k :: k in base && k.0 == x && base[k] != head[k]
  {
    var d := Delta(base, head);
    if k :| k in base && k.0 == x && base[k] != head[k] { assert k in d && d[k]; }
  }

  lemma ChartsCovered(edges: seq<RunEdge>, d: Residual)
    requires d.Keys == Collected(edges).Keys
    ensures forall k :: k in d ==> k.1 in Endpoints(edges) && k.2 in Endpoints(edges)
  {
    forall k | k in d ensures k.1 in Endpoints(edges) && k.2 in Endpoints(edges) {
      assert k in Collected(edges);
      var e :| e in edges && KeyOf(e) == k;
    }
  }

  method ResidualDifferenceReading(baseEdges: seq<RunEdge>, headEdges: seq<RunEdge>) returns (r: Reading)
    ensures var base, head := Collected(baseEdges), Collected(headEdges);
            && (r.ComplexesDoNotMatch? <==> base.Keys != head.Keys)
            && (r.NoResidualChange? <==> base == head)
            && (r.NoResidualChange? || r.DifferenceInB1? <==> SameClass(base, head))
            && (base.Keys == head.Keys ==>
                  && (r.DifferenceInB1? <==> base != head && IsBoundary(Delta(base, head)))
                  && (r.DifferenceInB1? ==> Bounds(Delta(base, head), r.primitive))
                  && (r.DifferenceInB1? || r.DifferenceNotInB1? ==> r.support == DeltaSupport(Delta(base, head)))
                  && (r.DifferenceInB1? || r.DifferenceNotInB1? ==>
                        forall x :: x in r.support <==> exists k :: k in base && k.0 == x && base[k] != head[k]))
  {
    hide Bounds, DeltaSupport, Delta, IsBoundary, Collected, IsSystem, Endpoints, AllHold;
    var base := Collect(baseEdges);
    var head := Collect(headEdges);
    if base.Keys != head.Keys { return ComplexesDoNotMatch; }
    var d := Delta(base, head);
    var charts := Enumerate(Endpoints(baseEdges));
    var keys := Enumerate(d.Keys);
    ChartsCovered(baseEdges, d);
    NoSupport(base, head);
    forall x ensures x in DeltaSupport(d) <==> exists k :: k in base && k.0 == x && base[k] != head[k] {
      SupportMeans(base, head, x);
    }
    var rows, support := BuildRows(charts, keys, d);
    if support == {} { return NoResidualChange; }
    SystemIsRectangular(rows, charts, keys, d);
    var solution := SolveF2(rows, |charts|);
    if solution.None? {
      NoSolution(rows, charts, keys, d);
      return DifferenceNotInB1(support);
    }
    SystemMeansBounds(rows, charts, keys, d, solution.value);
    BoundsIsBoundary(d, Ones(charts, solution.value));
    return DifferenceInB1(support, Ones(charts, solution.value));
  }

  lemma SystemIsRectangular(rows: seq<Bits>, charts: seq<Name>, keys: seq<Key>, d: Residual)
    requires IsSystem(rows, charts, keys, d)
    ensures Rectangular(rows, |charts| + 1)
  {
  }

  lemma BoundsIsBoundary(d: Residual, h: set<Name>)
    requires Bounds(d, h)
    ensures IsBoundary(d)
  {
  }

  // ---------- The reading is an equivalence ----------

  /** The reading is "no change" or "difference in B1". */
  ghost predicate SameClass(base: Residual, head: Residual) {
    base.Keys == head.Keys && (base == head || IsBoundary(Delta(base, head)))
  }

  lemma UnchangedBounds(r: Residual)
    ensures Bounds(Delta(r, r), {})
  {
  }

  lemma SameClassReflexive(r: Residual)
    ensures SameClass(r, r) && IsBoundary(Delta(r, r))
  {
    UnchangedBounds(r);
  }

  lemma SameClassSymmetric(a: Residual, b: Residual)
    ensures SameClass(a, b) <==> SameClass(b, a)
  {
    if a.Keys == b.Keys { assert Delta(a, b) == Delta(b, a); }
  }

  /** Primitives of two residuals add to a primitive of their difference. */
  lemma BoundsXor(a: Residual, b: Residual, h: set<Name>, g: set<Name>)
    requires a.Keys == b.Keys && Bounds(a, h) && Bounds(b, g)
    ensures Bounds(Delta(a, b), (h - g) + (g - h))
  {
  }

  lemma DeltaOfDeltas(a: Residual, b: Residual, c: Residual)
    requires a.Keys == b.Keys == c.Keys
    ensures Delta(Delta(a, b), Delta(b, c)) == Delta(a, c)
    ensures Delta(a, Delta(a, b)) == b
  {
  }

  lemma SameClassHasPrimitive(a: Residual, b: Residual) returns (h: set<Name>)
    requires SameClass(a, b)
    ensures Bounds(Delta(a, b), h)
  {
    UnchangedBounds(a);
    h :| Bounds(Delta(a, b), h);
  }

  lemma SameClassTransitive(a: Residual, b: Residual, c: Residual)
    requires SameClass(a, b) && SameClass(b, c)
    ensures SameClass(a, c)
  {
    var h := SameClassHasPrimitive(a, b);
    var g := SameClassHasPrimitive(b, c);
    BoundsXor(Delta(a, b), Delta(b, c), h, g);
    DeltaOfDeltas(a, b, c);
  }

  /** Knowing the base run is in B1, the reading is exactly the head run's own verdict. */
  lemma HeadVerdictFromReading(base: Residual, head: Residual)
    requires base.Keys == head.Keys && IsBoundary(base)
    ensures IsBoundary(head) <==> SameClass(base, head)
  {
    var h :| Bounds(base, h);
    if IsBoundary(head) {
      var g :| Bounds(head, g);
      BoundsXor(base, head, h, g);
    }
    if SameClass(base, head) {
      var g := SameClassHasPrimitive(base, head);
      BoundsXor(base, Delta(base, head), h, g);
      DeltaOfDeltas(base, head, head);
    }
  }

  // ---------- Each run's own complex ----------

  /** The residual record of a run: one edge per overlap, one where it carries v. */
  function Packet(c: Complex, supports: Supports, v: Name): (edges: seq<RunEdge>)
    ensures |edges| == |c.overlaps|
    ensures forall i :: 0 <= i < |edges| ==>
      edges[i] == RunEdge(c.overlaps[i].id, c.overlaps[i].left, c.overlaps[i].right, Carries(supports, c.overlaps[i].id, v))
  {
    seq(|c.overlaps|, i requires 0 <= i < |c.overlaps| =>
      RunEdge(c.overlaps[i].id, c.overlaps[i].left, c.overlaps[i].right, Carries(supports, c.overlaps[i].id, v)))
  }

  /** Equal keys carry equal values, so no edge is lost when they are collected. */
  lemma {:induction false} CollectedAt(edges: seq<RunEdge>, i: nat)
    requires i < |edges|
    requires forall j, k :: 0 <= j < |edges| && 0 <= k < |edges| && KeyOf(edges[j]) == KeyOf(edges[k]) ==> edges[j].value == edges[k].value
    ensures KeyOf(edges[i]) in Collected(edges) && Collected(edges)[KeyOf(edges[i])] == edges[i].value
  {
    var n := |edges| - 1;
    if KeyOf(edges[i]) != KeyOf(edges[n]) { CollectedAt(edges[..n], i); }
  }

  lemma PacketAt(c: Complex, supports: Supports, v: Name, e: Overlap)
    requires e in c.overlaps
    ensures var r := Collected(Packet(c, supports, v)); var k := (e.id, e.left, e.right);
            k in r && r[k] == Carries(supports, e.id, v)
  {
    var i :| 0 <= i < |c.overlaps| && c.overlaps[i] == e;
    CollectedAt(Packet(c, supports, v), i);
  }

  lemma PacketKey(c: Complex, supports: Supports, v: Name, k: Key)
    requires k in Collected(Packet(c, supports, v))
    ensures exists e :: e in c.overlaps && k == (e.id, e.left, e.right)
  {
    var edge :| edge in Packet(c, supports, v) && KeyOf(edge) == k;
    var i :| 0 <= i < |c.overlaps| && Packet(c, supports, v)[i] == edge;
    assert c.overlaps[i] in c.overlaps;
  }

  /** The record is a boundary iff the run's residual is in B1 of its whole complex,
      isolated charts included. */
  lemma PacketBoundaryIsInB1(c: Complex, supports: Supports, v: Name)
    requires forall id, w :: Carries(supports, id, w) ==> w == v
    ensures IsBoundary(Collected(Packet(c, supports, v))) <==> InB1(c, supports)
  {
    var r := Collected(Packet(c, supports, v));
    if h :| Bounds(r, h) {
      var p: Cochain0 := set a | a in h :: (a, v);
      forall e, w | e in c.overlaps ensures Coboundary(p, e, w) == Carries(supports, e.id, w) {
        PacketAt(c, supports, v, e);
      }
      assert IsPrimitive(c, supports, p);
    }
    if p :| IsPrimitive(c, supports, p) {
      var h := set x: (Name, Name) | x in p && x.1 == v :: x.0;
      forall k | k in r ensures r[k] == ((k.1 in h) != (k.2 in h)) {
        PacketKey(c, supports, v, k);
        var e :| e in c.overlaps && k == (e.id, e.left, e.right);
        PacketAt(c, supports, v, e);
        assert Coboundary(p, e, v) == Carries(supports, e.id, v);
        assert forall a :: a in h <==> (a, v) in p;
      }
      assert Bounds(r, h);
    }
  }

  /** For two runs over one complex the support is exactly the overlaps on which their
      residuals differ. */
  lemma SupportIsDifferingOverlaps(c: Complex, base: Supports, head: Supports, v: Name, x: Name)
    ensures Collected(Packet(c, base, v)).Keys == Collected(Packet(c, head, v)).Keys
    ensures x in DeltaSupport(Delta(Collected(Packet(c, base, v)), Collected(Packet(c, head, v)))) <==>
      exists e :: e in c.overlaps && e.id == x && Carries(base, e.id, v) != Carries(head, e.id, v)
  {
    hide Collected, Packet, Carries, DeltaSupport, Delta;
    var p, q := Collected(Packet(c, base, v)), Collected(Packet(c, head, v));
    PacketKeys(c, base, head, v);
    SupportMeans(p, q, x);
    if k :| k in p && k.0 == x && p[k] != q[k] {
      PacketKey(c, base, v, k);
      var e :| e in c.overlaps && k == (e.id, e.left, e.right);
      PacketAt(c, base, v, e);
      PacketAt(c, head, v, e);
    }
    if e :| e in c.overlaps && e.id == x && Carries(base, e.id, v) != Carries(head, e.id, v) {
      PacketAt(c, base, v, e);
      PacketAt(c, head, v, e);
      assert (e.id, e.left, e.right) in p && p[(e.id, e.left, e.right)] != q[(e.id, e.left, e.right)];
    }
  }

  lemma PacketKeys(c: Complex, base: Supports, head: Supports, v: Name)
    ensures Collected(Packet(c, base, v)).Keys == Collected(Packet(c, head, v)).Keys
  {
    forall k ensures k in Collected(Packet(c, base, v)) <==> k in Collected(Packet(c, head, v)) {
      if k in Collected(Packet(c, base, v)) {
        PacketKey(c, base, v, k);
        var e :| e in c.overlaps && k == (e.id, e.left, e.right);
        PacketAt(c, head, v, e);
      }
      if k in Collected(Packet(c, head, v)) {
        PacketKey(c, head, v, k);
        var e :| e in c.overlaps && k == (e.id, e.left, e.right);
        PacketAt(c, base, v, e);
      }
    }
  }

  /** Two runs over one complex, the base run in B1: the head run is in B1 iff comparing
      their records reads "no change" or "difference in B1". */
  lemma ReadingTransportsB1(c: Complex, base: Supports, head: Supports, v: Name)
    requires forall id, w :: Carries(base, id, w) ==> w == v
    requires forall id, w :: Carries(head, id, w) ==> w == v
    requires InB1(c, base)
    ensures InB1(c, head) <==> SameClass(Collected(Packet(c, base, v)), Collected(Packet(c, head, v)))
  {
    PacketKeys(c, base, head, v);
    PacketBoundaryIsInB1(c, base, v);
    PacketBoundaryIsInB1(c, head, v);
    HeadVerdictFromReading(Collected(Packet(c, base, v)), Collected(Packet(c, head, v)));
  }
}
