/**
 The canonical observation of g_local_v1.py: the least payload over an orbit of relabelled,
 clipped records, and why it depends on the orbit alone.
 */
module Observation {
  import opened Sequences
  import opened Names
  import opened Relabelling

  // ---------- Records ----------

  datatype Side = CoarseSide | FineSide

  datatype Label = Label(side: Side, cellType: Name, mapped: bool, support: set<int>, piImage: set<int>, flags: set<Name>)

  datatype Descriptor = Descriptor(neighbor: Label, relations: seq<Name>, stubs: map<Name, nat>)

  datatype Ball = Ball(root: Label, neighbors: Histogram<Descriptor>)

  /** A scope record; the clauses that hold stand for the table of conditions. */
  datatype Record = Record(holding: set<Name>, packetKinds: set<Name>, balls: Histogram<Ball>)

  // ---------- Relabelling ----------

  function Moved(s: set<int>, p: seq<int>): set<int> { set t | t in s :: Apply(p, t) }

  function RelabelLabel(l: Label, r: Relabel): Label {
    l.(support := Moved(l.support, if l.side == CoarseSide then r.coarse else r.fine), piImage := Moved(l.piImage, r.coarse))
  }

  function RelabelDescriptor(d: Descriptor, r: Relabel): Descriptor {
    d.(neighbor := RelabelLabel(d.neighbor, r))
  }

  function OnDescriptors(r: Relabel): (f: Descriptor -> Descriptor)
    ensures forall d :: f(d) == RelabelDescriptor(d, r)
  {
    (d: Descriptor) => RelabelDescriptor(d, r)
  }

  function RelabelBall(b: Ball, r: Relabel): Ball
    requires IsRelabel(r)
  {
    DescriptorsInjective(r);
    Ball(RelabelLabel(b.root, r), Renamed(b.neighbors, OnDescriptors(r)))
  }

  function OnBalls(r: Relabel): (f: Ball -> Ball)
    requires IsRelabel(r)
    ensures forall b :: f(b) == RelabelBall(b, r)
  {
    (b: Ball) => RelabelBall(b, r)
  }

  function RelabelRecord(x: Record, r: Relabel): Record
    requires IsRelabel(r)
  {
    BallsInjective(r);
    x.(balls := Renamed(x.balls, OnBalls(r)))
  }

  function OnRecords(r: Relabel): (f: Record -> Record)
    requires IsRelabel(r)
    ensures forall x :: f(x) == RelabelRecord(x, r)
  {
    (x: Record) => RelabelRecord(x, r)
  }

  /** Rows are clipped at both levels. */
  predicate IsClippedRecord(x: Record) {
    IsClipped(x.balls) && forall b :: b in x.balls ==> IsClipped(b.neighbors)
  }

  /** Expanding and clipping the descriptor rows again is the renaming of the ball. */
  method RelabelBallRows(b: Ball, r: Relabel) returns (b': Ball)
    requires IsRelabel(r) && IsClipped(b.neighbors)
    ensures b' == RelabelBall(b, r) && IsClipped(b'.neighbors)
  {
    DescriptorsInjective(r);
    var rows := RenameRows(b.neighbors, OnDescriptors(r));
    b' := Ball(RelabelLabel(b.root, r), rows);
  }

  /** The loop over the balls of a record, each relabelled row by row, expanded to its count
      and clipped again. */
  method RelabelScopeRecord(x: Record, r: Relabel) returns (x': Record)
    requires IsRelabel(r) && IsClippedRecord(x)
    ensures x' == RelabelRecord(x, r) && IsClippedRecord(x')
  {
    hide RelabelBall, IsRelabel, Injective, Renamed;
    BallsInjective(r);
    var f := OnBalls(r);
    var keys := Enumerate(x.balls.Keys);
    var payloads: seq<Ball> := [];
    for i := 0 to |keys|
      invariant forall j :: 0 <= j < i ==> multiset(payloads)[f(keys[j])] == x.balls[keys[j]]
      invariant forall y :: y in payloads ==> IsClipped(y.neighbors)
      invariant forall y :: y in payloads ==> exists j :: 0 <= j < i && f(keys[j]) == y
    {
      assert keys[i] in x.balls;
      var ball := RelabelBallRows(keys[i], r);
      NewPayload(keys, i, f, payloads);
      CountsAfter(payloads, ball, x.balls[keys[i]]);
      payloads := payloads + Repeat(ball, x.balls[keys[i]]);
    }
    ClippedRowsAreClipped(payloads);
    RowsAreRenamed(x.balls, f, keys, payloads);
    x' := x.(balls := ClippedRows(payloads));
  }

  lemma NewPayload(keys: seq<Ball>, i: nat, f: Ball -> Ball, payloads: seq<Ball>)
    requires Distinct(keys) && i < |keys| && Injective(f)
    requires forall y :: y in payloads ==> exists j :: 0 <= j < i && f(keys[j]) == y
    ensures f(keys[i]) !in payloads && forall j :: 0 <= j < i ==> f(keys[j]) != f(keys[i])
  {
  }

  lemma CountsAfter(payloads: seq<Ball>, ball: Ball, n: nat)
    requires ball !in payloads
    ensures multiset(payloads + Repeat(ball, n))[ball] == n
    ensures forall y :: y != ball ==> multiset(payloads + Repeat(ball, n))[y] == multiset(payloads)[y]
  {
    RepeatCounts(ball, n);
    assert multiset(payloads + Repeat(ball, n)) == multiset(payloads) + multiset(Repeat(ball, n));
  }

  // ---------- Relabelling is a group action ----------

  predicate SameSizes(r: Relabel, s: Relabel) {
    IsRelabel(r) && IsRelabel(s) && |r.coarse| == |s.coarse| && |r.fine| == |s.fine|
  }

  lemma MovedTwice(s: set<int>, p: seq<int>, q: seq<int>, c: seq<int>)
    requires forall t :: Apply(c, t) == Apply(q, Apply(p, t))
    ensures Moved(Moved(s, p), q) == Moved(s, c)
  {
    forall t | t in Moved(s, c) ensures t in Moved(Moved(s, p), q) {
      var u :| u in s && Apply(c, u) == t;
      assert Apply(p, u) in Moved(s, p);
    }
    forall t | t in Moved(Moved(s, p), q) ensures t in Moved(s, c) {
      var v :| v in Moved(s, p) && Apply(q, v) == t;
      var u :| u in s && Apply(p, u) == v;
      assert Apply(c, u) == t;
    }
  }

  lemma MovedBack(s: set<int>, p: seq<int>)
    requires IsPermutation(p)
    ensures Moved(Moved(s, p), Inverse(p)) == s
  {
    var id := Identity(0);
    MovedTwice(s, p, Inverse(p), id);
    forall t ensures t in Moved(s, id) <==> t in s { assert Apply(id, t) == t; }
  }

  lemma LabelCompose(l: Label, r: Relabel, s: Relabel)
    requires SameSizes(r, s)
    ensures RelabelLabel(RelabelLabel(l, s), r) == RelabelLabel(l, ComposeRelabels(r, s))
  {
    MovedTwice(l.support, s.coarse, r.coarse, Compose(r.coarse, s.coarse));
    MovedTwice(l.support, s.fine, r.fine, Compose(r.fine, s.fine));
    MovedTwice(l.piImage, s.coarse, r.coarse, Compose(r.coarse, s.coarse));
  }

  lemma LabelBack(l: Label, r: Relabel)
    requires IsRelabel(r)
    ensures RelabelLabel(RelabelLabel(l, r), InverseRelabel(r)) == l
  {
    MovedBack(l.support, r.coarse);
    MovedBack(l.support, r.fine);
    MovedBack(l.piImage, r.coarse);
  }

  // ---------- What preserving pi is for ----------

  /** A label as the observation writes it: the image of its support under pi. */
  predicate IsConsistent(pi: seq<int>, coarse: nat, l: Label) {
    if l.side == CoarseSide then l.support <= Range(coarse) && l.piImage == l.support
    else l.support <= Range(|pi|) && l.piImage == set t | t in l.support :: Image(pi, t)
  }

  function Image(pi: seq<int>, t: int): int { if 0 <= t < |pi| then pi[t] else t }

  lemma ConsistentStays(pi: seq<int>, coarse: nat, l: Label, r: Relabel)
    requires Preserves(pi, r) && |r.coarse| == coarse && IsConsistent(pi, coarse, l)
    ensures IsConsistent(pi, coarse, RelabelLabel(l, r))
  {
    if l.side == FineSide {
      var support := Moved(l.support, r.fine);
      forall t | t in Range(|pi|) ensures Image(pi, Apply(r.fine, t)) == Apply(r.coarse, Image(pi, t)) {}
      forall u ensures u in Moved(l.piImage, r.coarse) <==> u in set t | t in support :: Image(pi, t) {
        if u in Moved(l.piImage, r.coarse) {
          var w :| w in l.piImage && Apply(r.coarse, w) == u;
          var t :| t in l.support && Image(pi, t) == w;
          assert Apply(r.fine, t) in support && Image(pi, Apply(r.fine, t)) == u;
        }
        if v :| v in support && Image(pi, v) == u {
          var t :| t in l.support && Apply(r.fine, t) == v;
          assert Image(pi, t) in l.piImage;
        }
      }
    }
  }

  /** A pair of permutations respects pi exactly when it keeps every label consistent. */
  lemma PreservesIffConsistent(pi: seq<int>, r: Relabel)
    requires IsRelabel(r) && |r.fine| == |pi| && PiInRange(pi, |r.coarse|)
    ensures Preserves(pi, r) <==>
      forall l :: IsConsistent(pi, |r.coarse|, l) ==> IsConsistent(pi, |r.coarse|, RelabelLabel(l, r))
  {
    var m := |r.coarse|;
    if Preserves(pi, r) {
      forall l | IsConsistent(pi, m, l) ensures IsConsistent(pi, m, RelabelLabel(l, r)) { ConsistentStays(pi, m, l, r); }
    }
    if forall l :: IsConsistent(pi, m, l) ==> IsConsistent(pi, m, RelabelLabel(l, r)) {
      forall t | 0 <= t < |pi| ensures r.coarse[pi[t]] == pi[r.fine[t]] { SingletonLabel(pi, r, t); }
    }
  }

  lemma SingletonLabel(pi: seq<int>, r: Relabel, t: int)
    requires IsRelabel(r) && |r.fine| == |pi| && PiInRange(pi, |r.coarse|) && 0 <= t < |pi|
    requires forall l :: IsConsistent(pi, |r.coarse|, l) ==> IsConsistent(pi, |r.coarse|, RelabelLabel(l, r))
    ensures r.coarse[pi[t]] == pi[r.fine[t]]
  {
    var l := Label(FineSide, "chart", true, {t}, {pi[t]}, {});
    assert IsConsistent(pi, |r.coarse|, l);
    var moved := RelabelLabel(l, r);
    assert IsConsistent(pi, |r.coarse|, moved);
    assert moved.support == {r.fine[t]} && moved.piImage == {r.coarse[pi[t]]};
    assert pi[r.fine[t]] in set u | u in moved.support :: Image(pi, u);
  }

  // ---------- Relabelling can be undone ----------

  /** Relabelling is injective on descriptors, balls and records: it can be undone. */
  lemma DescriptorsInjective(r: Relabel)
    requires IsRelabel(r)
    ensures Injective(OnDescriptors(r))
  {
    var f := OnDescriptors(r);
    forall d, e | f(d) == f(e) ensures d == e {
      LabelBack(d.neighbor, r);
      LabelBack(e.neighbor, r);
    }
  }

  lemma DescriptorBack(d: Descriptor, r: Relabel)
    requires IsRelabel(r)
    ensures RelabelDescriptor(RelabelDescriptor(d, r), InverseRelabel(r)) == d
  {
    LabelBack(d.neighbor, r);
  }

  lemma BallBack(b: Ball, r: Relabel)
    requires IsRelabel(r)
    ensures RelabelBall(RelabelBall(b, r), InverseRelabel(r)) == b
  {
    var s, id := InverseRelabel(r), (d: Descriptor) => d;
    DescriptorsInjective(r);
    DescriptorsInjective(s);
    LabelBack(b.root, r);
    forall d ensures id(d) == OnDescriptors(s)(OnDescriptors(r)(d)) { DescriptorBack(d, r); }
    RenamedTwice(b.neighbors, OnDescriptors(r), OnDescriptors(s), id);
    RenamedByIdentity(b.neighbors, id);
  }

  lemma BallsInjective(r: Relabel)
    requires IsRelabel(r)
    ensures Injective(OnBalls(r))
  {
    var f := OnBalls(r);
    forall b, c | f(b) == f(c) ensures b == c {
      BallBack(b, r);
      BallBack(c, r);
    }
  }

  lemma RecordBack(x: Record, r: Relabel)
    requires IsRelabel(r)
    ensures RelabelRecord(RelabelRecord(x, r), InverseRelabel(r)) == x
  {
    var s, id := InverseRelabel(r), (b: Ball) => b;
    BallsInjective(r);
    BallsInjective(s);
    forall b ensures id(b) == OnBalls(s)(OnBalls(r)(b)) { BallBack(b, r); }
    RenamedTwice(x.balls, OnBalls(r), OnBalls(s), id);
    RenamedByIdentity(x.balls, id);
  }

  lemma RecordsInjective(r: Relabel)
    requires IsRelabel(r)
    ensures Injective(OnRecords(r))
  {
    var f := OnRecords(r);
    forall x, y | f(x) == f(y) ensures x == y {
      RecordBack(x, r);
      RecordBack(y, r);
    }
  }

  lemma BallCompose(b: Ball, r: Relabel, s: Relabel)
    requires SameSizes(r, s)
    ensures RelabelBall(RelabelBall(b, s), r) == RelabelBall(b, ComposeRelabels(r, s))
  {
    var c := ComposeRelabels(r, s);
    LabelCompose(b.root, r, s);
    DescriptorsInjective(r);
    DescriptorsInjective(s);
    DescriptorsInjective(c);
    forall d ensures OnDescriptors(c)(d) == OnDescriptors(r)(OnDescriptors(s)(d)) { LabelCompose(d.neighbor, r, s); }
    RenamedTwice(b.neighbors, OnDescriptors(s), OnDescriptors(r), OnDescriptors(c));
  }

  /** Relabelling by s and then by r is relabelling by their composition. */
  lemma RecordCompose(x: Record, r: Relabel, s: Relabel)
    requires SameSizes(r, s)
    ensures RelabelRecord(RelabelRecord(x, s), r) == RelabelRecord(x, ComposeRelabels(r, s))
  {
    var c := ComposeRelabels(r, s);
    BallsInjective(r);
    BallsInjective(s);
    BallsInjective(c);
    forall b ensures OnBalls(c)(b) == OnBalls(r)(OnBalls(s)(b)) { BallCompose(b, r, s); }
    RenamedTwice(x.balls, OnBalls(s), OnBalls(r), OnBalls(c));
  }

  // ---------- The observation ----------

  datatype Candidate = Candidate(aggregate: seq<bool>, whole: Record, aRecords: Histogram<Record>)

  predicate HoldsInAll(clause: Name, records: seq<Record>) {
    forall a :: a in records ==> clause in a.holding
  }

  function Aggregate(whole: Record, aRecords: seq<Record>): seq<bool> {
    ["C0*" in whole.holding,
     HoldsInAll("C1*", aRecords), HoldsInAll("C2*", aRecords), HoldsInAll("C3*", aRecords), HoldsInAll("C4*", aRecords),
     "C5*" in whole.holding, "C6*" in whole.holding]
  }

  function CandidateOf(whole: Record, aRecords: seq<Record>, r: Relabel): Candidate
    requires IsRelabel(r)
  {
    Candidate(Aggregate(whole, aRecords), RelabelRecord(whole, r), ClippedRows(Mapped(aRecords, OnRecords(r))))
  }

  // ---------- What a candidate holds ----------

  /** The clause stands in every record listed. */
  lemma AggregateMeans(whole: Record, aRecords: seq<Record>, r: Relabel)
    requires IsRelabel(r)
    ensures var v := CandidateOf(whole, aRecords, r).aggregate;
            && |v| == 7
            && (v[0] <==> "C0*" in whole.holding) && (v[5] <==> "C5*" in whole.holding) && (v[6] <==> "C6*" in whole.holding)
            && (v[1] <==> forall i :: 0 <= i < |aRecords| ==> "C1*" in aRecords[i].holding)
            && (v[2] <==> forall i :: 0 <= i < |aRecords| ==> "C2*" in aRecords[i].holding)
            && (v[3] <==> forall i :: 0 <= i < |aRecords| ==> "C3*" in aRecords[i].holding)
            && (v[4] <==> forall i :: 0 <= i < |aRecords| ==> "C4*" in aRecords[i].holding)
  {
    forall clause ensures HoldsInAll(clause, aRecords) <==> forall i :: 0 <= i < |aRecords| ==> clause in aRecords[i].holding {
      ClauseMeans(clause, aRecords);
    }
  }

  lemma ClauseMeans(clause: Name, aRecords: seq<Record>)
    ensures HoldsInAll(clause, aRecords) <==> forall i :: 0 <= i < |aRecords| ==> clause in aRecords[i].holding
  {
    if HoldsInAll(clause, aRecords) {
      forall i | 0 <= i < |aRecords| ensures clause in aRecords[i].holding { assert aRecords[i] in aRecords; }
    }
  }

  /** Each target of a label moved by the permutation of its side; everything else kept. */
  ghost predicate IsMovedLabel(l: Label, r: Relabel, m: Label) {
    && m.side == l.side && m.cellType == l.cellType && m.mapped == l.mapped && m.flags == l.flags
    && (forall u :: u in m.support <==>
          exists t :: t in l.support && u == (if l.side == CoarseSide then Apply(r.coarse, t) else Apply(r.fine, t)))
    && (forall u :: u in m.piImage <==> exists t :: t in l.piImage && u == Apply(r.coarse, t))
  }

  ghost predicate IsMovedDescriptor(d: Descriptor, r: Relabel, m: Descriptor) {
    IsMovedLabel(d.neighbor, r, m.neighbor) && m.relations == d.relations && m.stubs == d.stubs
  }

  ghost function MovesDescriptor(r: Relabel): (Descriptor, Descriptor) -> bool {
    (d: Descriptor, e: Descriptor) => IsMovedDescriptor(d, r, e)
  }

  /** The root moved, and every descriptor row moved with its count, none lost or added. */
  ghost predicate IsMovedBall(b: Ball, r: Relabel, m: Ball) {
    IsMovedLabel(b.root, r, m.root) && RowsMove(b.neighbors, m.neighbors, MovesDescriptor(r))
  }

  ghost function MovesBall(r: Relabel): (Ball, Ball) -> bool {
    (b: Ball, m: Ball) => IsMovedBall(b, r, m)
  }

  /** Every ball row moved with its count, the rest kept. */
  ghost predicate IsMovedRecord(x: Record, r: Relabel, m: Record) {
    m.holding == x.holding && m.packetKinds == x.packetKinds && RowsMove(x.balls, m.balls, MovesBall(r))
  }

  lemma LabelMoves(l: Label, r: Relabel)
    ensures IsMovedLabel(l, r, RelabelLabel(l, r))
  {
  }

  lemma BallMoves(b: Ball, r: Relabel)
    requires IsRelabel(r)
    ensures IsMovedBall(b, r, RelabelBall(b, r))
  {
    DescriptorsInjective(r);
    LabelMoves(b.root, r);
    forall d ensures MovesDescriptor(r)(d, OnDescriptors(r)(d)) { LabelMoves(d.neighbor, r); }
    RenamedRowsMove(b.neighbors, OnDescriptors(r), MovesDescriptor(r));
  }

  /** What relabelling a record does, label by label and row by row. */
  lemma RecordMoves(x: Record, r: Relabel)
    requires IsRelabel(r)
    ensures IsMovedRecord(x, r, RelabelRecord(x, r))
  {
    BallsInjective(r);
    forall b ensures MovesBall(r)(b, OnBalls(r)(b)) { BallMoves(b, r); }
    hide IsMovedBall, RelabelBall;
    RenamedRowsMove(x.balls, OnBalls(r), MovesBall(r));
  }

  /** The rest of a candidate: the moved whole record, and the moved A-records, each counted
      once when one A-record moves to it and twice when more do. */
  lemma CandidateMeans(whole: Record, aRecords: seq<Record>, r: Relabel, x: Record)
    requires IsRelabel(r)
    ensures var v := CandidateOf(whole, aRecords, r);
            var n := multiset(aRecords)[x];
            && IsMovedRecord(whole, r, v.whole)
            && IsMovedRecord(x, r, RelabelRecord(x, r))
            && (RelabelRecord(x, r) in v.aRecords <==> n >= 1)
            && (n == 1 ==> v.aRecords[RelabelRecord(x, r)] == 1)
            && (n >= 2 ==> v.aRecords[RelabelRecord(x, r)] == 2)
    ensures forall y :: y in CandidateOf(whole, aRecords, r).aRecords ==> exists i :: 0 <= i < |aRecords| && RelabelRecord(aRecords[i], r) == y
  {
    RecordMoves(whole, r);
    RecordMoves(x, r);
    RecordsInjective(r);
    var moved := Mapped(aRecords, OnRecords(r));
    MappedCounts(aRecords, OnRecords(r), x);
    ClippedRowsCount(moved, RelabelRecord(x, r));
    hide RelabelRecord, IsMovedRecord, Injective;
    forall y | y in ClippedRows(moved) ensures exists i :: 0 <= i < |aRecords| && RelabelRecord(aRecords[i], r) == y {
      var i :| 0 <= i < |moved| && moved[i] == y;
      assert moved[i] == RelabelRecord(aRecords[i], r);
    }
  }

  /** The canonical JSON text of a candidate. */
  type Encoder = Candidate -> Name

  /** One payload for each relabel that respects pi. */
  ghost function Payloads(pi: seq<int>, coarse: nat, whole: Record, aRecords: seq<Record>, encode: Encoder): iset<Name>
    requires PiInRange(pi, coarse)
  {
    iset r | r in PreservingRelabels(pi, coarse) && IsRelabel(r) :: encode(CandidateOf(whole, aRecords, r))
  }

  ghost predicate IsLeast(p: Name, payloads: iset<Name>) {
    p in payloads && forall q :: q in payloads ==> AtMost(p, q)
  }

  lemma LeastUnique(p: Name, q: Name, payloads: iset<Name>)
    requires IsLeast(p, payloads) && IsLeast(q, payloads)
    ensures p == q
  {
    AtMostTotal(p, q);
  }

  lemma PayloadsHas(pi: seq<int>, coarse: nat, whole: Record, aRecords: seq<Record>, encode: Encoder, p: Name)
    requires PiInRange(pi, coarse)
    ensures p in Payloads(pi, coarse, whole, aRecords, encode) <==>
      exists r :: r in PreservingRelabels(pi, coarse) && IsRelabel(r) && p == encode(CandidateOf(whole, aRecords, r))
  {
  }

  method BuildPayload(whole: Record, aRecords: seq<Record>, r: Relabel, encode: Encoder) returns (payload: Name)
    requires IsRelabel(r)
    requires IsClippedRecord(whole) && forall a :: a in aRecords ==> IsClippedRecord(a)
    ensures payload == encode(CandidateOf(whole, aRecords, r))
  {
    hide RelabelRecord, IsRelabel, Aggregate, ClippedRows, IsClippedRecord;
    var relabelled := RelabelScopeRecord(whole, r);
    var records: seq<Record> := [];
    for i := 0 to |aRecords|
      invariant |records| == i && forall j :: 0 <= j < i ==> records[j] == RelabelRecord(aRecords[j], r)
    {
      assert aRecords[i] in aRecords;
      var record := RelabelScopeRecord(aRecords[i], r);
      records := records + [record];
    }
    assert records == Mapped(aRecords, OnRecords(r));
    payload := encode(Candidate(Aggregate(whole, aRecords), relabelled, ClippedRows(records)));
  }

  method BuildPayloads(pi: seq<int>, coarse: nat, whole: Record, aRecords: seq<Record>, encode: Encoder) returns (list: seq<Name>)
    requires PiInRange(pi, coarse)
    requires IsClippedRecord(whole) && forall a :: a in aRecords ==> IsClippedRecord(a)
    ensures list != [] && forall p :: p in list <==> p in Payloads(pi, coarse, whole, aRecords, encode)
  {
    hide *;
    var relabels := Enumerate(PreservingRelabels(pi, coarse));
    forall r | r in relabels ensures IsRelabel(r) { PreservingIsRelabel(pi, coarse, r); }
    PreservingRelabelsAre(pi, coarse, Relabel([], []));
    list := [];
    for i := 0 to |relabels|
      invariant |list| == i && forall j :: 0 <= j < i ==> relabels[j] in relabels && list[j] == encode(CandidateOf(whole, aRecords, relabels[j]))
    {
      assert relabels[i] in relabels;
      var payload := BuildPayload(whole, aRecords, relabels[i], encode);
      list := list + [payload];
    }
    forall p ensures p in list <==> p in Payloads(pi, coarse, whole, aRecords, encode) {
      PayloadListed(pi, coarse, whole, aRecords, encode, relabels, list, p);
    }
  }

  lemma PreservingIsRelabel(pi: seq<int>, coarse: nat, r: Relabel)
    requires PiInRange(pi, coarse) && r in PreservingRelabels(pi, coarse)
    ensures IsRelabel(r) && |r.coarse| == coarse && |r.fine| == |pi|
  {
    PreservingRelabelsAre(pi, coarse, r);
  }

  lemma PayloadListed(pi: seq<int>, coarse: nat, whole: Record, aRecords: seq<Record>, encode: Encoder,
                      relabels: seq<Relabel>, list: seq<Name>, p: Name)
    requires PiInRange(pi, coarse) && (forall r :: r in relabels <==> r in PreservingRelabels(pi, coarse))
    requires |list| == |relabels|
    requires forall j :: 0 <= j < |list| ==> IsRelabel(relabels[j]) && list[j] == encode(CandidateOf(whole, aRecords, relabels[j]))
    ensures p in list <==> p in Payloads(pi, coarse, whole, aRecords, encode)
  {
    hide *;
    if p in list {
      var j :| 0 <= j < |list| && list[j] == p;
      assert relabels[j] in relabels;
      PayloadIn(pi, coarse, whole, aRecords, encode, relabels[j]);
    }
    if p in Payloads(pi, coarse, whole, aRecords, encode) {
      var r := PayloadFrom(pi, coarse, whole, aRecords, encode, p);
      assert r in relabels;
      var j :| 0 <= j < |relabels| && relabels[j] == r;
      assert list[j] == p;
    }
  }

  method LeastOf(list: seq<Name>) returns (least: Name)
    requires list != []
    ensures least in list && forall q :: q in list ==> AtMost(least, q)
  {
    least := list[0];
    AtMostTotal(least, least);
    for i := 1 to |list|
      invariant least in list
      invariant forall j :: 0 <= j < i ==> AtMost(least, list[j])
    {
      AtMostTotal(least, list[i]);
      if !AtMost(least, list[i]) {
        forall j | 0 <= j < i ensures AtMost(list[i], list[j]) { AtMostTransitive(list[i], least, list[j]); }
        AtMostTotal(list[i], list[i]);
        least := list[i];
      }
    }
  }

  /** The chosen payload is the least of the orbit; there is always a relabel to try. */
  method ObserveGLocal(pi: seq<int>, coarse: nat, whole: Record, aRecords: seq<Record>, encode: Encoder) returns (payload: Name)
    requires PiInRange(pi, coarse)
    requires IsClippedRecord(whole) && forall a :: a in aRecords ==> IsClippedRecord(a)
    ensures IsLeast(payload, Payloads(pi, coarse, whole, aRecords, encode))
  {
    hide Payloads, IsClippedRecord;
    var list := BuildPayloads(pi, coarse, whole, aRecords, encode);
    payload := LeastOf(list);
  }

  // ---------- Orbit invariance ----------

  lemma SameRows<T>(a: seq<T>, b: seq<T>)
    requires multiset(a) == multiset(b)
    ensures ClippedRows(a) == ClippedRows(b)
  {
    forall x ensures x in a <==> x in b { assert x in multiset(a) <==> x in multiset(b); }
  }

  lemma RowsCompose(aRecords: seq<Record>, moved: seq<Record>, r: Relabel, s: Relabel)
    requires SameSizes(r, s) && multiset(moved) == multiset(Mapped(aRecords, OnRecords(s)))
    ensures ClippedRows(Mapped(moved, OnRecords(r))) == ClippedRows(Mapped(aRecords, OnRecords(ComposeRelabels(r, s))))
  {
    var c := ComposeRelabels(r, s);
    RecordsInjective(r);
    RecordsInjective(s);
    RecordsInjective(c);
    RenameCommutesWithClip(moved, OnRecords(r));
    SameRows(moved, Mapped(aRecords, OnRecords(s)));
    RenameCommutesWithClip(aRecords, OnRecords(s));
    forall x ensures OnRecords(c)(x) == OnRecords(r)(OnRecords(s)(x)) { RecordCompose(x, r, s); }
    RenamedTwice(ClippedRows(aRecords), OnRecords(s), OnRecords(r), OnRecords(c));
    RenameCommutesWithClip(aRecords, OnRecords(c));
  }

  /** Conditions are not relabelled, so their aggregate stays. */
  lemma AggregateStays(whole: Record, aRecords: seq<Record>, moved: seq<Record>, s: Relabel)
    requires IsRelabel(s) && multiset(moved) == multiset(Mapped(aRecords, OnRecords(s)))
    ensures Aggregate(RelabelRecord(whole, s), moved) == Aggregate(whole, aRecords)
  {
    var image := Mapped(aRecords, OnRecords(s));
    forall x ensures x in moved <==> x in image { assert x in multiset(moved) <==> x in multiset(image); }
    forall clause: Name ensures HoldsInAll(clause, moved) <==> HoldsInAll(clause, aRecords) {
      forall i | 0 <= i < |aRecords| ensures image[i] in moved && image[i].holding == aRecords[i].holding {
        assert image[i] in image;
      }
      forall a | a in moved ensures exists i :: 0 <= i < |aRecords| && image[i] == a { assert a in image; }
    }
  }

  lemma CandidateCompose(whole: Record, aRecords: seq<Record>, moved: seq<Record>, r: Relabel, s: Relabel)
    requires SameSizes(r, s) && multiset(moved) == multiset(Mapped(aRecords, OnRecords(s)))
    ensures CandidateOf(RelabelRecord(whole, s), moved, r) == CandidateOf(whole, aRecords, ComposeRelabels(r, s))
  {
    AggregateStays(whole, aRecords, moved, s);
    RecordCompose(whole, r, s);
    RowsCompose(aRecords, moved, r, s);
  }

  /** Every relabel is another one followed after s. */
  lemma Factor(pi: seq<int>, coarse: nat, q: Relabel, s: Relabel) returns (r: Relabel)
    requires PiInRange(pi, coarse) && q in PreservingRelabels(pi, coarse) && s in PreservingRelabels(pi, coarse)
    ensures SameSizes(r, s) && r in PreservingRelabels(pi, coarse) && ComposeRelabels(r, s) == q
  {
    PreservingRelabelsAre(pi, coarse, q);
    PreservingRelabelsAre(pi, coarse, s);
    PreservingInverse(pi, s);
    var t := InverseRelabel(s);
    r := ComposeRelabels(q, t);
    PreservingCompose(pi, q, t);
    PreservingRelabelsAre(pi, coarse, r);
    CancelInverse(q.coarse, s.coarse);
    CancelInverse(q.fine, s.fine);
  }

  lemma CancelInverse(q: seq<int>, s: seq<int>)
    requires IsPermutation(q) && IsPermutation(s) && |q| == |s|
    ensures Compose(Compose(q, Inverse(s)), s) == q
  {
    forall t | 0 <= t < |q| ensures Compose(Compose(q, Inverse(s)), s)[t] == q[t] {
      assert Apply(Compose(Compose(q, Inverse(s)), s), t) == Apply(q, Apply(Inverse(s), Apply(s, t)));
    }
  }

  lemma PayloadFrom(pi: seq<int>, coarse: nat, whole: Record, aRecords: seq<Record>, encode: Encoder, p: Name) returns (r: Relabel)
    requires PiInRange(pi, coarse) && p in Payloads(pi, coarse, whole, aRecords, encode)
    ensures r in PreservingRelabels(pi, coarse) && IsRelabel(r) && p == encode(CandidateOf(whole, aRecords, r))
  {
    PayloadsHas(pi, coarse, whole, aRecords, encode, p);
    hide *;
    r :| r in PreservingRelabels(pi, coarse) && IsRelabel(r) && p == encode(CandidateOf(whole, aRecords, r));
  }

  lemma PayloadIn(pi: seq<int>, coarse: nat, whole: Record, aRecords: seq<Record>, encode: Encoder, r: Relabel)
    requires PiInRange(pi, coarse) && r in PreservingRelabels(pi, coarse) && IsRelabel(r)
    ensures encode(CandidateOf(whole, aRecords, r)) in Payloads(pi, coarse, whole, aRecords, encode)
  {
    PayloadsHas(pi, coarse, whole, aRecords, encode, encode(CandidateOf(whole, aRecords, r)));
  }

  lemma GroupCompose(pi: seq<int>, coarse: nat, r: Relabel, s: Relabel)
    requires PiInRange(pi, coarse) && r in PreservingRelabels(pi, coarse) && s in PreservingRelabels(pi, coarse)
    ensures SameSizes(r, s) && ComposeRelabels(r, s) in PreservingRelabels(pi, coarse) && IsRelabel(ComposeRelabels(r, s))
  {
    PreservingRelabelsAre(pi, coarse, r);
    PreservingRelabelsAre(pi, coarse, s);
    hide PreservingRelabels;
    PreservingCompose(pi, r, s);
    PreservingRelabelsAre(pi, coarse, ComposeRelabels(r, s));
  }

  lemma SameSizesAreRelabels(r: Relabel, s: Relabel)
    requires SameSizes(r, s)
    ensures IsRelabel(r) && IsRelabel(s) && |r.coarse| == |s.coarse| && |r.fine| == |s.fine|
  {
  }

  lemma OrbitForward(pi: seq<int>, coarse: nat, whole: Record, aRecords: seq<Record>, moved: seq<Record>, s: Relabel,
                     encode: Encoder, p: Name)
    requires PiInRange(pi, coarse) && s in PreservingRelabels(pi, coarse) && IsRelabel(s)
    requires multiset(moved) == multiset(Mapped(aRecords, OnRecords(s)))
    requires p in Payloads(pi, coarse, RelabelRecord(whole, s), moved, encode)
    ensures p in Payloads(pi, coarse, whole, aRecords, encode)
  {
    hide *;
    var r := PayloadFrom(pi, coarse, RelabelRecord(whole, s), moved, encode, p);
    GroupCompose(pi, coarse, r, s);
    SameSizesAreRelabels(r, s);
    CandidateCompose(whole, aRecords, moved, r, s);
    PayloadIn(pi, coarse, whole, aRecords, encode, ComposeRelabels(r, s));
  }

  lemma OrbitBackward(pi: seq<int>, coarse: nat, whole: Record, aRecords: seq<Record>, moved: seq<Record>, s: Relabel,
                      encode: Encoder, p: Name)
    requires PiInRange(pi, coarse) && s in PreservingRelabels(pi, coarse) && IsRelabel(s)
    requires multiset(moved) == multiset(Mapped(aRecords, OnRecords(s)))
    requires p in Payloads(pi, coarse, whole, aRecords, encode)
    ensures p in Payloads(pi, coarse, RelabelRecord(whole, s), moved, encode)
  {
    hide *;
    var q := PayloadFrom(pi, coarse, whole, aRecords, encode, p);
    var r := Factor(pi, coarse, q, s);
    SameSizesAreRelabels(r, s);
    CandidateCompose(whole, aRecords, moved, r, s);
    PayloadIn(pi, coarse, RelabelRecord(whole, s), moved, encode, r);
  }

  /** Relabelling all records first, and listing the A-records in any order, leaves the set
      of payloads, hence the observation, unchanged. */
  lemma ObservationIsOrbitInvariant(pi: seq<int>, coarse: nat, whole: Record, aRecords: seq<Record>,
                                    moved: seq<Record>, s: Relabel, encode: Encoder)
    requires PiInRange(pi, coarse) && s in PreservingRelabels(pi, coarse) && IsRelabel(s)
    requires multiset(moved) == multiset(Mapped(aRecords, OnRecords(s)))
    ensures Payloads(pi, coarse, RelabelRecord(whole, s), moved, encode) == Payloads(pi, coarse, whole, aRecords, encode)
    ensures forall p, q ::
      (IsLeast(p, Payloads(pi, coarse, RelabelRecord(whole, s), moved, encode)) && IsLeast(q, Payloads(pi, coarse, whole, aRecords, encode)))
      ==> p == q
  {
    hide CandidateOf, RelabelRecord, PreservingRelabels, Payloads, Mapped, IsRelabel, IsLeast;
    var before, after := Payloads(pi, coarse, whole, aRecords, encode), Payloads(pi, coarse, RelabelRecord(whole, s), moved, encode);
    forall p | p in after ensures p in before { OrbitForward(pi, coarse, whole, aRecords, moved, s, encode, p); }
    forall p | p in before ensures p in after { OrbitBackward(pi, coarse, whole, aRecords, moved, s, encode, p); }
    assert before == after;
    forall p, q | IsLeast(p, after) && IsLeast(q, before) ensures p == q { LeastUnique(p, q, before); }
  }
}
