/**
 The reading of tools/archsig/src/compare.rs on the classes that certificates of
 tools/archsig/src/saga.rs license: two runs are read alike exactly when their residuals
 are one class in Z1/B1.
 */
module ResidualClasses {
  import opened Names
  import opened SagaComplex
  import opened BoundaryMembership
  import opened Components
  import opened Certificate
  import opened ResidualCompare

  /** Every listed variable is v. */
  predicate OnlyVariable(supports: Supports, v: Name) {
    forall id :: id in supports ==> forall w :: w in supports[id] ==> w == v
  }

  /** The residual that is one where the two differ. */
  function Difference(s: Supports, t: Supports, v: Name): (d: Supports)
    ensures OnlyVariable(d, v)
    ensures forall id :: Carries(d, id, v) <==> (Carries(s, id, v) != Carries(t, id, v))
  {
    map id | id in s.Keys + t.Keys :: if Carries(s, id, v) != Carries(t, id, v) then [v] else []
  }

  lemma OneVariable(s: Supports, v: Name)
    requires OnlyVariable(s, v)
    ensures forall id, w :: Carries(s, id, w) ==> w == v
  {
  }

  lemma CohomologousIsBoundary(c: Complex, s: Supports, t: Supports, v: Name)
    requires OnlyVariable(s, v) && OnlyVariable(t, v)
    ensures Cohomologous(c, s, t) <==> InB1(c, Difference(s, t, v))
  {
    var d := Difference(s, t, v);
    OneVariable(s, v);
    OneVariable(t, v);
    OneVariable(d, v);
    forall id, w ensures Carries(d, id, w) <==> (Carries(s, id, w) != Carries(t, id, w)) {
      if w != v { assert !Carries(d, id, w) && !Carries(s, id, w) && !Carries(t, id, w); }
    }
    forall h ensures IsDifference(c, s, t, h) <==> IsPrimitive(c, d, h) {}
  }

  lemma DeltaIsPacket(c: Complex, s: Supports, t: Supports, v: Name)
    requires OnlyVariable(s, v) && OnlyVariable(t, v)
    ensures Collected(Packet(c, s, v)).Keys == Collected(Packet(c, t, v)).Keys
    ensures Delta(Collected(Packet(c, s, v)), Collected(Packet(c, t, v))) == Collected(Packet(c, Difference(s, t, v), v))
  {
    hide Collected, Packet, OnlyVariable, Carries;
    var d := Difference(s, t, v);
    var p, q, r := Collected(Packet(c, s, v)), Collected(Packet(c, t, v)), Collected(Packet(c, d, v));
    PacketKeys(c, s, t, v);
    PacketKeys(c, s, d, v);
    hide *;
    forall k | k in p ensures Delta(p, q)[k] == r[k] {
      DeltaIsPacketAt(c, s, t, v, k);
      DeltaAt(p, q, k);
    }
    assert Delta(p, q) == r;
  }

  lemma DeltaAt(p: Residual, q: Residual, k: Key)
    requires p.Keys == q.Keys && k in p
    ensures Delta(p, q)[k] == (p[k] != q[k])
  {
  }

  lemma DeltaIsPacketAt(c: Complex, s: Supports, t: Supports, v: Name, k: Key)
    requires k in Collected(Packet(c, s, v))
    ensures k in Collected(Packet(c, t, v)) && k in Collected(Packet(c, Difference(s, t, v), v))
    ensures Collected(Packet(c, Difference(s, t, v), v))[k] == (Collected(Packet(c, s, v))[k] != Collected(Packet(c, t, v))[k])
  {
    hide Collected, Packet, Carries;
    PacketKey(c, s, v, k);
    var e :| e in c.overlaps && k == (e.id, e.left, e.right);
    PacketAt(c, s, v, e);
    PacketAt(c, t, v, e);
    PacketAt(c, Difference(s, t, v), v, e);
  }

  /** The reading of two runs over one complex is whether their residuals are one class. */
  lemma ReadingIsCohomologous(c: Complex, base: Supports, head: Supports, v: Name)
    requires OnlyVariable(base, v) && OnlyVariable(head, v)
    ensures Cohomologous(c, base, head) <==> SameClass(Collected(Packet(c, base, v)), Collected(Packet(c, head, v)))
  {
    hide Collected, Packet, Delta, OnlyVariable, IsBoundary;
    var p, q := Collected(Packet(c, base, v)), Collected(Packet(c, head, v));
    CohomologousIsBoundary(c, base, head, v);
    DeltaIsPacket(c, base, head, v);
    OneVariable(Difference(base, head, v), v);
    PacketBoundaryIsInB1(c, Difference(base, head, v), v);
    SameClassReflexive(p);
  }

  lemma {:induction false} DeltaAdds(s: Supports, t: Supports, refs: seq<Name>, v: Name)
    ensures Delta1(Difference(s, t, v), refs, v) == (Delta1(s, refs, v) != Delta1(t, refs, v))
  {
    if refs != [] { DeltaAdds(s, t, refs[..|refs| - 1], v); }
  }

  /** A class is made of cocycles or of none. */
  lemma CohomologousCocycles(c: Complex, s: Supports, t: Supports, v: Name)
    requires HasValidFiniteIncidence(c) && OnlyVariable(s, v) && OnlyVariable(t, v) && Cohomologous(c, s, t)
    ensures InZ1(c, s) <==> InZ1(c, t)
  {
    var d := Difference(s, t, v);
    CohomologousIsBoundary(c, s, t, v);
    BoundaryIsCocycle(c, d);
    OneVariable(s, v);
    OneVariable(t, v);
    forall triple | triple in c.triples
      ensures DeltaVanishes(s, triple.overlapRefs) <==> DeltaVanishes(t, triple.overlapRefs)
    {
      forall w ensures Delta1(s, triple.overlapRefs, w) == Delta1(t, triple.overlapRefs, w) {
        if w == v {
          assert DeltaVanishes(d, triple.overlapRefs);
          DeltaAdds(s, t, triple.overlapRefs, v);
        } else {
          DeltaOffSupport(s, triple.overlapRefs, w);
          DeltaOffSupport(t, triple.overlapRefs, w);
        }
      }
    }
  }

  /** Two certified runs over one complex, each on its own component: both residuals are
      cocycles, the reading says whether their classes in Z1/B1 agree, and then one class is
      zero exactly when the other is. */
  lemma TwoCertifiedRuns(c: Complex, base: Supports, head: Supports, k: Component, l: Component, v: Name)
    requires OnlyVariable(base, v) && OnlyVariable(head, v)
    requires Certifies(c, base, k) && PlainSupports(c, base) && Certifies(c, head, l) && PlainSupports(c, head)
    ensures InZ1(c, base) && InZ1(c, head)
    ensures Cohomologous(c, base, head) <==> SameClass(Collected(Packet(c, base, v)), Collected(Packet(c, head, v)))
    ensures Cohomologous(c, base, head) ==> (HasZeroClass(c, base) <==> HasZeroClass(c, head))
  {
    CertificateLicensesClass(c, base, k);
    CertificateLicensesClass(c, head, l);
    ReadingIsCohomologous(c, base, head, v);
    OneVariable(base, v);
    OneVariable(head, v);
    hide *;
    var p, q := Collected(Packet(c, base, v)), Collected(Packet(c, head, v));
    SameClassSymmetric(p, q);
    if InB1(c, base) { ReadingTransportsB1(c, base, head, v); }
    if InB1(c, head) { ReadingTransportsB1(c, head, base, v); }
  }
}
