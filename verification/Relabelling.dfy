/**
 Permutations of reading targets and clipped histograms of g_local_v1.py: relabels that
 respect pi form a group, and relabelling commutes with clipping counts at two.
 */
module Relabelling {
  import opened Sequences

  // ---------- Permutations ----------

  predicate IsPermutation(p: seq<int>) {
    Distinct(p) && forall i :: 0 <= i < |p| ==> 0 <= p[i] < |p|
  }

  /** A permutation acting on targets; outside its range nothing moves. */
  function Apply(p: seq<int>, t: int): int {
    if 0 <= t < |p| then p[t] else t
  }

  lemma Pigeonhole(p: seq<int>, n: nat, missing: int)
    requires Distinct(p) && 0 <= missing < n
    requires forall i :: 0 <= i < |p| ==> 0 <= p[i] < n && p[i] != missing
    ensures |p| < n
  {
    DistinctFits(p, Range(n) - {missing});
  }

  function Range(n: nat): (r: set<int>)
    ensures |r| == n && forall t :: t in r <==> 0 <= t < n
  {
    if n == 0 then {} else Range(n - 1) + {n - 1}
  }

  lemma Onto(p: seq<int>, t: int)
    requires IsPermutation(p) && 0 <= t < |p|
    ensures t in p
  {
    if t !in p { Pigeonhole(p, |p|, t); }
  }

  function Inverse(p: seq<int>): (q: seq<int>)
    requires IsPermutation(p)
    ensures |q| == |p| && IsPermutation(q)
    ensures forall t :: Apply(q, Apply(p, t)) == t && Apply(p, Apply(q, t)) == t
  {
    assert forall t :: 0 <= t < |p| ==> t in p by { forall t | 0 <= t < |p| ensures t in p { Onto(p, t); } }
    var q := seq(|p|, t requires 0 <= t < |p| => Position(p, t));
    assert forall t :: 0 <= t < |p| ==> p[q[t]] == t;
    assert forall t :: 0 <= t < |p| ==> p[q[p[t]]] == p[t];
    q
  }

  /** First q, then p. */
  function Compose(p: seq<int>, q: seq<int>): (r: seq<int>)
    requires IsPermutation(p) && IsPermutation(q) && |p| == |q|
    ensures |r| == |p| && IsPermutation(r) && forall t :: Apply(r, t) == Apply(p, Apply(q, t))
  {
    seq(|q|, t requires 0 <= t < |q| => p[q[t]])
  }

  function Identity(n: nat): (p: seq<int>)
    ensures |p| == n && IsPermutation(p) && forall t :: Apply(p, t) == t
  {
    seq(n, i => i)
  }

  // ---------- Every permutation is enumerated ----------

  function InsertAt(p: seq<int>, i: nat, x: int): (r: seq<int>)
    requires i <= |p|
    ensures |r| == |p| + 1
  {
    p[..i] + [x] + p[i..]
  }

  predicate IsInsertion(p: seq<int>, q: seq<int>, i: int) { 0 <= i <= |q| && p == InsertAt(q, i, |q|) }

  /** A new largest entry at every place. */
  function Extensions(smaller: set<seq<int>>, n: nat): set<seq<int>>
    requires forall q :: q in smaller ==> |q| + 1 == n
  {
    var places := Range(n);
    set q, i | q in smaller && i in places :: InsertAt(q, i, |q|)
  }

  lemma ExtensionsHas(smaller: set<seq<int>>, n: nat, p: seq<int>)
    requires forall q :: q in smaller ==> |q| + 1 == n
    ensures p in Extensions(smaller, n) <==> exists q, i :: q in smaller && IsInsertion(p, q, i)
  {
    if q, i :| q in smaller && IsInsertion(p, q, i) { assert i in Range(n); }
    if p in Extensions(smaller, n) {
      var q, i :| q in smaller && i in Range(n) && p == InsertAt(q, i, |q|);
      assert IsInsertion(p, q, i);
    }
  }

  lemma ExtensionsLength(smaller: set<seq<int>>, n: nat, p: seq<int>)
    requires (forall q :: q in smaller ==> |q| + 1 == n) && p in Extensions(smaller, n)
    ensures |p| == n
  {
  }

  function Permutations(n: nat): (r: set<seq<int>>)
    ensures forall p :: p in r ==> |p| == n
  {
    if n == 0 then {[]} else
      var smaller := Permutations(n - 1);
      assert forall p :: p in Extensions(smaller, n) ==> |p| == n by {
        forall p | p in Extensions(smaller, n) ensures |p| == n { ExtensionsLength(smaller, n, p); }
      }
      Extensions(smaller, n)
  }

  lemma InsertIsPermutation(p: seq<int>, i: nat)
    requires IsPermutation(p) && i <= |p|
    ensures IsPermutation(InsertAt(p, i, |p|))
  {
    var q := InsertAt(p, i, |p|);
    forall j, k | 0 <= j < k < |q| ensures q[j] != q[k] {
      assert j < i ==> q[j] == p[j];
      assert j > i ==> q[j] == p[j - 1];
      assert k < i ==> q[k] == p[k];
      assert k > i ==> q[k] == p[k - 1];
    }
  }

  lemma RemoveLargest(p: seq<int>) returns (q: seq<int>, i: nat)
    requires IsPermutation(p) && p != []
    ensures i < |p| && |q| == |p| - 1 && IsPermutation(q) && p == InsertAt(q, i, |p| - 1)
  {
    var n := |p| - 1;
    Onto(p, n);
    i := Position(p, n);
    q := p[..i] + p[i + 1..];
    RemovedIsPermutation(p, i, q);
    assert p == InsertAt(q, i, n);
  }

  function Skip(i: int, j: int): int { if j < i then j else j + 1 }

  lemma RemovedIsPermutation(p: seq<int>, i: nat, q: seq<int>)
    requires IsPermutation(p) && i < |p| && p[i] == |p| - 1 && q == p[..i] + p[i + 1..]
    ensures |q| == |p| - 1 && IsPermutation(q)
  {
    forall j | 0 <= j < |q| ensures q[j] == p[Skip(i, j)] && 0 <= q[j] < |q| {
      assert p[Skip(i, j)] != p[i];
    }
    forall j, k | 0 <= j < k < |q| ensures q[j] != q[k] {
      assert p[Skip(i, j)] != p[Skip(i, k)];
    }
  }

  lemma {:induction false} Enumerated(n: nat, p: seq<int>)
    requires |p| == n && IsPermutation(p)
    ensures p in Permutations(n)
  {
    hide InsertAt, IsPermutation, Extensions;
    if n > 0 {
      ExtensionsHas(Permutations(n - 1), n, p);
      var q, i := RemoveLargest(p);
      Enumerated(n - 1, q);
      assert IsInsertion(p, q, i);
    }
  }

  lemma {:induction false} OnlyPermutations(n: nat, p: seq<int>)
    requires p in Permutations(n)
    ensures |p| == n && IsPermutation(p)
  {
    hide InsertAt, Extensions;
    if n > 0 {
      ExtensionsHas(Permutations(n - 1), n, p);
      hide IsPermutation;
      var q, i :| q in Permutations(n - 1) && IsInsertion(p, q, i);
      OnlyPermutations(n - 1, q);
      InsertIsPermutation(q, i);
    }
  }

  lemma PermutationsAre(n: nat, p: seq<int>)
    ensures p in Permutations(n) <==> |p| == n && IsPermutation(p)
  {
    hide Permutations, IsPermutation;
    if |p| == n && IsPermutation(p) { Enumerated(n, p); }
    if p in Permutations(n) { OnlyPermutations(n, p); }
  }

  // ---------- Relabels ----------

  datatype Relabel = Relabel(coarse: seq<int>, fine: seq<int>)

  predicate IsRelabel(r: Relabel) { IsPermutation(r.coarse) && IsPermutation(r.fine) }

  predicate PiInRange(pi: seq<int>, coarse: nat) { forall t :: 0 <= t < |pi| ==> 0 <= pi[t] < coarse }

  predicate Preserves(pi: seq<int>, r: Relabel) {
    && |r.fine| == |pi| && PiInRange(pi, |r.coarse|) && IsRelabel(r)
    && forall t :: 0 <= t < |pi| ==> r.coarse[pi[t]] == pi[r.fine[t]]
  }

  function ComposeRelabels(r: Relabel, s: Relabel): Relabel
    requires IsRelabel(r) && IsRelabel(s) && |r.coarse| == |s.coarse| && |r.fine| == |s.fine|
  {
    Relabel(Compose(r.coarse, s.coarse), Compose(r.fine, s.fine))
  }

  function InverseRelabel(r: Relabel): Relabel
    requires IsRelabel(r)
  {
    Relabel(Inverse(r.coarse), Inverse(r.fine))
  }

  /** Closed under composition. */
  lemma PreservingCompose(pi: seq<int>, r: Relabel, s: Relabel)
    requires Preserves(pi, r) && Preserves(pi, s) && |r.coarse| == |s.coarse|
    ensures Preserves(pi, ComposeRelabels(r, s))
  {
    forall t | 0 <= t < |pi| ensures r.coarse[s.coarse[pi[t]]] == pi[r.fine[s.fine[t]]] {
      assert s.coarse[pi[t]] == pi[s.fine[t]];
    }
  }

  /** Closed under inverse. */
  lemma PreservingInverse(pi: seq<int>, r: Relabel)
    requires Preserves(pi, r)
    ensures Preserves(pi, InverseRelabel(r))
  {
    var c, f := Inverse(r.coarse), Inverse(r.fine);
    forall t | 0 <= t < |pi| ensures c[pi[t]] == pi[f[t]] {
      var u := f[t];
      assert Apply(r.fine, Apply(f, t)) == t;
      assert r.coarse[pi[u]] == pi[r.fine[u]];
      assert Apply(c, Apply(r.coarse, pi[u])) == pi[u];
    }
  }

  lemma IdentityPreserves(pi: seq<int>, coarse: nat)
    requires PiInRange(pi, coarse)
    ensures Preserves(pi, Relabel(Identity(coarse), Identity(|pi|)))
  {
    forall t | 0 <= t < |pi| ensures Identity(coarse)[pi[t]] == pi[Identity(|pi|)[t]] {
      assert Apply(Identity(|pi|), t) == t && Apply(Identity(coarse), pi[t]) == pi[t];
    }
  }

  /** The pairs of permutations that commute with pi. */
  function PreservingRelabels(pi: seq<int>, coarse: nat): set<Relabel>
    requires PiInRange(pi, coarse)
  {
    set c, f | c in Permutations(coarse) && f in Permutations(|pi|) && Preserves(pi, Relabel(c, f)) :: Relabel(c, f)
  }

  /** Exactly the preserving pairs are enumerated; there is always one. */
  lemma PreservingRelabelsAre(pi: seq<int>, coarse: nat, r: Relabel)
    requires PiInRange(pi, coarse)
    ensures r in PreservingRelabels(pi, coarse) <==> Preserves(pi, r) && |r.coarse| == coarse
    ensures PreservingRelabels(pi, coarse) != {}
  {
    PermutationsAre(coarse, r.coarse);
    PermutationsAre(|pi|, r.fine);
    IdentityPreserves(pi, coarse);
    PermutationsAre(coarse, Identity(coarse));
    PermutationsAre(|pi|, Identity(|pi|));
    assert Relabel(Identity(coarse), Identity(|pi|)) in PreservingRelabels(pi, coarse);
  }

  // ---------- Clipped histograms ----------

  /** Rows as a map from payload to count; the program lists them by payload. */
  type Histogram<!T> = map<T, nat>

  function Clip(n: nat): nat { if n > 2 then 2 else n }

  function ClippedRows<T>(payloads: seq<T>): Histogram<T> {
    map x | x in payloads :: Clip(multiset(payloads)[x])
  }

  /** A row counts one when its payload occurs once, and two when it occurs at all more often. */
  lemma ClippedRowsCount<T>(payloads: seq<T>, x: T)
    ensures x in ClippedRows(payloads) <==> multiset(payloads)[x] >= 1
    ensures multiset(payloads)[x] == 1 ==> x in ClippedRows(payloads) && ClippedRows(payloads)[x] == 1
    ensures multiset(payloads)[x] >= 2 ==> x in ClippedRows(payloads) && ClippedRows(payloads)[x] == 2
  {
    assert x in multiset(payloads) <==> x in payloads;
  }

  /** The counts a clipped histogram can hold. */
  predicate IsClipped<T>(h: Histogram<T>) { forall x :: x in h ==> 1 <= h[x] <= 2 }

  lemma ClippedRowsAreClipped<T>(payloads: seq<T>)
    ensures IsClipped(ClippedRows(payloads))
  {
    forall x | x in ClippedRows(payloads) ensures 1 <= ClippedRows(payloads)[x] <= 2 { assert x in multiset(payloads); }
  }

  ghost predicate Injective<T(!new), U>(f: T -> U) {
    forall x, y :: f(x) == f(y) ==> x == y
  }

  /** The histogram with its payloads renamed. */
  function Renamed<T(!new), U(!new)>(h: Histogram<T>, f: T -> U): (r: Histogram<U>)
    requires Injective(f)
    ensures forall x :: x in h ==> f(x) in r && r[f(x)] == h[x]
    ensures forall y :: y in r ==> exists x :: x in h && f(x) == y
  {
    map x | x in h :: f(x) := h[x]
  }

  function Mapped<T, U>(payloads: seq<T>, f: T -> U): (r: seq<U>)
    ensures |r| == |payloads| && forall i :: 0 <= i < |r| ==> r[i] == f(payloads[i])
  {
    seq(|payloads|, i requires 0 <= i < |payloads| => f(payloads[i]))
  }

  lemma {:induction false} MappedCounts<T(!new), U>(payloads: seq<T>, f: T -> U, x: T)
    requires Injective(f)
    ensures multiset(Mapped(payloads, f))[f(x)] == multiset(payloads)[x]
  {
    if payloads != [] {
      var n := |payloads| - 1;
      MappedCounts(payloads[..n], f, x);
      assert payloads == payloads[..n] + [payloads[n]];
      assert Mapped(payloads, f) == Mapped(payloads[..n], f) + [f(payloads[n])];
    }
  }

  /** Renaming commutes with clipping, because it is injective. */
  lemma RenameCommutesWithClip<T(!new), U(!new)>(payloads: seq<T>, f: T -> U)
    requires Injective(f)
    ensures ClippedRows(Mapped(payloads, f)) == Renamed(ClippedRows(payloads), f)
  {
    var l, r := ClippedRows(Mapped(payloads, f)), Renamed(ClippedRows(payloads), f);
    forall i | 0 <= i < |payloads| ensures f(payloads[i]) in l && l[f(payloads[i])] == r[f(payloads[i])] {
      MappedCounts(payloads, f, payloads[i]);
      assert Mapped(payloads, f)[i] in Mapped(payloads, f);
    }
    forall y ensures y in l <==> y in r {
      if y in l {
        var i :| 0 <= i < |payloads| && Mapped(payloads, f)[i] == y;
        assert payloads[i] in ClippedRows(payloads);
      }
    }
    forall y | y in l ensures l[y] == r[y] { var i :| 0 <= i < |payloads| && Mapped(payloads, f)[i] == y; }
  }

  /** Without injectivity it does not: merged payloads clip differently. */
  lemma MergingBreaksClip()
    ensures var f := (x: int) => 0;
            ClippedRows(Mapped([1, 2], f)) == map[0 := 2] && ClippedRows([1, 2]) == map[1 := 1, 2 := 1]
  {
    var f := (x: int) => 0;
    assert Mapped([1, 2], f) == [0, 0];
    assert multiset([0, 0])[0] == 2;
    assert multiset([1, 2])[1] == 1 && multiset([1, 2])[2] == 1;
  }

  function Repeat<T>(x: T, n: nat): (r: seq<T>)
    ensures |r| == n && forall i :: 0 <= i < n ==> r[i] == x
  {
    seq(n, _ => x)
  }

  lemma {:induction false} RepeatCounts<T>(x: T, n: nat)
    ensures multiset(Repeat(x, n))[x] == n && forall y :: y != x ==> multiset(Repeat(x, n))[y] == 0
  {
    if n > 0 {
      RepeatCounts(x, n - 1);
      assert Repeat(x, n) == Repeat(x, n - 1) + [x];
    }
  }

  /** Expanding every row to its count of renamed payloads and clipping again. */
  method RenameRows<T(==,!new), U(==,!new)>(h: Histogram<T>, f: T -> U) returns (r: Histogram<U>)
    requires Injective(f) && IsClipped(h)
    ensures r == Renamed(h, f) && IsClipped(r)
  {
    var keys := Enumerate(h.Keys);
    var payloads: seq<U> := [];
    for i := 0 to |keys|
      invariant forall j :: 0 <= j < i ==> multiset(payloads)[f(keys[j])] == h[keys[j]]
      invariant forall y :: y in payloads ==> exists j :: 0 <= j < i && f(keys[j]) == y
    {
      assert keys[i] in h && f(keys[i]) !in payloads;
      RepeatCounts(f(keys[i]), h[keys[i]]);
      ghost var before := payloads;
      payloads := payloads + Repeat(f(keys[i]), h[keys[i]]);
      assert multiset(payloads) == multiset(before) + multiset(Repeat(f(keys[i]), h[keys[i]]));
    }
    r := ClippedRows(payloads);
    ClippedRowsAreClipped(payloads);
    RowsAreRenamed(h, f, keys, payloads);
  }

  lemma RowsAreRenamed<T(!new), U(!new)>(h: Histogram<T>, f: T -> U, keys: seq<T>, payloads: seq<U>)
    requires Injective(f) && IsClipped(h) && forall x :: x in keys <==> x in h
    requires forall j :: 0 <= j < |keys| ==> multiset(payloads)[f(keys[j])] == h[keys[j]]
    requires forall y :: y in payloads ==> exists j :: 0 <= j < |keys| && f(keys[j]) == y
    ensures ClippedRows(payloads) == Renamed(h, f)
  {
    var l, r := ClippedRows(payloads), Renamed(h, f);
    forall y ensures y in l <==> y in r {
      if y in r {
        var x :| x in h && f(x) == y;
        assert x in keys;
        assert y in multiset(payloads);
      }
      if y in l {
        var j :| 0 <= j < |keys| && f(keys[j]) == y;
        assert keys[j] in h;
      }
    }
    forall y | y in l ensures l[y] == r[y] {
      var j :| 0 <= j < |keys| && f(keys[j]) == y;
      assert keys[j] in h;
    }
  }

  /** Some row of k is the moved row x of h, with its count. */
  ghost predicate HasMovedRow<T(!new), U(!new)>(h: Histogram<T>, k: Histogram<U>, moves: (T, U) -> bool, x: T)
    requires x in h
  {
    exists y :: y in k && moves(x, y) && k[y] == h[x]
  }

  /** The row y of k is some moved row of h, with its count. */
  ghost predicate IsMovedRow<T(!new), U(!new)>(h: Histogram<T>, k: Histogram<U>, moves: (T, U) -> bool, y: U)
    requires y in k
  {
    exists x :: x in h && moves(x, y) && k[y] == h[x]
  }

  /** Every row is moved with its count, and none is lost or added. */
  ghost predicate RowsMove<T(!new), U(!new)>(h: Histogram<T>, k: Histogram<U>, moves: (T, U) -> bool) {
    (forall x :: x in h ==> HasMovedRow(h, k, moves, x)) && (forall y :: y in k ==> IsMovedRow(h, k, moves, y))
  }

  lemma RenamedRowsMove<T(!new), U(!new)>(h: Histogram<T>, f: T -> U, moves: (T, U) -> bool)
    requires Injective(f) && forall x :: moves(x, f(x))
    ensures RowsMove(h, Renamed(h, f), moves)
  {
    var k := Renamed(h, f);
    forall x | x in h ensures HasMovedRow(h, k, moves, x) { assert f(x) in k && moves(x, f(x)); }
    forall y | y in k ensures IsMovedRow(h, k, moves, y) {
      var x :| x in h && f(x) == y;
      assert moves(x, f(x));
    }
  }

  lemma RenamedTwice<T(!new), U(!new), V(!new)>(h: Histogram<T>, f: T -> U, g: U -> V, k: T -> V)
    requires Injective(f) && Injective(g) && Injective(k) && forall x :: k(x) == g(f(x))
    ensures Renamed(Renamed(h, f), g) == Renamed(h, k)
  {
    var l, r := Renamed(Renamed(h, f), g), Renamed(h, k);
    forall z | z in l ensures z in r && l[z] == r[z] {
      var y :| y in Renamed(h, f) && g(y) == z;
      var x :| x in h && f(x) == y;
      assert k(x) == z;
    }
    forall z | z in r ensures z in l {
      var x :| x in h && k(x) == z;
      assert f(x) in Renamed(h, f);
      assert g(f(x)) == z;
    }
  }

  lemma RenamedByIdentity<T(!new)>(h: Histogram<T>, f: T -> T)
    requires Injective(f) && forall x :: f(x) == x
    ensures Renamed(h, f) == h
  {
    var r := Renamed(h, f);
    forall x ensures x in r <==> x in h { if x in h { assert f(x) in r; } }
    forall x | x in h ensures r[x] == h[x] { assert r[f(x)] == h[x]; }
  }
}
