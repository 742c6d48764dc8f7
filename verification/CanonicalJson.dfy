/**
 Canonical JSON of tools/archsig/src/policy_bundle.rs: objects sorted by key at every
 depth, and the rejection of repeated keys the canonical form relies on.
 */
module CanonicalJson {
  import opened Options
  import opened Names

  /** A JSON value; members keep the order in which they are listed. */
  datatype Json = Scalar(text: Name) | Array(items: Items) | Object(members: Members)

  datatype Items = NoItems | Item(head: Json, rest: Items)

  datatype Members = NoMembers | Member(key: Name, value: Json, rest: Members)

  function Lookup(m: Members, k: Name): Option<Json> {
    match m
    case NoMembers => None
    case Member(key, value, rest) => if key == k then Some(value) else Lookup(rest, k)
  }

  function Keys(m: Members): set<Name> {
    match m
    case NoMembers => {}
    case Member(key, _, rest) => {key} + Keys(rest)
  }

  function Size(m: Members): nat {
    match m
    case NoMembers => 0
    case Member(_, _, rest) => 1 + Size(rest)
  }

  // ---------- Repeated keys ----------

  predicate DuplicateFree(v: Json) {
    match v
    case Scalar(_) => true
    case Array(items) => ItemsDuplicateFree(items)
    case Object(members) => MembersDuplicateFree(members)
  }

  predicate ItemsDuplicateFree(items: Items) {
    match items
    case NoItems => true
    case Item(head, rest) => DuplicateFree(head) && ItemsDuplicateFree(rest)
  }

  predicate MembersDuplicateFree(m: Members) {
    match m
    case NoMembers => true
    case Member(key, value, rest) => key !in Keys(rest) && DuplicateFree(value) && MembersDuplicateFree(rest)
  }

  /** What the strict reader still has to accept once it has seen some keys. */
  predicate FreshAndDuplicateFree(m: Members, seen: set<Name>) {
    MembersDuplicateFree(m) && Keys(m) !! seen
  }

  /** The strict visitor: it accepts exactly the values with no repeated key at any depth. */
  method Visit(v: Json) returns (accepted: bool)
    ensures accepted <==> DuplicateFree(v)
    decreases v
  {
    match v {
      case Scalar(_) => return true;
      case Array(items) =>
        var rest := items;
        while rest.Item?
          invariant ItemsDuplicateFree(items) <==> ItemsDuplicateFree(rest)
          invariant rest == items || rest < items
          decreases rest
        {
          assert rest.head < v;
          var head := Visit(rest.head);
          if !head { return false; }
          rest := rest.rest;
        }
        return true;
      case Object(members) =>
        var rest, keys := members, {};
        while rest.Member?
          invariant MembersDuplicateFree(members) <==> FreshAndDuplicateFree(rest, keys)
          invariant rest == members || rest < members
          decreases rest
        {
          if rest.key in keys { return false; }
          keys := keys + {rest.key};
          assert rest.value < v;
          var value := Visit(rest.value);
          if !value { return false; }
          rest := rest.rest;
        }
        return true;
    }
  }

  // ---------- The canonical form ----------

  /** Inserting into a map that keeps its keys in order. */
  function Insert(m: Members, k: Name, v: Json): Members {
    match m
    case NoMembers => Member(k, v, NoMembers)
    case Member(key, value, rest) =>
      if key == k then Member(k, v, rest)
      else if AtMost(k, key) then Member(k, v, m)
      else Member(key, value, Insert(rest, k, v))
  }

  function Canonical(v: Json): Json {
    match v
    case Scalar(_) => v
    case Array(items) => Array(CanonicalItems(items))
    case Object(members) => Object(CanonicalMembers(members))
  }

  function CanonicalItems(items: Items): Items {
    match items
    case NoItems => NoItems
    case Item(head, rest) => Item(Canonical(head), CanonicalItems(rest))
  }

  function CanonicalMembers(m: Members): Members {
    match m
    case NoMembers => NoMembers
    case Member(key, value, rest) => Insert(CanonicalMembers(rest), key, Canonical(value))
  }

  // ---------- Equality up to member order ----------

  /** Equal after reordering object members, at any depth. */
  predicate Same(a: Json, b: Json) {
    match a
    case Scalar(text) => b == a
    case Array(items) => b.Array? && SameItems(items, b.items)
    case Object(members) => b.Object? && Size(members) == Size(b.members) && Within(members, b.members)
  }

  predicate SameItems(a: Items, b: Items) {
    match a
    case NoItems => b == NoItems
    case Item(head, rest) => b.Item? && Same(head, b.head) && SameItems(rest, b.rest)
  }

  /** Every member of the first occurs in the second, up to order inside its value. */
  predicate Within(a: Members, b: Members) {
    match a
    case NoMembers => true
    case Member(key, value, rest) => Lookup(b, key).Some? && Same(value, Lookup(b, key).value) && Within(rest, b)
  }

  // ---------- Sorted members are determined by lookups ----------

  lemma {:induction false} KeysAreFound(m: Members, k: Name)
    ensures k in Keys(m) <==> Lookup(m, k).Some?
  {
    if m.Member? { KeysAreFound(m.rest, k); }
  }

  lemma {:induction false} KeyCount(m: Members)
    requires MembersDuplicateFree(m)
    ensures |Keys(m)| == Size(m)
  {
    if m.Member? { KeyCount(m.rest); }
  }

  lemma {:induction false} FoundIsDuplicateFree(m: Members, k: Name)
    requires MembersDuplicateFree(m) && Lookup(m, k).Some?
    ensures DuplicateFree(Lookup(m, k).value)
  {
    if m.key != k { FoundIsDuplicateFree(m.rest, k); }
  }

  predicate Above(k: Name, m: Members) {
    m.Member? ==> AtMost(k, m.key) && k != m.key
  }

  predicate Ascending(m: Members) {
    m.Member? ==> Above(m.key, m.rest) && Ascending(m.rest)
  }

  lemma {:induction false} InsertFinds(m: Members, k: Name, v: Json, j: Name)
    ensures Lookup(Insert(m, k, v), j) == if j == k then Some(v) else Lookup(m, j)
  {
    if m.Member? && m.key != k && !AtMost(k, m.key) { InsertFinds(m.rest, k, v, j); }
  }

  lemma {:induction false} InsertAscends(m: Members, k: Name, v: Json)
    requires Ascending(m)
    ensures Ascending(Insert(m, k, v))
    ensures forall j :: j != k && AtMost(j, k) && Above(j, m) ==> Above(j, Insert(m, k, v))
  {
    if m.Member? && m.key != k {
      AtMostTotal(k, m.key);
      if !AtMost(k, m.key) { InsertAscends(m.rest, k, v); }
    }
  }

  lemma {:induction false} CanonicalAscends(m: Members)
    ensures Ascending(CanonicalMembers(m))
  {
    if m.Member? {
      CanonicalAscends(m.rest);
      InsertAscends(CanonicalMembers(m.rest), m.key, Canonical(m.value));
    }
  }

  /** Canonicalizing an object canonicalizes each member's value and loses none. */
  lemma {:induction false} CanonicalFinds(m: Members, k: Name)
    ensures Lookup(CanonicalMembers(m), k) == if Lookup(m, k).None? then None else Some(Canonical(Lookup(m, k).value))
  {
    if m.Member? {
      CanonicalFinds(m.rest, k);
      InsertFinds(CanonicalMembers(m.rest), m.key, Canonical(m.value), k);
    }
  }

  lemma {:induction false} NothingBelow(m: Members, k: Name)
    requires Ascending(m) && Above(k, m)
    ensures Lookup(m, k).None?
  {
    if m.Member? {
      assert Above(k, m.rest) by {
        if m.rest.Member? {
          AtMostTransitive(k, m.key, m.rest.key);
          AtMostTotal(k, m.key);
        }
      }
      NothingBelow(m.rest, k);
    }
  }

  lemma {:induction false} AscendingUnique(m: Members, n: Members)
    requires Ascending(m) && Ascending(n) && forall k :: Lookup(m, k) == Lookup(n, k)
    ensures m == n
  {
    var first := if m.Member? then m.key else if n.Member? then n.key else "";
    assert Lookup(m, first) == Lookup(n, first);
    if m.Member? && n.Member? {
      AtMostTotal(m.key, n.key);
      if m.key != n.key {
        if AtMost(m.key, n.key) { NothingBelow(n, m.key); } else { NothingBelow(m, n.key); }
      }
      forall k ensures Lookup(m.rest, k) == Lookup(n.rest, k) {
        assert Lookup(m, k) == Lookup(n, k);
        if k == m.key {
          NothingBelow(m.rest, k);
          NothingBelow(n.rest, k);
        }
      }
      AscendingUnique(m.rest, n.rest);
    }
  }

  // ---------- The canonical form decides equality up to order ----------

  /** Two values without repeated keys have one canonical form iff they are equal up to
      member order. */
  lemma {:induction false} CanonicalDecidesSame(a: Json, b: Json)
    requires DuplicateFree(a) && DuplicateFree(b)
    ensures Canonical(a) == Canonical(b) <==> Same(a, b)
    decreases a, 0
  {
    match a {
      case Scalar(_) =>
      case Array(items) => if b.Array? { ItemsDecideSame(items, b.items); }
      case Object(members) => if b.Object? { MembersDecideSame(members, b.members); }
    }
  }

  lemma {:induction false} ItemsDecideSame(a: Items, b: Items)
    requires ItemsDuplicateFree(a) && ItemsDuplicateFree(b)
    ensures CanonicalItems(a) == CanonicalItems(b) <==> SameItems(a, b)
    decreases a, 0
  {
    if a.Item? && b.Item? {
      CanonicalDecidesSame(a.head, b.head);
      ItemsDecideSame(a.rest, b.rest);
    }
  }

  /** The members of a agree in b, up to order inside values. */
  ghost predicate Agrees(a: Members, b: Members) {
    forall k :: Lookup(a, k).Some? ==> Lookup(b, k).Some? && Canonical(Lookup(a, k).value) == Canonical(Lookup(b, k).value)
  }

  lemma {:induction false} WithinIffAgrees(a: Members, b: Members)
    requires MembersDuplicateFree(a) && MembersDuplicateFree(b)
    ensures Within(a, b) <==> Agrees(a, b)
    decreases a, 0
  {
    if a.Member? {
      WithinIffAgrees(a.rest, b);
      KeysAreFound(a.rest, a.key);
      if Lookup(b, a.key).Some? {
        FoundIsDuplicateFree(b, a.key);
        CanonicalDecidesSame(a.value, Lookup(b, a.key).value);
      }
      hide Canonical, Same;
      if Agrees(a, b) {
        assert Lookup(a, a.key).Some?;
        forall k | Lookup(a.rest, k).Some? ensures Lookup(b, k).Some? && Canonical(Lookup(a.rest, k).value) == Canonical(Lookup(b, k).value) {
          assert Lookup(a, k) == Lookup(a.rest, k);
        }
      }
      if Within(a, b) {
        forall k | Lookup(a, k).Some? ensures Lookup(b, k).Some? && Canonical(Lookup(a, k).value) == Canonical(Lookup(b, k).value) {
          assert k != a.key ==> Lookup(a, k) == Lookup(a.rest, k);
        }
      }
    }
  }

  lemma {:induction false} MembersDecideSame(a: Members, b: Members)
    requires MembersDuplicateFree(a) && MembersDuplicateFree(b)
    ensures CanonicalMembers(a) == CanonicalMembers(b) <==> Size(a) == Size(b) && Within(a, b)
    decreases a, 1
  {
    WithinIffAgrees(a, b);
    KeyCount(a);
    KeyCount(b);
    hide Canonical, Within, MembersDuplicateFree;
    if CanonicalMembers(a) == CanonicalMembers(b) { EqualFormsAgree(a, b); }
    if Size(a) == Size(b) && Agrees(a, b) { AgreeingFormsEqual(a, b); }
  }

  lemma EqualFormsAgree(a: Members, b: Members)
    requires CanonicalMembers(a) == CanonicalMembers(b)
    ensures Agrees(a, b) && Keys(a) == Keys(b)
  {
    forall k ensures Lookup(a, k).Some? <==> Lookup(b, k).Some?
             ensures Lookup(a, k).Some? ==> Canonical(Lookup(a, k).value) == Canonical(Lookup(b, k).value)
    {
      CanonicalFinds(a, k);
      CanonicalFinds(b, k);
    }
    forall k ensures k in Keys(a) <==> k in Keys(b) {
      KeysAreFound(a, k);
      KeysAreFound(b, k);
    }
  }

  lemma SubsetOfSize(s: set<Name>, t: set<Name>)
    requires s <= t && |s| == |t|
    ensures s == t
  {
    assert |t - s| == 0;
    assert t == s + (t - s);
  }

  lemma AgreeingFormsEqual(a: Members, b: Members)
    requires Agrees(a, b) && |Keys(a)| == |Keys(b)|
    ensures CanonicalMembers(a) == CanonicalMembers(b)
  {
    forall k | k in Keys(a) ensures k in Keys(b) {
      KeysAreFound(a, k);
      KeysAreFound(b, k);
    }
    SubsetOfSize(Keys(a), Keys(b));
    CanonicalAscends(a);
    CanonicalAscends(b);
    forall k ensures Lookup(CanonicalMembers(a), k) == Lookup(CanonicalMembers(b), k) {
      KeysAreFound(a, k);
      KeysAreFound(b, k);
      CanonicalFinds(a, k);
      CanonicalFinds(b, k);
    }
    AscendingUnique(CanonicalMembers(a), CanonicalMembers(b));
  }

  // ---------- Canonicalizing twice ----------

  lemma {:induction false} CanonicalTwice(v: Json)
    ensures Canonical(Canonical(v)) == Canonical(v)
    decreases v, 0
  {
    match v {
      case Scalar(_) =>
      case Array(items) => ItemsTwice(items);
      case Object(members) => MembersTwice(members);
    }
  }

  lemma {:induction false} ItemsTwice(items: Items)
    ensures CanonicalItems(CanonicalItems(items)) == CanonicalItems(items)
    decreases items, 0
  {
    if items.Item? {
      CanonicalTwice(items.head);
      ItemsTwice(items.rest);
    }
  }

  lemma {:induction false} ValuesTwice(m: Members, k: Name)
    requires Lookup(m, k).Some?
    ensures Canonical(Canonical(Lookup(m, k).value)) == Canonical(Lookup(m, k).value)
    decreases m, 0
  {
    if m.key == k { CanonicalTwice(m.value); } else { ValuesTwice(m.rest, k); }
  }

  lemma {:induction false} MembersTwice(m: Members)
    ensures CanonicalMembers(CanonicalMembers(m)) == CanonicalMembers(m)
    decreases m, 1
  {
    var once := CanonicalMembers(m);
    forall k ensures Lookup(CanonicalMembers(once), k) == Lookup(once, k) {
      CanonicalFinds(m, k);
      CanonicalFinds(once, k);
      if Lookup(m, k).Some? { ValuesTwice(m, k); }
    }
    CanonicalAscends(m);
    CanonicalAscends(once);
    AscendingUnique(CanonicalMembers(once), once);
  }

  // ---------- The form itself ----------

  /** Keys ascend, without repetition, in every object at every depth. */
  predicate IsSortedThroughout(v: Json) {
    match v
    case Scalar(_) => true
    case Array(items) => ItemsSorted(items)
    case Object(members) => Ascending(members) && MembersSorted(members)
  }

  predicate ItemsSorted(items: Items) {
    items.Item? ==> IsSortedThroughout(items.head) && ItemsSorted(items.rest)
  }

  predicate MembersSorted(m: Members) {
    m.Member? ==> IsSortedThroughout(m.value) && MembersSorted(m.rest)
  }

  lemma {:induction false} InsertSorted(m: Members, k: Name, v: Json)
    requires MembersSorted(m) && IsSortedThroughout(v)
    ensures MembersSorted(Insert(m, k, v))
  {
    if m.Member? && m.key != k && !AtMost(k, m.key) { InsertSorted(m.rest, k, v); }
  }

  lemma {:induction false} CanonicalIsSorted(v: Json)
    ensures IsSortedThroughout(Canonical(v))
    decreases v
  {
    match v {
      case Scalar(_) =>
      case Array(items) => CanonicalItemsSorted(items);
      case Object(members) =>
        CanonicalAscends(members);
        CanonicalMembersSorted(members);
    }
  }

  lemma {:induction false} CanonicalItemsSorted(items: Items)
    ensures ItemsSorted(CanonicalItems(items))
    decreases items
  {
    if items.Item? {
      CanonicalIsSorted(items.head);
      CanonicalItemsSorted(items.rest);
    }
  }

  lemma {:induction false} CanonicalMembersSorted(m: Members)
    ensures MembersSorted(CanonicalMembers(m))
    decreases m
  {
    if m.Member? {
      CanonicalIsSorted(m.value);
      CanonicalMembersSorted(m.rest);
      InsertSorted(CanonicalMembers(m.rest), m.key, Canonical(m.value));
    }
  }

  lemma {:induction false} AboveIsAbsent(k: Name, m: Members)
    requires Ascending(m) && Above(k, m)
    ensures k !in Keys(m)
  {
    NothingBelow(m, k);
    KeysAreFound(m, k);
  }

  lemma {:induction false} SortedIsDuplicateFree(v: Json)
    requires IsSortedThroughout(v)
    ensures DuplicateFree(v)
    decreases v
  {
    match v {
      case Scalar(_) =>
      case Array(items) => SortedItemsDuplicateFree(items);
      case Object(members) => SortedMembersDuplicateFree(members);
    }
  }

  lemma {:induction false} SortedItemsDuplicateFree(items: Items)
    requires ItemsSorted(items)
    ensures ItemsDuplicateFree(items)
    decreases items
  {
    if items.Item? {
      SortedIsDuplicateFree(items.head);
      SortedItemsDuplicateFree(items.rest);
    }
  }

  lemma {:induction false} SortedMembersDuplicateFree(m: Members)
    requires Ascending(m) && MembersSorted(m)
    ensures MembersDuplicateFree(m)
    decreases m
  {
    if m.Member? {
      SortedIsDuplicateFree(m.value);
      SortedMembersDuplicateFree(m.rest);
      AboveIsAbsent(m.key, m.rest);
    }
  }

  /** The canonical form of a value is the one sorted value equal to it up to order. */
  lemma CanonicalIsTheSortedForm(v: Json, w: Json)
    requires DuplicateFree(v)
    ensures w == Canonical(v) <==> IsSortedThroughout(w) && Same(v, w)
  {
    CanonicalIsSorted(v);
    SortedIsDuplicateFree(Canonical(v));
    CanonicalTwice(v);
    CanonicalDecidesSame(v, Canonical(v));
    if IsSortedThroughout(w) && Same(v, w) {
      SortedIsDuplicateFree(w);
      CanonicalDecidesSame(v, w);
      SortedIsCanonical(w);
    }
  }

  lemma {:induction false} SortedIsCanonical(v: Json)
    requires IsSortedThroughout(v)
    ensures Canonical(v) == v
    decreases v
  {
    match v {
      case Scalar(_) =>
      case Array(items) => SortedItemsCanonical(items);
      case Object(members) => SortedMembersCanonical(members);
    }
  }

  lemma {:induction false} SortedItemsCanonical(items: Items)
    requires ItemsSorted(items)
    ensures CanonicalItems(items) == items
    decreases items
  {
    if items.Item? {
      SortedIsCanonical(items.head);
      SortedItemsCanonical(items.rest);
    }
  }

  lemma {:induction false} SortedMembersCanonical(m: Members)
    requires Ascending(m) && MembersSorted(m)
    ensures CanonicalMembers(m) == m
    decreases m
  {
    if m.Member? {
      SortedIsCanonical(m.value);
      SortedMembersCanonical(m.rest);
      assert Insert(m.rest, m.key, m.value) == m;
    }
  }

  // ---------- What the strict visitor looks for ----------

  /** w is v or lies inside it. */
  predicate Occurs(w: Json, v: Json) {
    w == v || match v
              case Scalar(_) => false
              case Array(items) => OccursInItems(w, items)
              case Object(members) => OccursInMembers(w, members)
  }

  predicate OccursInItems(w: Json, items: Items) {
    items.Item? && (Occurs(w, items.head) || OccursInItems(w, items.rest))
  }

  predicate OccursInMembers(w: Json, m: Members) {
    m.Member? && (Occurs(w, m.value) || OccursInMembers(w, m.rest))
  }

  /** The object lists as many keys as it has members. */
  predicate NoRepeatedKey(w: Json) { w.Object? ==> |Keys(w.members)| == Size(w.members) }

  lemma {:induction false} KeysAtMostSize(m: Members)
    ensures |Keys(m)| <= Size(m)
    ensures m.Member? ==> (|Keys(m)| == Size(m) <==> m.key !in Keys(m.rest) && |Keys(m.rest)| == Size(m.rest))
  {
    if m.Member? { KeysAtMostSize(m.rest); }
  }

  /** Accepted values are those with no repeated key in any object inside them. */
  lemma {:induction false} DuplicateFreeMeans(v: Json)
    ensures DuplicateFree(v) <==> forall w :: Occurs(w, v) ==> NoRepeatedKey(w)
    decreases v, 1
  {
    match v {
      case Scalar(_) =>
      case Array(items) =>
        ItemsDuplicateFreeMeans(items);
        forall w ensures Occurs(w, v) <==> w == v || OccursInItems(w, items) {}
      case Object(members) =>
        MembersDuplicateFreeMeans(members);
        forall w ensures Occurs(w, v) <==> w == v || OccursInMembers(w, members) {}
        if forall w :: Occurs(w, v) ==> NoRepeatedKey(w) { assert Occurs(v, v); }
    }
  }

  lemma {:induction false} ItemsDuplicateFreeMeans(items: Items)
    ensures ItemsDuplicateFree(items) <==> forall w :: OccursInItems(w, items) ==> NoRepeatedKey(w)
    decreases items, 0
  {
    if items.Item? {
      DuplicateFreeMeans(items.head);
      ItemsDuplicateFreeMeans(items.rest);
      forall w ensures OccursInItems(w, items) <==> Occurs(w, items.head) || OccursInItems(w, items.rest) {}
    }
  }

  lemma {:induction false} MembersDuplicateFreeMeans(m: Members)
    ensures MembersDuplicateFree(m) <==>
      |Keys(m)| == Size(m) && forall w :: OccursInMembers(w, m) ==> NoRepeatedKey(w)
    decreases m, 0
  {
    KeysAtMostSize(m);
    if m.Member? {
      DuplicateFreeMeans(m.value);
      MembersDuplicateFreeMeans(m.rest);
      forall w ensures OccursInMembers(w, m) <==> Occurs(w, m.value) || OccursInMembers(w, m.rest) {}
    }
  }
}
