/** Object members, sorted by key. A strict order makes the sorted list a function of the members alone. */
module Members {
  import opened Sequences
  import opened TextOrder
  import Sorting

  datatype Member<+V> = Member(key: JsString, value: V)

  predicate SortedBy<V>(ord: Order, ms: seq<Member<V>>) {
    forall i, j | 0 <= i < j < |ms| :: Less(ord, ms[i].key, ms[j].key)
  }

  predicate DistinctKeys<V>(ms: seq<Member<V>>) {
    forall i, j | 0 <= i < j < |ms| :: ms[i].key != ms[j].key
  }

  ghost predicate SameMembers<V(!new)>(a: seq<Member<V>>, b: seq<Member<V>>) {
    SameElements(a, b)
  }

  function KeyBefore<V>(ord: Order): (Member<V>, Member<V>) -> bool {
    (m: Member<V>, n: Member<V>) => Less(ord, m.key, n.key)
  }

  /** Sorts members by key. */
  function Sort<V>(ord: Order, ms: seq<Member<V>>): (r: seq<Member<V>>)
    ensures |r| == |ms|
  {
    Sorting.Sort(KeyBefore(ord), ms)
  }

  lemma {:induction false} KeysAreOrdered<V(!new)>(ord: Order)
    ensures Sorting.IsWeakOrder<Member<V>>(KeyBefore(ord))
  {
    hide Less;
    var before: (Member<V>, Member<V>) -> bool := KeyBefore(ord);
    forall m, n ensures before(m, n) ==> !before(n, m) {
      StrictTotalOrder(ord, m.key, n.key, m.key);
    }
    forall l, m, n ensures before(l, n) ==> before(l, m) || before(m, n) {
      StrictTotalOrder(ord, l.key, m.key, n.key);
      StrictTotalOrder(ord, m.key, l.key, n.key);
    }
  }

  lemma {:induction false} SortSorts<V(!new)>(ord: Order, ms: seq<Member<V>>)
    requires DistinctKeys(ms)
    ensures SortedBy(ord, Sort(ord, ms)) && SameMembers(Sort(ord, ms), ms)
  {
    hide Less, Sorting.Sort;
    var sorted := Sort(ord, ms);
    KeysAreOrdered<V>(ord);
    Sorting.SortOrders(KeyBefore(ord), ms);
    PermutationKeeps(sorted, ms);
    assert NoRepeats(ms) && NoRepeats(sorted);
    forall i, j | 0 <= i < j < |sorted| ensures Less(ord, sorted[i].key, sorted[j].key) {
      assert sorted[i] in ms && sorted[j] in ms && sorted[i] != sorted[j];
      StrictTotalOrder(ord, sorted[i].key, sorted[j].key, sorted[j].key);
    }
  }

  /** There is one sorted list of given members. */
  lemma {:induction false} SortedUnique<V(!new)>(ord: Order, a: seq<Member<V>>, b: seq<Member<V>>)
    requires SortedBy(ord, a) && SortedBy(ord, b) && SameMembers(a, b)
    ensures a == b
  {
    hide Less;
    KeysAreOrdered<V>(ord);
    Sorting.SortedUnique(KeyBefore(ord), a, b);
  }

  lemma {:induction false} SortedKeysDistinct<V(!new)>(ord: Order, ms: seq<Member<V>>)
    requires SortedBy(ord, ms)
    ensures DistinctKeys(ms)
  {
    forall i, j | 0 <= i < j < |ms| ensures ms[i].key != ms[j].key {
      StrictTotalOrder(ord, ms[i].key, ms[j].key, ms[j].key);
    }
  }

  /**
    Sorting by code point and sorting by code unit arrange an object's members
    alike exactly when no two of its keys hide a pair from each other.
   */
  lemma {:induction false} SortsAgreeExactly<V(!new)>(ms: seq<Member<V>>)
    requires DistinctKeys(ms)
    ensures Sort(ByCodePoint, ms) == Sort(ByCodeUnit, ms)
       <==> forall m, n | m in ms && n in ms :: !PairHidden(m.key, n.key)
  {
    hide Sort, PairHidden;
    SortSorts(ByCodePoint, ms);
    SortSorts(ByCodeUnit, ms);
    var byPoint, byUnit: seq<Member<V>> := Sort(ByCodePoint, ms), Sort(ByCodeUnit, ms);
    if byPoint == byUnit {
      forall m, n | m in ms && n in ms ensures !PairHidden(m.key, n.key) {
        var i :| 0 <= i < |byPoint| && byPoint[i] == m;
        var j :| 0 <= j < |byPoint| && byPoint[j] == n;
        OrdersDifferExactly(m.key, n.key);
        StrictTotalOrder(ByCodePoint, m.key, n.key, m.key);
        StrictTotalOrder(ByCodeUnit, m.key, n.key, m.key);
        assert i < j || j < i || i == j;
      }
    } else if forall m, n | m in ms && n in ms :: !PairHidden(m.key, n.key) {
      forall i, j | 0 <= i < j < |byUnit| ensures Less(ByCodePoint, byUnit[i].key, byUnit[j].key) {
        assert byUnit[i] in byUnit && byUnit[j] in byUnit;
        OrdersDifferExactly(byUnit[i].key, byUnit[j].key);
      }
      SortedUnique(ByCodePoint, byPoint, byUnit);
    }
  }

  // ---------- how an object lists its own keys ----------

  function OnlyIndices<V>(ms: seq<Member<V>>, indices: bool): seq<Member<V>> {
    Kept(ms, (m: Member<V>) => IsIndex(m.key) == indices)
  }

  /** Own-property order: array indices ascending by value, then the other keys as inserted. */
  function OwnKeyOrder<V>(ms: seq<Member<V>>): seq<Member<V>> {
    Sort(ByOwnKey, OnlyIndices(ms, true)) + OnlyIndices(ms, false)
  }

  lemma {:induction false} OnlyIndicesSelects<V(!new)>(ord: Order, ms: seq<Member<V>>, indices: bool)
    requires SortedBy(ord, ms)
    ensures SortedBy(ord, OnlyIndices(ms, indices))
    ensures forall m :: m in OnlyIndices(ms, indices) <==> m in ms && IsIndex(m.key) == indices
  {
    hide Less, IsIndex;
    Sorting.KeptSorted(KeyBefore(ord), ms, (m: Member<V>) => IsIndex(m.key) == indices);
    KeptMeaning(ms, (m: Member<V>) => IsIndex(m.key) == indices);
  }

  /** Rebuilding an object from unit-sorted entries lists its keys in ByOwnKey order. */
  lemma {:induction false} OwnKeyOrderSorts<V(!new)>(ms: seq<Member<V>>)
    requires SortedBy(ByCodeUnit, ms)
    ensures SortedBy(ByOwnKey, OwnKeyOrder(ms)) && SameMembers(OwnKeyOrder(ms), ms)
  {
    OnlyIndicesSelects(ByCodeUnit, ms, true);
    OnlyIndicesSelects(ByCodeUnit, ms, false);
    var indices, names := OnlyIndices(ms, true), OnlyIndices(ms, false);
    SortedKeysDistinct(ByCodeUnit, indices);
    SortSorts(ByOwnKey, indices);
    var sorted := Sort(ByOwnKey, indices);
    var all: seq<Member<V>> := sorted + names;
    forall i, j | 0 <= i < j < |all|
      ensures Less(ByOwnKey, all[i].key, all[j].key)
    {
      if i >= |sorted| {
        var a, b := names[i - |sorted|], names[j - |sorted|];
        assert a in names && b in names && Less(ByCodeUnit, a.key, b.key);
        assert ([1] + a.key)[1..] == a.key && ([1] + b.key)[1..] == b.key;
      } else if j >= |sorted| {
        assert sorted[i] in sorted && names[j - |sorted|] in names;
      }
    }
  }

  /** The two ways the repository puts an object's members into order. */
  datatype Form = SemanticSubject | Manifest

  function Arrange<V>(form: Form, ms: seq<Member<V>>): seq<Member<V>> {
    match form
    case SemanticSubject => Sort(ByCodePoint, ms)
    case Manifest => OwnKeyOrder(Sort(ByCodeUnit, ms))
  }

  function FormOrder(form: Form): Order {
    if form.SemanticSubject? then ByCodePoint else ByOwnKey
  }

  lemma {:induction false} ArrangeSorts<V(!new)>(form: Form, ms: seq<Member<V>>)
    requires DistinctKeys(ms)
    ensures SortedBy(FormOrder(form), Arrange(form, ms)) && SameMembers(Arrange(form, ms), ms)
  {
    match form
    case SemanticSubject =>
      SortSorts(ByCodePoint, ms);
    case Manifest =>
      SortSorts(ByCodeUnit, ms);
      OwnKeyOrderSorts(Sort(ByCodeUnit, ms));
  }

  /** Both arrangements forget the input order: they depend on the members only. */
  lemma {:induction false} ArrangeForgetsOrder<V(!new)>(form: Form, a: seq<Member<V>>, b: seq<Member<V>>)
    requires DistinctKeys(a) && DistinctKeys(b)
    ensures Arrange(form, a) == Arrange(form, b) <==> SameMembers(a, b)
  {
    ArrangeSorts(form, a);
    ArrangeSorts(form, b);
    if SameMembers(a, b) {
      SortedUnique(FormOrder(form), Arrange(form, a), Arrange(form, b));
    }
  }
}
