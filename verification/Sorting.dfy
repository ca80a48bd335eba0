/** A stable insertion sort by any weak order. By a strict one the sorted list is a function of the elements alone. */
module Sorting {
  import opened Sequences

  /** Elements that do not precede each other are alike. */
  ghost predicate IsWeakOrder<T(!new)>(before: (T, T) -> bool) {
    && (forall a, b :: before(a, b) ==> !before(b, a))
    && (forall a, b, c :: before(a, c) ==> before(a, b) || before(b, c))
  }

  /** Of two different elements one precedes the other. */
  ghost predicate IsStrictOrder<T(!new)>(before: (T, T) -> bool) {
    && (forall a, b :: before(a, b) ==> !before(b, a))
    && (forall a, b :: a != b ==> before(a, b) || before(b, a))
    && (forall a, b, c :: before(a, b) && before(b, c) ==> before(a, c))
  }

  ghost predicate Ordered<T>(before: (T, T) -> bool, s: seq<T>) {
    forall i, j | 0 <= i < j < |s| :: !before(s[j], s[i])
  }

  ghost predicate Sorted<T>(before: (T, T) -> bool, s: seq<T>) {
    forall i, j | 0 <= i < j < |s| :: before(s[i], s[j])
  }

  function Insert<T>(before: (T, T) -> bool, x: T, s: seq<T>): (r: seq<T>)
    ensures |r| == |s| + 1
  {
    if s == [] || !before(s[0], x) then [x] + s else [s[0]] + Insert(before, x, s[1..])
  }

  function Sort<T>(before: (T, T) -> bool, s: seq<T>): (r: seq<T>)
    ensures |r| == |s|
  {
    if s == [] then [] else Insert(before, s[0], Sort(before, s[1..]))
  }

  // ---------- by a weak order ----------

  lemma {:induction false} InsertKeeps<T>(before: (T, T) -> bool, x: T, s: seq<T>)
    ensures multiset(Insert(before, x, s)) == multiset{x} + multiset(s)
  {
    if s != [] && before(s[0], x) {
      InsertKeeps(before, x, s[1..]);
      assert s == [s[0]] + s[1..];
    }
  }

  lemma {:induction false} InsertOrders<T(!new)>(before: (T, T) -> bool, x: T, s: seq<T>)
    requires IsWeakOrder(before) && Ordered(before, s)
    ensures Ordered(before, Insert(before, x, s))
  {
    if s == [] {
    } else if !before(s[0], x) {
      forall j | 0 <= j < |s| ensures !before(s[j], x) {
        assert j > 0 ==> !before(s[j], s[0]);
      }
    } else {
      var rest := Insert(before, x, s[1..]);
      InsertOrders(before, x, s[1..]);
      InsertKeeps(before, x, s[1..]);
      forall j | 0 <= j < |rest| ensures !before(rest[j], s[0]) {
        assert rest[j] in multiset(rest);
        assert rest[j] == x || rest[j] in s[1..];
      }
    }
  }

  lemma {:induction false} SortOrders<T(!new)>(before: (T, T) -> bool, s: seq<T>)
    requires IsWeakOrder(before)
    ensures Ordered(before, Sort(before, s)) && multiset(Sort(before, s)) == multiset(s)
  {
    if s != [] {
      SortOrders(before, s[1..]);
      InsertOrders(before, s[0], Sort(before, s[1..]));
      InsertKeeps(before, s[0], Sort(before, s[1..]));
      assert s == [s[0]] + s[1..];
    }
  }

  /** No two elements with this property precede each other. */
  ghost predicate IsClass<T(!new)>(before: (T, T) -> bool, p: T -> bool) {
    forall a, b :: p(a) && p(b) ==> !before(a, b)
  }

  lemma {:induction false} InsertStable<T(!new)>(before: (T, T) -> bool, x: T, s: seq<T>, p: T -> bool)
    requires IsClass(before, p)
    ensures Kept(Insert(before, x, s), p) == Kept([x] + s, p)
  {
    hide Kept;
    if s != [] && before(s[0], x) {
      InsertStable(before, x, s[1..], p);
      KeptCons(x, s, p);
      KeptCons(x, s[1..], p);
      KeptCons(s[0], s[1..], p);
      KeptCons(s[0], Insert(before, x, s[1..]), p);
      assert s == [s[0]] + s[1..];
      assert !p(s[0]) || !p(x);
    }
  }

  /** Elements alike keep their order. */
  lemma {:induction false} SortStable<T(!new)>(before: (T, T) -> bool, s: seq<T>, p: T -> bool)
    requires IsClass(before, p)
    ensures Kept(Sort(before, s), p) == Kept(s, p)
  {
    hide IsClass;
    if s != [] {
      SortStable(before, s[1..], p);
      InsertStable(before, s[0], Sort(before, s[1..]), p);
      KeptCons(s[0], Sort(before, s[1..]), p);
    }
  }

  // ---------- by a strict order ----------

  lemma {:induction false} SortSorts<T(!new)>(before: (T, T) -> bool, s: seq<T>)
    requires IsStrictOrder(before) && NoRepeats(s)
    ensures Sorted(before, Sort(before, s))
    ensures forall y :: y in Sort(before, s) <==> y in s
  {
    assert IsWeakOrder(before) by {
      forall a, b, c | before(a, c) ensures before(a, b) || before(b, c) {
        assert a == b || before(a, b) || before(b, a);
      }
    }
    SortOrders(before, s);
    PermutationKeeps(Sort(before, s), s);
  }

  lemma {:induction false} SortedTail<T(!new)>(before: (T, T) -> bool, s: seq<T>)
    requires (forall a, b :: before(a, b) ==> !before(b, a)) && Sorted(before, s) && s != []
    ensures Sorted(before, s[1..])
    ensures forall y :: y in s[1..] <==> y in s && y != s[0]
  {
    assert s == [s[0]] + s[1..];
    forall y | y in s[1..] ensures y != s[0] {
      var i :| 0 <= i < |s[1..]| && s[1..][i] == y;
      assert before(s[0], s[i + 1]);
    }
  }

  lemma {:induction false} KeptSorted<T(!new)>(before: (T, T) -> bool, s: seq<T>, p: T -> bool)
    requires Sorted(before, s)
    ensures Sorted(before, Kept(s, p))
  {
    if s != [] {
      var rest := Kept(s[1..], p);
      KeptSorted(before, s[1..], p);
      KeptMeaning(s[1..], p);
      forall j | 0 <= j < |rest| ensures before(s[0], rest[j]) {
        assert rest[j] in rest;
        HeadIsFirst(before, s, rest[j]);
      }
    }
  }

  lemma HeadIsFirst<T>(before: (T, T) -> bool, s: seq<T>, y: T)
    requires Sorted(before, s) && y in s
    ensures y == s[0] || before(s[0], y)
  {
  }

  /** Two sorted lists of the same elements are the same list. */
  lemma {:induction false} SortedUnique<T(!new)>(before: (T, T) -> bool, a: seq<T>, b: seq<T>)
    requires (forall x, y :: before(x, y) ==> !before(y, x)) && Sorted(before, a) && Sorted(before, b)
    requires SameElements(a, b)
    ensures a == b
  {
    assert a != [] ==> a[0] in a;
    assert b != [] ==> b[0] in b;
    if a != [] && b != [] {
      HeadIsFirst(before, a, b[0]);
      HeadIsFirst(before, b, a[0]);
      SortedTail(before, a);
      SortedTail(before, b);
      SortedUnique(before, a[1..], b[1..]);
      assert a == [a[0]] + a[1..] && b == [b[0]] + b[1..];
    }
  }
}
