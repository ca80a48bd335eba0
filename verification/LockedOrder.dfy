/** A stable sort by the position of an item's key in a locked list. */
module LockedOrder {
  import opened Sequences
  import Sorting

  function Lower<T>(rank: T -> nat): (T, T) -> bool {
    (x: T, y: T) => rank(x) < rank(y)
  }

  function Normalize<T>(rank: T -> nat, s: seq<T>): seq<T> {
    Sorting.Sort(Lower(rank), s)
  }

  ghost predicate RankSorted<T>(rank: T -> nat, s: seq<T>) {
    forall i, j | 0 <= i < j < |s| :: rank(s[i]) <= rank(s[j])
  }

  function HasRank<T>(rank: T -> nat, r: nat): T -> bool {
    (x: T) => rank(x) == r
  }

  /** The items of one rank, in order. */
  function OfRank<T>(rank: T -> nat, s: seq<T>, r: nat): seq<T> {
    Kept(s, HasRank(rank, r))
  }

  ghost predicate SameClasses<T>(rank: T -> nat, a: seq<T>, b: seq<T>) {
    forall r :: OfRank(rank, a, r) == OfRank(rank, b, r)
  }

  /** Normalising sorts by rank, keeps every item, and never reorders items of one rank. */
  lemma {:induction false} NormalizeSorts<T(!new)>(rank: T -> nat, s: seq<T>)
    ensures RankSorted(rank, Normalize(rank, s)) && multiset(Normalize(rank, s)) == multiset(s)
    ensures SameClasses(rank, Normalize(rank, s), s)
  {
    hide Kept, Sorting.Sort;
    Sorting.SortOrders(Lower(rank), s);
    forall r: nat ensures OfRank(rank, Normalize(rank, s), r) == OfRank(rank, s, r) {
      Sorting.SortStable(Lower(rank), s, HasRank(rank, r));
    }
  }

  lemma {:induction false} HeadOfClass<T(!new)>(rank: T -> nat, a: seq<T>, b: seq<T>)
    requires a != [] && RankSorted(rank, a) && RankSorted(rank, b) && SameClasses(rank, a, b)
    ensures b != [] && a[0] == b[0]
  {
    var r := rank(a[0]);
    assert OfRank(rank, a, r) == OfRank(rank, b, r) && OfRank(rank, a, r)[0] == a[0];
    KeptCounts(b, HasRank(rank, r));
    assert multiset(OfRank(rank, b, r))[a[0]] > 0;
    assert a[0] in b;
    var q := rank(b[0]);
    assert OfRank(rank, a, q) == OfRank(rank, b, q) && OfRank(rank, b, q)[0] == b[0];
    KeptCounts(a, HasRank(rank, q));
    assert multiset(OfRank(rank, a, q))[b[0]] > 0;
    assert b[0] in a;
    assert q == r;
  }

  /** A list sorted by rank is determined by its classes of equal rank. */
  lemma {:induction false} ClassesDetermine<T(!new)>(rank: T -> nat, a: seq<T>, b: seq<T>)
    requires RankSorted(rank, a) && RankSorted(rank, b) && SameClasses(rank, a, b)
    ensures a == b
  {
    if a != [] {
      HeadOfClass(rank, a, b);
      assert a == [a[0]] + a[1..] && b == [b[0]] + b[1..];
      forall r: nat ensures OfRank(rank, a[1..], r) == OfRank(rank, b[1..], r) {
        assert OfRank(rank, a, r) == OfRank(rank, b, r);
        KeptTail(a[0], a[1..], b[1..], HasRank(rank, r));
      }
      ClassesDetermine(rank, a[1..], b[1..]);
    } else if b != [] {
      HeadOfClass(rank, b, a);
    }
  }

  lemma SortedIsNormal<T(!new)>(rank: T -> nat, s: seq<T>)
    requires RankSorted(rank, s)
    ensures Normalize(rank, s) == s
  {
    NormalizeSorts(rank, s);
    ClassesDetermine(rank, Normalize(rank, s), s);
  }

  lemma {:induction false} NormalizeIdempotent<T(!new)>(rank: T -> nat, s: seq<T>)
    ensures Normalize(rank, Normalize(rank, s)) == Normalize(rank, s)
  {
    NormalizeSorts(rank, s);
    SortedIsNormal(rank, Normalize(rank, s));
  }

  /** No two different items share a rank. */
  ghost predicate RanksSeparate<T>(rank: T -> nat, s: seq<T>) {
    forall i, j | 0 <= i < j < |s| && rank(s[i]) == rank(s[j]) :: s[i] == s[j]
  }

  /** Input order is forgotten exactly on lists whose different items have different ranks. */
  lemma {:induction false} NormalizeForgetsOrderIff<T(!new)>(rank: T -> nat, s: seq<T>)
    ensures RanksSeparate(rank, s)
       <==> forall t | multiset(t) == multiset(s) :: Normalize(rank, t) == Normalize(rank, s)
  {
    if RanksSeparate(rank, s) {
      forall t | multiset(t) == multiset(s) ensures Normalize(rank, t) == Normalize(rank, s) {
        SeparateListsAgree(rank, s, t);
      }
    } else {
      var i, j :| 0 <= i < j < |s| && rank(s[i]) == rank(s[j]) && s[i] != s[j];
      SwapShows(rank, s, i, j);
    }
  }

  lemma {:induction false} SeparateListsAgree<T(!new)>(rank: T -> nat, s: seq<T>, t: seq<T>)
    requires RanksSeparate(rank, s) && multiset(t) == multiset(s)
    ensures Normalize(rank, t) == Normalize(rank, s)
  {
    NormalizeSorts(rank, s);
    NormalizeSorts(rank, t);
    forall r: nat ensures OfRank(rank, Normalize(rank, t), r) == OfRank(rank, Normalize(rank, s), r) {
      KeptCounts(s, HasRank(rank, r));
      KeptCounts(t, HasRank(rank, r));
      ClassIsConstant(rank, s, r);
      ConstantListsAgree(OfRank(rank, s, r), OfRank(rank, t, r));
    }
    ClassesDetermine(rank, Normalize(rank, t), Normalize(rank, s));
  }

  lemma ClassIsConstant<T(!new)>(rank: T -> nat, s: seq<T>, r: nat)
    requires RanksSeparate(rank, s)
    ensures forall x, y | x in OfRank(rank, s, r) && y in OfRank(rank, s, r) :: x == y
  {
    KeptCounts(s, HasRank(rank, r));
    forall x, y | x in OfRank(rank, s, r) && y in OfRank(rank, s, r) ensures x == y {
      assert multiset(OfRank(rank, s, r))[x] > 0 && multiset(OfRank(rank, s, r))[y] > 0;
      assert x in s && y in s;
      var i :| 0 <= i < |s| && s[i] == x;
      var j :| 0 <= j < |s| && s[j] == y;
      assert i < j || j < i || i == j;
    }
  }

  lemma ConstantListsAgree<T(!new)>(a: seq<T>, b: seq<T>)
    requires forall x :: multiset(a)[x] == multiset(b)[x]
    requires forall x, y | x in a && y in a :: x == y
    ensures a == b
  {
    assert multiset(a) == multiset(b);
    assert |multiset(a)| == |a| && |multiset(b)| == |b|;
    forall i | 0 <= i < |a| ensures a[i] == b[i] {
      assert b[i] in multiset(b);
      assert a[i] in a && b[i] in a;
    }
  }

  /** Swapping two different items of one rank changes the result. */
  lemma {:induction false} SwapShows<T(!new)>(rank: T -> nat, s: seq<T>, i: nat, j: nat)
    requires i < j < |s| && rank(s[i]) == rank(s[j]) && s[i] != s[j]
    ensures var t := s[i := s[j]][j := s[i]];
            multiset(t) == multiset(s) && Normalize(rank, t) != Normalize(rank, s)
  {
    var t := s[i := s[j]][j := s[i]];
    var r := rank(s[i]);
    NormalizeSorts(rank, s);
    NormalizeSorts(rank, t);
    FirstDifference(rank, s[..i], s[i..], t[i..], r);
    SwapParts(s, i, j);
    hide OfRank, Normalize;
    assert OfRank(rank, s, r) == OfRank(rank, Normalize(rank, s), r);
    assert OfRank(rank, t, r) == OfRank(rank, Normalize(rank, t), r);
  }

  lemma SwapParts<T>(s: seq<T>, i: nat, j: nat)
    requires i < j < |s|
    ensures var t := s[i := s[j]][j := s[i]];
            s == s[..i] + s[i..] && t == s[..i] + t[i..] && multiset(t) == multiset(s)
  {
  }

  lemma FirstDifference<T>(rank: T -> nat, front: seq<T>, a: seq<T>, b: seq<T>, r: nat)
    requires a != [] && b != [] && rank(a[0]) == r == rank(b[0]) && a[0] != b[0]
    ensures OfRank(rank, front + a, r) != OfRank(rank, front + b, r)
  {
    KeptConcat(front, a, HasRank(rank, r));
    KeptConcat(front, b, HasRank(rank, r));
    var k := |OfRank(rank, front, r)|;
    assert OfRank(rank, front + a, r)[k] == a[0] && OfRank(rank, front + b, r)[k] == b[0];
  }
}
