/** What several components say about sequences: repetitions, permutations, and selection by a predicate. */
module Sequences {
  ghost predicate NoRepeats<T>(s: seq<T>) {
    forall i, j | 0 <= i < j < |s| :: s[i] != s[j]
  }

  ghost predicate SameElements<T(!new)>(a: seq<T>, b: seq<T>) {
    forall x :: x in a <==> x in b
  }

  lemma Reassociate<T>(a: seq<T>, b: seq<T>, c: seq<T>)
    ensures (a + b) + c == a + (b + c)
  {
  }

  lemma {:induction false} NoRepeatsByCount<T(!new)>(s: seq<T>)
    ensures NoRepeats(s) <==> forall x :: multiset(s)[x] <= 1
  {
    if s != [] {
      var k := |s| - 1;
      NoRepeatsByCount(s[..k]);
      assert s == s[..k] + [s[k]];
      assert NoRepeats(s) <==> NoRepeats(s[..k]) && s[k] !in s[..k] by {
        assert forall j | 0 <= j < k :: s[..k][j] == s[j];
      }
      var before := multiset(s[..k]);
      assert multiset(s) == before + multiset{s[k]};
      assert s[k] in s[..k] <==> before[s[k]] >= 1;
      assert forall x :: multiset(s)[x] == before[x] + (if x == s[k] then 1 else 0);
    }
  }

  /** Reordering keeps the elements, and repeats none that was not repeated. */
  lemma {:induction false} PermutationKeeps<T(!new)>(a: seq<T>, b: seq<T>)
    requires multiset(a) == multiset(b)
    ensures SameElements(a, b) && |a| == |b| && (NoRepeats(a) <==> NoRepeats(b))
  {
    assert forall x :: x in a <==> x in multiset(a);
    assert forall x :: x in b <==> x in multiset(b);
    assert |multiset(a)| == |a| && |multiset(b)| == |b|;
    NoRepeatsByCount(a);
    NoRepeatsByCount(b);
  }

  /** The first list, and what of the second is new, each time where it first occurs. */
  function AddNew<T(==)>(s: seq<T>, more: seq<T>): seq<T> {
    if more == [] then s
    else
      var front := AddNew(s, more[..|more| - 1]);
      if more[|more| - 1] in front then front else front + [more[|more| - 1]]
  }

  // ---------- selection ----------

  /** The elements with this property, in order. */
  function Kept<T>(s: seq<T>, p: T -> bool): seq<T> {
    if s == [] then []
    else (if p(s[0]) then [s[0]] else []) + Kept(s[1..], p)
  }

  lemma KeptCons<T>(x: T, rest: seq<T>, p: T -> bool)
    ensures Kept([x] + rest, p) == (if p(x) then [x] else []) + Kept(rest, p)
  {
    assert ([x] + rest)[1..] == rest;
  }

  lemma NoneKept<T>(p: T -> bool)
    ensures Kept([], p) == []
  {
  }

  lemma KeptTail<T>(x: T, s: seq<T>, t: seq<T>, p: T -> bool)
    requires Kept([x] + s, p) == Kept([x] + t, p)
    ensures Kept(s, p) == Kept(t, p)
  {
    hide Kept;
    KeptCons(x, s, p);
    KeptCons(x, t, p);
    PrefixInjective(if p(x) then [x] else [], Kept(s, p), Kept(t, p));
  }

  lemma PrefixInjective<T>(front: seq<T>, a: seq<T>, b: seq<T>)
    requires front + a == front + b
    ensures a == b
  {
    assert (front + a)[|front|..] == a;
    assert (front + b)[|front|..] == b;
  }

  lemma {:induction false} KeptConcat<T>(a: seq<T>, b: seq<T>, p: T -> bool)
    ensures Kept(a + b, p) == Kept(a, p) + Kept(b, p)
  {
    hide Kept;
    if a == [] {
      assert a + b == b && Kept(a, p) == [] by { NoneKept(p); }
    } else {
      KeptConcat(a[1..], b, p);
      KeptCons(a[0], a[1..] + b, p);
      KeptCons(a[0], a[1..], p);
      assert a + b == [a[0]] + (a[1..] + b) && a == [a[0]] + a[1..];
    }
  }

  lemma KeptSnoc<T>(front: seq<T>, x: T, p: T -> bool)
    ensures Kept(front + [x], p) == Kept(front, p) + (if p(x) then [x] else [])
  {
    KeptConcat(front, [x], p);
  }

  lemma {:induction false} KeptMeaning<T(!new)>(s: seq<T>, p: T -> bool)
    ensures |Kept(s, p)| <= |s|
    ensures forall x :: x in Kept(s, p) <==> x in s && p(x)
  {
    if s != [] {
      KeptMeaning(s[1..], p);
      assert s == [s[0]] + s[1..];
    }
  }

  lemma {:induction false} KeptMonotone<T(!new)>(s: seq<T>, p: T -> bool, q: T -> bool)
    requires forall x :: p(x) ==> q(x)
    ensures |Kept(s, p)| <= |Kept(s, q)|
  {
    if s != [] {
      KeptMonotone(s[1..], p, q);
    }
  }

  lemma {:induction false} KeptAgrees<T(!new)>(s: seq<T>, p: T -> bool, q: T -> bool)
    requires forall x :: p(x) <==> q(x)
    ensures Kept(s, p) == Kept(s, q)
  {
    if s != [] {
      KeptAgrees(s[1..], p, q);
    }
  }

  /** Selecting twice is selecting once by the stricter property. */
  lemma {:induction false} KeptTwice<T(!new)>(s: seq<T>, p: T -> bool, q: T -> bool)
    requires forall x :: q(x) ==> p(x)
    ensures Kept(Kept(s, p), q) == Kept(s, q)
  {
    if s != [] {
      KeptTwice(s[1..], p, q);
      KeptCons(s[0], Kept(s[1..], p), q);
      assert Kept(s, p) == if p(s[0]) then [s[0]] + Kept(s[1..], p) else Kept(s[1..], p);
    }
  }

  lemma {:induction false} KeptCounts<T(!new)>(s: seq<T>, p: T -> bool)
    ensures forall x :: multiset(Kept(s, p))[x] == if p(x) then multiset(s)[x] else 0
  {
    if s != [] {
      KeptCounts(s[1..], p);
      assert s == [s[0]] + s[1..];
    }
  }

  /** Selection commutes with reordering. */
  lemma {:induction false} KeptForgetsOrder<T(!new)>(a: seq<T>, b: seq<T>, p: T -> bool)
    requires multiset(a) == multiset(b)
    ensures multiset(Kept(a, p)) == multiset(Kept(b, p))
    ensures |Kept(a, p)| == |Kept(b, p)|
  {
    KeptCounts(a, p);
    KeptCounts(b, p);
    var x, y := multiset(Kept(a, p)), multiset(Kept(b, p));
    assert forall e :: x[e] == y[e];
    assert x == y;
    assert |x| == |Kept(a, p)| && |y| == |Kept(b, p)|;
  }
}
