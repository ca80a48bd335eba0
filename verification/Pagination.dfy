/** Page collectors: bounded page loops against an arbitrary server, and what they return against an honest one. */
module Pagination {
  import opened Outcomes
  import opened SafeIntegers

  const PAGE_SIZE := 100
  const MAX_PAGES := 10

  /** One response. Other stands for a failed request and for every shape the collectors refuse. */
  datatype Page<+T> =
    | Listed(items: seq<T>)
    | Artifacts(items: seq<T>, totalCount: int)
    | Other

  predicate IsAcceptable<T>(p: Page<T>) {
    !p.Other? && |p.items| <= PAGE_SIZE && (p.Artifacts? ==> IsSafeCount(p.totalCount))
  }

  // ---------- what a successful collection is ----------

  /** The items of the first k pages. */
  function Items<T>(serve: nat -> Page<T>, k: nat): seq<T> {
    if k == 0 then [] else Items(serve, k - 1) + (if serve(k).Other? then [] else serve(k).items)
  }

  /** Pages 1 to k are acceptable, all full but possibly the last, and every total announced among them is the same. */
  ghost predicate Agree<T>(serve: nat -> Page<T>, k: nat) {
    && (forall p | 1 <= p <= k :: IsAcceptable(serve(p)))
    && (forall p, q | 1 <= p < q <= k && serve(p).Artifacts? && serve(q).Artifacts? ::
          serve(p).totalCount == serve(q).totalCount)
  }

  ghost predicate AllFull<T>(serve: nat -> Page<T>, k: nat) {
    forall p | 1 <= p <= k :: IsFull(serve, p)
  }

  predicate IsFull<T>(serve: nat -> Page<T>, p: nat) {
    !serve(p).Other? && |serve(p).items| == PAGE_SIZE
  }

  predicate IsShort<T>(serve: nat -> Page<T>, p: nat) {
    !serve(p).Other? && |serve(p).items| < PAGE_SIZE
  }

  /** The collection stops well at page k: the first short page, with a matching total when that page announces one. */
  ghost predicate StopsAt<T>(serve: nat -> Page<T>, k: nat) {
    && 1 <= k <= MAX_PAGES
    && Agree(serve, k)
    && AllFull(serve, k - 1)
    && IsShort(serve, k)
    && (serve(k).Artifacts? ==> |Items(serve, k)| == serve(k).totalCount)
  }

  ghost predicate IsOutcome<T>(serve: nat -> Page<T>, r: Option<seq<T>>) {
    match r
    case Some(items) => exists k: nat :: StopsAt(serve, k) && items == Items(serve, k)
    case None => forall k: nat :: !StopsAt(serve, k)
  }

  /** The total carried from page to page: the one every earlier artifact page announced. */
  ghost predicate CarriesTotal<T>(serve: nat -> Page<T>, k: nat, total: Option<int>) {
    && (total.Some? <==> exists p | 1 <= p <= k :: serve(p).Artifacts?)
    && (forall p | 1 <= p <= k && serve(p).Artifacts? :: total == Some(serve(p).totalCount))
  }

  lemma NoStopBefore<T>(serve: nat -> Page<T>, page: nat)
    requires page >= 1 && AllFull(serve, page - 1)
    ensures forall k: nat | StopsAt(serve, k) :: k >= page
  {
    forall k: nat | StopsAt(serve, k) ensures k >= page {
      assert 1 <= k < page ==> IsFull(serve, k);
    }
  }

  /** A page that breaks the agreement ends every possible collection. */
  lemma RefusedPage<T>(serve: nat -> Page<T>, page: nat)
    requires page >= 1 && AllFull(serve, page - 1) && !Agree(serve, page)
    ensures forall k: nat :: !StopsAt(serve, k)
  {
    NoStopBefore(serve, page);
    assert forall k: nat | k >= page && Agree(serve, k) :: Agree(serve, page);
  }

  /** A short page is the only place to stop. */
  lemma ShortPage<T>(serve: nat -> Page<T>, page: nat)
    requires page >= 1 && AllFull(serve, page - 1) && IsShort(serve, page)
    ensures forall k: nat | StopsAt(serve, k) :: k == page
  {
    NoStopBefore(serve, page);
    forall k: nat | StopsAt(serve, k) ensures k == page {
      assert k > page ==> IsFull(serve, page);
    }
  }

  lemma NoStopInTime<T>(serve: nat -> Page<T>)
    requires AllFull(serve, MAX_PAGES)
    ensures forall k: nat :: !StopsAt(serve, k)
  {
    NoStopBefore(serve, MAX_PAGES + 1);
  }

  function NextTotal<T>(p: Page<T>, total: Option<int>): Option<int> {
    if p.Artifacts? then Some(p.totalCount) else total
  }

  /** One more page keeps the agreement exactly when it is acceptable and does not contradict the carried total. */
  lemma Advance<T>(serve: nat -> Page<T>, page: nat, total: Option<int>)
    requires page >= 1 && Agree(serve, page - 1) && CarriesTotal(serve, page - 1, total)
    ensures Agree(serve, page) <==>
              && IsAcceptable(serve(page))
              && (serve(page).Artifacts? && total.Some? ==> total.value == serve(page).totalCount)
    ensures Agree(serve, page) ==> CarriesTotal(serve, page, NextTotal(serve(page), total))
  {
    if serve(page).Artifacts? && total.Some? {
      var p :| 1 <= p <= page - 1 && serve(p).Artifacts?;
      assert total == Some(serve(p).totalCount);
    }
  }

  /** A server answers every page request in some fixed way; the requests it got are on record. */
  class Server<T> {
    const serve: nat -> Page<T>
    ghost var asked: seq<nat>

    constructor (serve: nat -> Page<T>)
      ensures this.serve == serve && asked == []
    {
      this.serve, asked := serve, [];
    }

    method Request(page: nat) returns (p: Page<T>)
      modifies this
      ensures p == serve(page) && asked == old(asked) + [page]
    {
      asked := asked + [page];
      return serve(page);
    }
  }

  /** Pages 1 to k, in order. */
  ghost function FirstPages(k: nat): (pages: seq<nat>)
    ensures |pages| == k
  {
    if k == 0 then [] else FirstPages(k - 1) + [k]
  }

  /** Asking for pages 1 to k and no more: each was asked for because the ones before it were full and agreed. */
  ghost predicate AsksFor<T>(serve: nat -> Page<T>, k: nat, r: Option<seq<T>>) {
    1 <= k <= MAX_PAGES && AllFull(serve, k - 1) && Agree(serve, k - 1) && (r.Some? ==> StopsAt(serve, k))
  }

  method CollectPages<T>(s: Server<T>) returns (r: Option<seq<T>>, ghost asked: nat)
    modifies s
    ensures IsOutcome(s.serve, r)
    ensures s.asked == old(s.asked) + FirstPages(asked) && AsksFor(s.serve, asked, r)
  {
    hide Agree, CarriesTotal, Items;
    var output: seq<T> := [];
    var totalCount: Option<int> := None;
    asked := 0;
    NothingAsked(s.serve);
    for page := 1 to MAX_PAGES + 1
      invariant asked == page - 1 && s.asked == old(s.asked) + FirstPages(asked)
      invariant Agree(s.serve, page - 1) && AllFull(s.serve, page - 1)
      invariant CarriesTotal(s.serve, page - 1, totalCount)
      invariant output == Items(s.serve, page - 1)
    {
      var value := s.Request(page);
      Advance(s.serve, page, totalCount);
      OneMorePage(s.serve, page);
      asked := page;
      if value.Listed? {
        if |value.items| > PAGE_SIZE { RefusedPage(s.serve, page); return None, asked; }
        output := output + value.items;
        if |value.items| < PAGE_SIZE {
          assert StopsAt(s.serve, page);
          return Some(output), asked;
        }
        continue;
      }
      if value.Other? { RefusedPage(s.serve, page); return None, asked; }
      var count := value.totalCount;
      if !IsSafeCount(count) || (totalCount.Some? && totalCount.value != count) || |value.items| > PAGE_SIZE {
        RefusedPage(s.serve, page);
        return None, asked;
      }
      totalCount := Some(count);
      output := output + value.items;
      if |value.items| < PAGE_SIZE {
        if |output| != count {
          ShortPage(s.serve, page);
          return None, asked;
        }
        assert StopsAt(s.serve, page);
        return Some(output), asked;
      }
    }
    NoStopInTime(s.serve);
    AgreedBefore(s.serve, MAX_PAGES);
    return None, asked;
  }

  lemma NothingAsked<T>(serve: nat -> Page<T>)
    ensures Agree(serve, 0) && AllFull(serve, 0) && CarriesTotal(serve, 0, None) && Items(serve, 0) == []
  {
  }

  lemma AgreedBefore<T>(serve: nat -> Page<T>, page: nat)
    requires page >= 1 && Agree(serve, page)
    ensures Agree(serve, page - 1)
  {
  }

  lemma OneMorePage<T>(serve: nat -> Page<T>, page: nat)
    requires page >= 1
    ensures Items(serve, page) == Items(serve, page - 1) + (if serve(page).Other? then [] else serve(page).items)
    ensures AllFull(serve, page - 1) && IsFull(serve, page) ==> AllFull(serve, page)
  {
  }

  /** The collector that takes lists only treats an artifact page as any other refused shape. */
  function ListsOnly<T>(serve: nat -> Page<T>): nat -> Page<T> {
    (p: nat) => if serve(p).Listed? then serve(p) else Other
  }

  method CollectLists<T>(s: Server<T>) returns (r: Option<seq<T>>, ghost asked: nat)
    modifies s
    ensures IsOutcome(ListsOnly(s.serve), r)
    ensures s.asked == old(s.asked) + FirstPages(asked) && AsksFor(ListsOnly(s.serve), asked, r)
  {
    hide Agree, CarriesTotal, Items;
    var values: seq<T> := [];
    ghost var lists := ListsOnly(s.serve);
    asked := 0;
    NothingAsked(lists);
    for page := 1 to MAX_PAGES + 1
      invariant asked == page - 1 && s.asked == old(s.asked) + FirstPages(asked)
      invariant Agree(lists, page - 1) && AllFull(lists, page - 1)
      invariant CarriesTotal(lists, page - 1, None)
      invariant values == Items(lists, page - 1)
    {
      var result := s.Request(page);
      Advance(lists, page, None);
      OneMorePage(lists, page);
      asked := page;
      if !result.Listed? || |result.items| > PAGE_SIZE { RefusedPage(lists, page); return None, asked; }
      values := values + result.items;
      if |result.items| < PAGE_SIZE {
        assert StopsAt(lists, page);
        return Some(values), asked;
      }
    }
    NoStopInTime(lists);
    AgreedBefore(lists, MAX_PAGES);
    return None, asked;
  }

  /** A server fixes its outcome: at most one page number is a stop. */
  lemma {:induction false} OutcomeUnique<T>(serve: nat -> Page<T>, a: Option<seq<T>>, b: Option<seq<T>>)
    requires IsOutcome(serve, a) && IsOutcome(serve, b)
    ensures a == b
  {
    if a.Some? && b.Some? {
      var k: nat :| StopsAt(serve, k) && a.value == Items(serve, k);
      var m: nat :| StopsAt(serve, m) && b.value == Items(serve, m);
      ShortPage(serve, k);
    }
  }

  // ---------- honest servers ----------

  function Slice<T>(all: seq<T>, p: nat): seq<T> {
    if p == 0 || (p - 1) * PAGE_SIZE >= |all| then []
    else if p * PAGE_SIZE <= |all| then all[(p - 1) * PAGE_SIZE..p * PAGE_SIZE]
    else all[(p - 1) * PAGE_SIZE..]
  }

  /** A server that cuts a fixed list into pages, with or without announcing its length. */
  ghost predicate Serves<T(!new)>(serve: nat -> Page<T>, all: seq<T>) {
    forall p: nat | p >= 1 :: serve(p) == Listed(Slice(all, p)) || serve(p) == Artifacts(Slice(all, p), |all|)
  }

  /** What the first k pages hold. */
  function Taken<T>(all: seq<T>, k: nat): seq<T> {
    if k * PAGE_SIZE <= |all| then all[..k * PAGE_SIZE] else all
  }

  lemma OneMoreSlice<T>(all: seq<T>, k: nat)
    requires k > 0
    ensures Taken(all, k) == Taken(all, k - 1) + Slice(all, k)
  {
  }

  lemma {:induction false} HonestPrefix<T(!new)>(serve: nat -> Page<T>, all: seq<T>, k: nat)
    requires Serves(serve, all)
    ensures Items(serve, k) == Taken(all, k)
  {
    hide Taken, Slice;
    if k > 0 {
      HonestPrefix(serve, all, k - 1);
      OneMoreSlice(all, k);
      assert serve(k).items == Slice(all, k);
    } else {
      assert Taken(all, 0) == [] by { NoneTaken(all); }
    }
  }

  lemma NoneTaken<T>(all: seq<T>)
    ensures Taken(all, 0) == []
  {
  }

  /** Against an honest server the collector returns exactly the list when it has fewer than 1000 items, else fails. */
  lemma {:induction false} HonestServerIsRead<T(!new)>(serve: nat -> Page<T>, all: seq<T>, r: Option<seq<T>>)
    requires Serves(serve, all) && IsOutcome(serve, r) && |all| <= MAX_SAFE_INTEGER
    ensures r == if |all| < PAGE_SIZE * MAX_PAGES then Some(all) else None
  {
    var last := |all| / PAGE_SIZE + 1;
    assert forall p: nat | p >= 1 :: !serve(p).Other? && serve(p).items == Slice(all, p);
    assert forall p: nat | 1 <= p < last :: |Slice(all, p)| == PAGE_SIZE;
    assert forall p: nat | p >= last :: |Slice(all, p)| < PAGE_SIZE;
    assert AllFull(serve, last - 1);
    HonestPrefix(serve, all, last);
    if last <= MAX_PAGES {
      assert forall p: nat | 1 <= p <= last :: IsAcceptable(serve(p));
      assert StopsAt(serve, last);
      OutcomeUnique(serve, r, Some(all));
    } else {
      forall k: nat ensures !StopsAt(serve, k) {
        assert 1 <= k < last ==> IsFull(serve, k);
      }
    }
  }
}
