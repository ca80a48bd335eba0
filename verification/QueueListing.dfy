/** Listing the account's queues page by page, and picking the one pair the run works on. */
module QueueListing {
  import opened Outcomes
  import opened SafeIntegers
  import opened QueueModel
  import opened QueueProvider
  import Pagination

  predicate IsQueueId(s: string) {
    |s| == 32 && forall c | c in s :: '0' <= c <= '9' || 'a' <= c <= 'f'
  }

  predicate IsAlphanumeric(c: char) {
    '0' <= c <= '9' || 'a' <= c <= 'z' || 'A' <= c <= 'Z'
  }

  predicate IsQueueName(s: string) {
    1 <= |s| <= 128 && IsAlphanumeric(s[0]) && forall c | c in s :: IsAlphanumeric(c) || c in "._-"
  }

  function InvalidListing(): Error {
    Error(QueueIdentityInvalid, Some(Diagnostic(QueueList, ProviderResponseInvalid, None)))
  }

  function ParseQueue(raw: RawQueue): Option<QueueEntry> {
    if raw.id.Some? && IsQueueId(raw.id.value) && raw.name.Some? && IsQueueName(raw.name.value)
    then Some(QueueEntry(raw.id.value, raw.name.value))
    else None
  }

  predicate PageInfoAccepted(info: PageInfo, page: nat, maxPages: nat, length: nat, totalCount: Option<int>) {
    && info.page == Some(page)
    && info.totalPages.Some? && 1 <= info.totalPages.value <= maxPages
    && info.totalCount.Some? && IsSafeCount(info.totalCount.value)
    && info.count == Some(length) && length <= LIST_PAGE_SIZE
    && (totalCount.Some? ==> info.totalCount == totalCount)
  }

  ghost predicate DistinctEntries(queues: seq<QueueEntry>) {
    forall i, j :: 0 <= i < j < |queues| ==> queues[i].id != queues[j].id && queues[i].name != queues[j].name
  }

  /** The entries one listing call contributed, in reply order. */
  ghost function Contribution(e: Event): seq<QueueEntry> {
    if e.Listed? && e.listing.Ok? && e.listing.value.result.Some? then Parsed(e.listing.value.result.value) else []
  }

  ghost function Parsed(raws: seq<RawQueue>): seq<QueueEntry> {
    if raws == [] then []
    else Parsed(raws[..|raws| - 1]) + (match ParseQueue(raws[|raws| - 1]) case Some(q) => [q] case None => [])
  }

  ghost function Contributions(calls: seq<Event>): seq<QueueEntry> {
    if calls == [] then [] else Contributions(calls[..|calls| - 1]) + Contribution(calls[|calls| - 1])
  }

  /** The calls asked for pages 1, 2, ... in turn, and no more than maxPages of them. */
  ghost predicate IsPageWalk(calls: seq<Event>, maxPages: nat) {
    |calls| <= maxPages && forall i :: 0 <= i < |calls| ==> calls[i].Listed? && calls[i].number == i + 1
  }

  /** Every reply was accepted and announced this total. */
  ghost predicate AllAnnounce(calls: seq<Event>, total: nat) {
    forall i :: 0 <= i < |calls| ==>
      && calls[i].Listed? && calls[i].listing.Ok?
      && calls[i].listing.value.info.Some? && calls[i].listing.value.info.value.totalCount == Some(total)
  }

  /** The list with the queues of one page added, unless one is malformed or a repetition. */
  ghost function Appended(queues: seq<QueueEntry>, raws: seq<RawQueue>): Option<seq<QueueEntry>> {
    if (forall raw :: raw in raws ==> ParseQueue(raw).Some?) && DistinctEntries(queues + Parsed(raws))
    then Some(queues + Parsed(raws)) else None
  }

  /** What the page loop carries from one reply to the next. */
  datatype Progress = Progress(queues: seq<QueueEntry>, totalPages: int, totalCount: Option<int>)

  /** The loop body, as a function of the reply. */
  ghost function PageStep(s: Progress, e: Event, page: nat, maxPages: nat): Result<Progress, Error>
    requires e.Listed?
  {
    if e.listing.Err? then Err(e.listing.error)
    else if e.listing.value.result.None? || e.listing.value.info.None? then Err(InvalidListing())
    else
      var raws, info := e.listing.value.result.value, e.listing.value.info.value;
      if !PageInfoAccepted(info, page, maxPages, |raws|, s.totalCount) then Err(InvalidListing())
      else if Appended(s.queues, raws).None? then Err(InvalidListing())
      else Ok(Progress(Appended(s.queues, raws).value, info.totalPages.value, info.totalCount))
  }

  ghost function Replayed(calls: seq<Event>, maxPages: nat): Result<Progress, Error>
    requires forall i :: 0 <= i < |calls| ==> calls[i].Listed?
  {
    if calls == [] then Ok(Progress([], 1, None))
    else
      var n := |calls| - 1;
      match Replayed(calls[..n], maxPages)
      case Err(e) => Err(e)
      case Ok(s) => PageStep(s, calls[n], n + 1, maxPages)
  }

  /** The outcome of the listing, as a function of the replies it got. */
  ghost function ListedQueues(calls: seq<Event>, maxPages: nat): Result<seq<QueueEntry>, Error>
    requires forall i :: 0 <= i < |calls| ==> calls[i].Listed?
  {
    match Replayed(calls, maxPages)
    case Err(e) => Err(e)
    case Ok(s) =>
      if s.totalCount.Some? && |s.queues| != s.totalCount.value then Err(InvalidListing()) else Ok(s.queues)
  }

  // ---------- what the listing accepts ----------

  /** 32 lower-case hexadecimal digits. */
  ghost predicate NamesId(id: string) {
    |id| == 32 && forall k | 0 <= k < |id| :: 48 <= id[k] as int <= 57 || 97 <= id[k] as int <= 102
  }

  ghost predicate IsAsciiLetterOrDigit(code: int) {
    48 <= code <= 57 || 65 <= code <= 90 || 97 <= code <= 122
  }

  /** 1 to 128 letters, digits, dots, underscores and hyphens, the first a letter or a digit. */
  ghost predicate NamesQueue(name: string) {
    && 0 < |name| < 129
    && forall k | 0 <= k < |name| ::
      IsAsciiLetterOrDigit(name[k] as int) || (k > 0 && (name[k] == '.' || name[k] == '_' || name[k] == '-'))
  }

  /** A queue of a reply is the id and the name it gives, if both are given and well-formed. */
  lemma {:induction false} ParseQueueExactly(raw: RawQueue, q: QueueEntry)
    ensures ParseQueue(raw) == Some(q)
       <==> raw == RawQueue(Some(q.id), Some(q.name)) && NamesId(q.id) && NamesQueue(q.name)
  {
    assert forall k | 0 <= k < |q.id| :: q.id[k] in q.id;
    assert forall k | 0 <= k < |q.name| :: q.name[k] in q.name;
  }

  /** These records give these queues, in order. */
  ghost predicate Give(raws: seq<RawQueue>, queues: seq<QueueEntry>) {
    && |raws| == |queues|
    && forall k | 0 <= k < |raws| ::
      && raws[k] == RawQueue(Some(queues[k].id), Some(queues[k].name))
      && NamesId(queues[k].id) && NamesQueue(queues[k].name)
  }

  lemma {:induction false} ParsedExactly(raws: seq<RawQueue>, queues: seq<QueueEntry>)
    ensures (forall raw | raw in raws :: ParseQueue(raw).Some?) && Parsed(raws) == queues <==> Give(raws, queues)
  {
    hide ParseQueue, NamesId, NamesQueue;
    if raws != [] {
      var n := |raws| - 1;
      assert raws == raws[..n] + [raws[n]];
      if ParseQueue(raws[n]).Some? {
        var last := ParseQueue(raws[n]).value;
        ParseQueueExactly(raws[n], last);
        if queues != [] {
          ParsedExactly(raws[..n], queues[..|queues| - 1]);
          assert queues == queues[..|queues| - 1] + [queues[|queues| - 1]];
          ParseQueueExactly(raws[n], queues[|queues| - 1]);
        }
        ParsedExactly(raws[..n], Parsed(raws[..n]));
      } else if |queues| == |raws| {
        ParseQueueExactly(raws[n], queues[n]);
      }
    }
  }

  /**
    A reply is accepted exactly when it gives queues not listed yet, announces its own
    page number and length and at least one page and at most the bound, and repeats
    the total announced before; any other reply ends the listing.
   */
  lemma {:induction false} PageStepExactly(s: Progress, e: Event, page: nat, maxPages: nat, r: Progress)
    requires e.Listed? && e.listing.Ok?
    ensures PageStep(s, e, page, maxPages) == Ok(r)
       <==> exists raws, more, total ::
            && e.listing.value == ListReply(
                 Some(raws), Some(PageInfo(Some(page), Some(r.totalPages), Some(total), Some(|raws|))))
            && 1 <= r.totalPages <= maxPages && 0 <= total <= 9007199254740991 && |raws| <= 100
            && s.totalCount in {None, Some(total)} && r.totalCount == Some(total)
            && Give(raws, more) && r.queues == s.queues + more && DistinctEntries(r.queues)
    ensures PageStep(s, e, page, maxPages).Err? ==>
      PageStep(s, e, page, maxPages).error
      == Error(QueueIdentityInvalid, Some(Diagnostic(QueueList, ProviderResponseInvalid, None)))
  {
    hide DistinctEntries, Give, ParseQueue, Parsed;
    var reply := e.listing.value;
    if reply.result.Some? && reply.info.Some? {
      var raws, info := reply.result.value, reply.info.value;
      ParsedExactly(raws, Parsed(raws));
      if PageStep(s, e, page, maxPages) == Ok(r) {
        assert reply == ListReply(
          Some(raws), Some(PageInfo(Some(page), Some(r.totalPages), Some(info.totalCount.value), Some(|raws|))));
      }
      forall more | Give(raws, more) ensures more == Parsed(raws) && forall raw | raw in raws :: ParseQueue(raw).Some? {
        ParsedExactly(raws, more);
      }
    }
  }

  // ---------- an honest account ----------

  function PagesOf(count: nat): nat {
    if count == 0 then 1 else (count + 99) / 100
  }

  function AsRaw(q: QueueEntry): RawQueue {
    RawQueue(Some(q.id), Some(q.name))
  }

  function AsRaws(queues: seq<QueueEntry>): seq<RawQueue> {
    seq(|queues|, i requires 0 <= i < |queues| => AsRaw(queues[i]))
  }

  /** The replies of a server that cuts this list into pages of 100 and says so. */
  ghost predicate IsHonest(calls: seq<Event>, all: seq<QueueEntry>) {
    forall k: nat | k < |calls| ::
      var slice := Pagination.Slice(all, k + 1);
      && calls[k].Listed?
      && calls[k].listing == Ok(ListReply(
           Some(AsRaws(slice)), Some(PageInfo(Some(k + 1), Some(PagesOf(|all|)), Some(|all|), Some(|slice|)))))
  }

  ghost predicate IsAccount(all: seq<QueueEntry>) {
    DistinctEntries(all) && forall k | 0 <= k < |all| :: NamesId(all[k].id) && NamesQueue(all[k].name)
  }

  /** An account within the bound is listed entirely and in order, with exactly the requests it takes. */
  lemma {:induction false} HonestAccountIsListed(calls: seq<Event>, all: seq<QueueEntry>, maxPages: nat)
    requires IsAccount(all) && IsHonest(calls, all) && |calls| == PagesOf(|all|) <= maxPages
    requires |all| <= 9007199254740991
    ensures ListedQueues(calls, maxPages) == Ok(all)
  {
    HonestPrefix(calls, all, maxPages, |calls|);
    assert calls[..|calls|] == calls;
    hide IsAccount, IsHonest, Replayed;
    assert Pagination.Taken(all, |calls|) == all;
  }

  lemma {:induction false} HonestPrefix(calls: seq<Event>, all: seq<QueueEntry>, maxPages: nat, n: nat)
    requires IsAccount(all) && IsHonest(calls, all) && n <= |calls| <= PagesOf(|all|) <= maxPages
    requires |all| <= 9007199254740991
    ensures forall i :: 0 <= i < n ==> calls[..n][i].Listed?
    ensures Replayed(calls[..n], maxPages)
         == Ok(if n == 0 then Progress([], 1, None)
               else Progress(Pagination.Taken(all, n), PagesOf(|all|), Some(|all|)))
  {
    if n > 0 {
      hide IsAccount, PageStep, Pagination.Slice, Pagination.Taken;
      HonestPrefix(calls, all, maxPages, n - 1);
      assert calls[..n][..n - 1] == calls[..n - 1];
      HonestStep(calls[n - 1], all, maxPages, n);
    }
  }

  lemma {:induction false} HonestStep(e: Event, all: seq<QueueEntry>, maxPages: nat, n: nat)
    requires IsAccount(all) && 0 < n && PagesOf(|all|) <= maxPages && |all| <= 9007199254740991
    requires var slice := Pagination.Slice(all, n);
      && e.Listed?
      && e.listing == Ok(ListReply(
           Some(AsRaws(slice)), Some(PageInfo(Some(n), Some(PagesOf(|all|)), Some(|all|), Some(|slice|)))))
    ensures var s := if n == 1 then Progress([], 1, None)
                     else Progress(Pagination.Taken(all, n - 1), PagesOf(|all|), Some(|all|));
            PageStep(s, e, n, maxPages) == Ok(Progress(Pagination.Taken(all, n), PagesOf(|all|), Some(|all|)))
  {
    hide Pagination.Slice, Pagination.Taken;
    var slice := Pagination.Slice(all, n);
    var s := if n == 1 then Progress([], 1, None)
             else Progress(Pagination.Taken(all, n - 1), PagesOf(|all|), Some(|all|));
    var r := Progress(Pagination.Taken(all, n), PagesOf(|all|), Some(|all|));
    Pagination.OneMoreSlice(all, n);
    Pagination.NoneTaken(all);
    SliceIsShort(all, n);
    SliceIsValid(all, n);
    PageStepExactly(s, e, n, maxPages, r);
    hide PageStep;
    assert |AsRaws(slice)| == |slice|;
  }

  lemma SliceIsShort(all: seq<QueueEntry>, n: nat)
    ensures |Pagination.Slice(all, n)| <= 100 && PagesOf(|all|) >= 1
  {
  }

  lemma SliceIsValid(all: seq<QueueEntry>, n: nat)
    requires IsAccount(all)
    ensures Give(AsRaws(Pagination.Slice(all, n)), Pagination.Slice(all, n))
    ensures DistinctEntries(Pagination.Taken(all, n))
  {
  }

  // ---------- the inner loop ----------

  /** The inner loop over one page: adds its queues to the list, unless one is malformed or a repetition. */
  method AppendPage(queues: seq<QueueEntry>, raws: seq<RawQueue>) returns (r: Option<seq<QueueEntry>>)
    requires DistinctEntries(queues)
    ensures r == Appended(queues, raws)
    ensures r.Some? ==> |r.value| == |queues| + |raws| && DistinctEntries(r.value)
  {
    hide DistinctEntries, ParseQueue, Parsed;
    var out := queues;
    var names := set q | q in queues :: q.name;
    var ids := set q | q in queues :: q.id;
    var k := 0;
    NoneParsed(raws);
    while k < |raws|
      invariant 0 <= k <= |raws|
      invariant out == queues + Parsed(raws[..k]) && |out| == |queues| + k && DistinctEntries(out)
      invariant forall i :: 0 <= i < k ==> ParseQueue(raws[i]).Some?
      invariant names == set q | q in out :: q.name
      invariant ids == set q | q in out :: q.id
    {
      OneMoreParsed(raws, k);
      var queue := ParseQueue(raws[k]);
      if queue.None? {
        assert raws[k] in raws;
        return None;
      }
      if queue.value.name in names || queue.value.id in ids {
        ParsedPrefix(raws, k + 1);
        assert (queues + Parsed(raws))[..|out| + 1] == out + [queue.value];
        RepetitionStays(out, queue.value, queues + Parsed(raws));
        return None;
      }
      ExtendDistinct(out, queue.value);
      names := names + {queue.value.name};
      ids := ids + {queue.value.id};
      out := out + [queue.value];
      k := k + 1;
    }
    assert raws[..|raws|] == raws;
    return Some(out);
  }

  lemma NoneParsed(raws: seq<RawQueue>)
    ensures Parsed(raws[..0]) == []
  {
  }

  lemma OneMoreParsed(raws: seq<RawQueue>, k: nat)
    requires k < |raws|
    ensures ParseQueue(raws[k]).Some? ==> Parsed(raws[..k + 1]) == Parsed(raws[..k]) + [ParseQueue(raws[k]).value]
  {
    assert raws[..k + 1][..k] == raws[..k];
  }

  lemma ExtendDistinct(out: seq<QueueEntry>, q: QueueEntry)
    requires DistinctEntries(out) && forall e :: e in out ==> e.id != q.id && e.name != q.name
    ensures DistinctEntries(out + [q])
  {
    assert forall i | 0 <= i < |out| :: out[i] in out && (out + [q])[i] == out[i];
  }

  lemma {:induction false} ParsedPrefix(raws: seq<RawQueue>, k: nat)
    requires k <= |raws|
    ensures Parsed(raws[..k]) <= Parsed(raws)
  {
    if k == |raws| {
      assert raws[..k] == raws;
    } else {
      var front := raws[..|raws| - 1];
      ParsedPrefix(front, k);
      assert front[..k] == raws[..k];
    }
  }

  lemma {:induction false} RepetitionStays(out: seq<QueueEntry>, q: QueueEntry, all: seq<QueueEntry>)
    requires out + [q] <= all
    requires exists e :: e in out && (e.id == q.id || e.name == q.name)
    ensures !DistinctEntries(all)
  {
    var e :| e in out && (e.id == q.id || e.name == q.name);
    var i :| 0 <= i < |out| && out[i] == e;
    assert all[i] == (out + [q])[i] == e && all[|out|] == (out + [q])[|out|] == q;
  }

  lemma ParsedValid(raws: seq<RawQueue>)
    ensures forall q :: q in Parsed(raws) ==> IsQueueId(q.id) && IsQueueName(q.name)
  {
  }

  lemma ContributionsValid(calls: seq<Event>)
    ensures forall q :: q in Contributions(calls) ==> IsQueueId(q.id) && IsQueueName(q.name)
  {
    if calls != [] {
      var last := calls[|calls| - 1];
      if last.Listed? && last.listing.Ok? && last.listing.value.result.Some? {
        ParsedValid(last.listing.value.result.value);
      }
    }
  }

  /** What one more call adds to a walk: its number, its queues and its announced total. */
  lemma WalkGrows(base: seq<Event>, calls: seq<Event>, call: Event, maxPages: nat)
    requires IsPageWalk(calls, maxPages) && |calls| < maxPages && call.Listed? && call.number == |calls| + 1
    ensures (base + calls) + [call] == base + (calls + [call])
    ensures IsPageWalk(calls + [call], maxPages)
    ensures Contributions(calls + [call]) == Contributions(calls) + Contribution(call)
    ensures Replayed(calls, maxPages).Ok? ==>
              Replayed(calls + [call], maxPages)
              == PageStep(Replayed(calls, maxPages).value, call, |calls| + 1, maxPages)
    ensures forall total | AllAnnounce(calls, total) && AllAnnounce([call], total) :: AllAnnounce(calls + [call], total)
  {
    hide PageStep, Contribution;
    assert (calls + [call])[..|calls|] == calls;
  }

  /** One iteration of the page loop: one request, its checks, and its queues. */
  method ReadPage(p: Provider, page: nat, maxPages: nat, s: Progress)
    returns (r: Result<Progress, Error>, ghost call: Event)
    requires p.Valid() && DistinctEntries(s.queues)
    modifies p
    ensures p.Valid() && EnvStep(p.topology, old(p.world), p.world) && old(p.moves) <= p.moves
    ensures p.trace == old(p.trace) + [call] && p.readings == old(p.readings) && call.Listed? && call.number == page
    ensures r == PageStep(s, call, page, maxPages)
    ensures r.Ok? ==>
      && 1 <= r.value.totalPages <= maxPages
      && r.value.totalCount.Some? && r.value.totalCount.value >= 0
      && AllAnnounce([call], r.value.totalCount.value)
      && (s.totalCount.Some? ==> r.value.totalCount == s.totalCount)
    ensures r.Ok? ==> r.value.queues == s.queues + Contribution(call) && DistinctEntries(r.value.queues)
  {
    hide EnvStep, RefsRecorded, Accounted, Leads, ClientMoves, Effects, DistinctEntries, Parsed;
    var reply := p.ListPage(page);
    call := Listed(page, reply);
    if reply.Err? {
      return Err(reply.error), call;
    }
    var payload := reply.value;
    if payload.result.None? || payload.info.None? {
      return Err(InvalidListing()), call;
    }
    var raws, info := payload.result.value, payload.info.value;
    if !PageInfoAccepted(info, page, maxPages, |raws|, s.totalCount) {
      return Err(InvalidListing()), call;
    }
    var extended := AppendPage(s.queues, raws);
    if extended.None? {
      return Err(InvalidListing()), call;
    }
    return Ok(Progress(extended.value, info.totalPages.value, info.totalCount)), call;
  }

  /** What holds between two requests. */
  ghost predicate Listing(calls: seq<Event>, maxPages: nat, s: Progress) {
    && IsPageWalk(calls, maxPages) && Replayed(calls, maxPages) == Ok(s)
    && s.queues == Contributions(calls) && DistinctEntries(s.queues) && 1 <= s.totalPages <= maxPages
    && (if calls == [] then s.totalCount.None?
        else s.totalCount.Some? && s.totalCount.value >= 0 && AllAnnounce(calls, s.totalCount.value))
  }

  /** One turn of the loop and what it adds to the walk. */
  method NextPage(p: Provider, page: nat, maxPages: nat, s: Progress, ghost base: seq<Event>, ghost calls: seq<Event>)
    returns (r: Result<Progress, Error>, ghost grown: seq<Event>)
    requires p.Valid() && Listing(calls, maxPages, s) && p.trace == base + calls && page == |calls| + 1 <= maxPages
    modifies p
    ensures p.Valid() && EnvStep(p.topology, old(p.world), p.world) && old(p.moves) <= p.moves
    ensures p.trace == base + grown && p.readings == old(p.readings) && |grown| == page && IsPageWalk(grown, maxPages)
    ensures r == Replayed(grown, maxPages) && (r.Ok? ==> Listing(grown, maxPages, r.value))
  {
    hide EnvStep, RefsRecorded, Accounted, Leads, ClientMoves, Effects, DistinctEntries, Contribution, Contributions,
         AllAnnounce, PageInfoAccepted, Replayed, PageStep;
    var step, call := ReadPage(p, page, maxPages, s);
    WalkGrows(base, calls, call, maxPages);
    grown := calls + [call];
    assert page == 1 ==> grown == [call];
    return step, grown;
  }

  /**
    Against any server: at most maxPages requests, for pages 1, 2, ..., as many as
    announced while the replies are accepted; the outcome is the one the replies
    determine. A returned list has pairwise distinct ids and names, holds exactly
    what the pages contributed in order, and is as long as every page's total says.
   */
  method ListQueues(p: Provider, maxPages: nat) returns (r: Result<seq<QueueEntry>, Error>, ghost calls: seq<Event>)
    requires p.Valid() && 1 <= maxPages
    modifies p
    ensures p.Valid() && EnvStep(p.topology, old(p.world), p.world) && old(p.moves) <= p.moves
    ensures p.trace == old(p.trace) + calls && p.readings == old(p.readings) && IsPageWalk(calls, maxPages)
    ensures r == ListedQueues(calls, maxPages)
    ensures Replayed(calls, maxPages).Ok? ==> |calls| >= Replayed(calls, maxPages).value.totalPages
    ensures r.Ok? ==> DistinctEntries(r.value) && r.value == Contributions(calls)
    ensures r.Ok? ==> calls != [] && AllAnnounce(calls, |r.value|)
  {
    var s := Progress([], 1, None);
    var page := 1;
    calls := [];
    EnvReflexive(p.topology, p.world);
    assert Listing(calls, maxPages, s);
    hide EnvStep, RefsRecorded, Accounted, Leads, ClientMoves, Effects, DistinctEntries, Contributions, AllAnnounce,
         Replayed;
    while page <= s.totalPages
      invariant 1 <= page <= maxPages + 1 && |calls| == page - 1 && Listing(calls, maxPages, s)
      invariant p.Valid() && EnvStep(p.topology, old(p.world), p.world) && old(p.moves) <= p.moves
      invariant p.trace == old(p.trace) + calls && p.readings == old(p.readings)
      decreases maxPages + 1 - page
    {
      if page > maxPages {
        assert false;  // no accepted reply announces more pages
        return Err(Error(QueueIdentityInvalid, None)), calls;
      }
      ghost var worldBefore := p.world;
      ghost var grown;
      var step;
      step, grown := NextPage(p, page, maxPages, s, old(p.trace), calls);
      EnvTransitive(p.topology, old(p.world), worldBefore, p.world);
      calls := grown;
      if step.Err? {
        return Err(step.error), calls;
      }
      s := step.value;
      page := page + 1;
    }
    if s.totalCount.Some? && |s.queues| != s.totalCount.value {
      return Err(InvalidListing()), calls;
    }
    return Ok(s.queues), calls;
  }

  /** The filter both entry points use to find a queue by its name. */
  function Named(queues: seq<QueueEntry>, name: string): seq<QueueEntry> {
    if queues == [] then []
    else (if queues[0].name == name then [queues[0]] else []) + Named(queues[1..], name)
  }

  lemma {:induction false} NamedEntries(queues: seq<QueueEntry>, name: string)
    ensures forall q :: q in Named(queues, name) <==> q in queues && q.name == name
  {
    if queues != [] {
      NamedEntries(queues[1..], name);
    }
  }

  /** This entry, and no other of the list, has the name. */
  ghost predicate OnlyNamed(queues: seq<QueueEntry>, name: string, q: QueueEntry) {
    exists i | 0 <= i < |queues| :: queues[i] == q && forall k | 0 <= k < |queues| :: queues[k].name == name <==> k == i
  }

  lemma {:induction false} NamedNone(queues: seq<QueueEntry>, name: string)
    ensures Named(queues, name) == [] <==> forall k | 0 <= k < |queues| :: queues[k].name != name
  {
    NamedEntries(queues, name);
    assert forall k | 0 <= k < |queues| :: queues[k] in queues;
    assert Named(queues, name) != [] ==> Named(queues, name)[0] in Named(queues, name);
  }

  lemma {:induction false} NamedOne(queues: seq<QueueEntry>, name: string, q: QueueEntry)
    ensures Named(queues, name) == [q] <==> OnlyNamed(queues, name, q)
  {
    if queues != [] {
      var rest := queues[1..];
      assert forall k | 0 < k < |queues| :: queues[k] == rest[k - 1];
      NamedOne(rest, name, q);
      NamedNone(rest, name);
      if queues[0].name == name {
        if Named(queues, name) == [q] {
          assert Named(queues, name)[1..] == Named(rest, name);
          assert Named(rest, name) == [];
          assert Named(queues, name)[0] == queues[0] == q;
        }
        if OnlyNamed(queues, name, q) {
          assert forall k | 0 <= k < |rest| :: rest[k] == queues[k + 1] && rest[k].name != name;
        }
      } else {
        if OnlyNamed(queues, name, q) {
          var i :| 0 <= i < |queues| && queues[i] == q
                   && forall k | 0 <= k < |queues| :: queues[k].name == name <==> k == i;
          assert rest[i - 1] == q && forall k | 0 <= k < |rest| :: rest[k] == queues[k + 1];
        }
        if OnlyNamed(rest, name, q) {
          var i :| 0 <= i < |rest| && rest[i] == q
                   && forall k | 0 <= k < |rest| :: rest[k].name == name <==> k == i;
          assert queues[i + 1] == q;
        }
      }
    }
  }

  /** In a listed account two different names belong to two different ids. */
  lemma {:induction false} DistinctNamesDistinctIds(queues: seq<QueueEntry>, a: string, b: string)
    requires DistinctEntries(queues) && a != b
    ensures forall x, y :: x in Named(queues, a) && y in Named(queues, b) ==> x.id != y.id
  {
    NamedEntries(queues, a);
    NamedEntries(queues, b);
  }

  lemma {:induction false} ListedIdsAreQueueIds(calls: seq<Event>, name: string)
    ensures forall q :: q in Named(Contributions(calls), name) ==> IsQueueId(q.id) && '\0' !in q.id
  {
    ContributionsValid(calls);
    NamedEntries(Contributions(calls), name);
  }
}
