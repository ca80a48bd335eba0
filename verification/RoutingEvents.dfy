/** The routing-event distribution: tallies and digest sets that depend on the rows, not on their order. */
module RoutingEvents {
  import opened Outcomes
  import opened Sequences
  import opened Sorting
  import opened TextOrder

  const MAX_ROWS := 50

  predicate IsHexDigit(u: int) {
    0x30 <= u <= 0x39 || 0x61 <= u <= 0x66
  }

  /** The text of a SHA-256 digest: 64 hexadecimal digits. */
  type Digest = s: JsString | |s| == 64 && forall i | 0 <= i < |s| :: IsHexDigit(s[i]) witness seq(64, _ => 0x30)

  /** What localeCompare returns for two digests; all that is known of it is that it orders them strictly. */
  type Collation = (Digest, Digest) -> int

  function Earlier(collate: Collation): (Digest, Digest) -> bool {
    (a: Digest, b: Digest) => collate(a, b) < 0
  }

  ghost predicate IsCollation(collate: Collation) {
    IsStrictOrder(Earlier(collate))
  }

  /** A provider row. Malformed stands for one the row reader refuses. */
  datatype RawRow =
    | Malformed
    | Row(at: int, status: Digest, action: Digest, isLastEvent: bool, messageId: Option<string>)

  datatype Event = Event(at: int, status: Digest, action: Digest, isLastEvent: bool, digest: Option<Digest>)

  datatype LabelCount = LabelCount(digest: Digest, count: nat)

  datatype Coverage = Complete | Partial

  datatype ErrorCode = ResponseInvalid | ResultTruncated

  datatype Distribution = Distribution(
    rowsReturned: nat,
    withinWindowRows: nat,
    outsideWindowRows: int,
    uniqueMessageIds: nat,
    messageIdsMissing: nat,
    finalEventRows: nat,
    statusCounts: seq<LabelCount>,
    actionCounts: seq<LabelCount>,
    messageIdDigests: seq<Digest>,
    coverage: Coverage)

  datatype Window = Window(start: int, end: int)

  // ---------- reading rows ----------

  predicate IsUsable(id: string) {
    1 <= |id| <= 512 && forall c | c in id :: '\U{21}' <= c <= '\U{7e}'
  }

  function ReadMessageIdDigest(sha: string -> Digest, id: Option<string>): Option<Digest> {
    if id.Some? && IsUsable(id.value) then Some(sha(id.value)) else None
  }

  function ReadRow(sha: string -> Digest, raw: RawRow): Event
    requires raw.Row?
  {
    Event(raw.at, raw.status, raw.action, raw.isLastEvent, ReadMessageIdDigest(sha, raw.messageId))
  }

  function ReadRows(sha: string -> Digest, raws: seq<RawRow>): (events: seq<Event>)
    requires forall raw | raw in raws :: raw.Row?
    ensures |events| == |raws|
  {
    seq(|raws|, i requires 0 <= i < |raws| => ReadRow(sha, raws[i]))
  }

  // ---------- what is counted ----------

  function InWindow(w: Window): Event -> bool {
    (e: Event) => w.start <= e.at <= w.end
  }

  function IsFinal(): Event -> bool {
    (e: Event) => e.isLastEvent
  }

  function LacksDigest(): Event -> bool {
    (e: Event) => e.digest.None?
  }

  function Status(): Event -> Digest {
    (e: Event) => e.status
  }

  function Action(): Event -> Digest {
    (e: Event) => e.action
  }

  /** How often each digest occurs. */
  function Labels(events: seq<Event>, select: Event -> Digest): multiset<Digest> {
    if events == [] then multiset{}
    else Labels(events[..|events| - 1], select) + multiset{select(events[|events| - 1])}
  }

  function Digests(events: seq<Event>): set<Digest> {
    set e | e in events && e.digest.Some? :: e.digest.value
  }

  // ---------- the tally ----------

  function MoreFrequent(collate: Collation): (LabelCount, LabelCount) -> bool {
    (a: LabelCount, b: LabelCount) =>
      if a.count == b.count then collate(a.digest, b.digest) < 0 else b.count < a.count
  }

  /** The built-in order of strings. */
  function Ascending(): (Digest, Digest) -> bool {
    (a: Digest, b: Digest) => Less(ByCodeUnit, a, b)
  }

  /** The counts of a bag of labels, most frequent first and equal counts as digests collate. */
  ghost predicate IsTally(collate: Collation, labels: multiset<Digest>, t: seq<LabelCount>) {
    && Sorted(MoreFrequent(collate), t)
    && forall digest, count :: LabelCount(digest, count) in t <==> count == labels[digest] && count > 0
  }

  lemma {:induction false} OrdersAreStrict(collate: Collation)
    requires IsCollation(collate)
    ensures IsStrictOrder(MoreFrequent(collate)) && IsStrictOrder(Ascending())
  {
    hide Less;
    var earlier, frequent, ascending := Earlier(collate), MoreFrequent(collate), Ascending();
    assert forall a, b :: collate(a, b) < 0 <==> earlier(a, b);
    assert forall a, b ::
        frequent(a, b) <==> if a.count == b.count then earlier(a.digest, b.digest) else b.count < a.count;
    assert forall a: LabelCount, b: LabelCount :: a.count == b.count && a.digest == b.digest ==> a == b;
    forall a: Digest, b: Digest, c: Digest
      ensures ascending(a, b) ==> !ascending(b, a)
      ensures a != b ==> ascending(a, b) || ascending(b, a)
      ensures ascending(a, b) && ascending(b, c) ==> ascending(a, c)
    {
      StrictTotalOrder(ByCodeUnit, a, b, c);
    }
  }

  method CountLabels(rows: seq<Event>, select: Event -> Digest) returns (counts: map<Digest, nat>)
    ensures forall d :: d in counts <==> Labels(rows, select)[d] > 0
    ensures forall d | d in counts :: counts[d] == Labels(rows, select)[d]
  {
    counts := map[];
    for i := 0 to |rows|
      invariant forall d :: d in counts <==> Labels(rows[..i], select)[d] > 0
      invariant forall d | d in counts :: counts[d] == Labels(rows[..i], select)[d]
    {
      assert rows[..i + 1][..i] == rows[..i];
      var d := select(rows[i]);
      counts := counts[d := (if d in counts then counts[d] else 0) + 1];
    }
    assert rows[..|rows|] == rows;
  }

  method Entries(counts: map<Digest, nat>) returns (entries: seq<LabelCount>)
    ensures NoRepeats(entries)
    ensures forall x :: x in entries <==> x.digest in counts && x.count == counts[x.digest]
  {
    entries := [];
    var remaining := counts.Keys;
    while remaining != {}
      invariant remaining <= counts.Keys
      invariant NoRepeats(entries)
      invariant forall x :: x in entries <==>
                  x.digest in counts && x.digest !in remaining && x.count == counts[x.digest]
    {
      var d :| d in remaining;
      assert LabelCount(d, counts[d]) !in entries;
      entries := entries + [LabelCount(d, counts[d])];
      remaining := remaining - {d};
    }
  }

  method TallyLabels(collate: Collation, rows: seq<Event>, select: Event -> Digest) returns (tally: seq<LabelCount>)
    requires IsCollation(collate)
    ensures IsTally(collate, Labels(rows, select), tally)
  {
    var counts := CountLabels(rows, select);
    var entries := Entries(counts);
    OrdersAreStrict(collate);
    SortSorts(MoreFrequent(collate), entries);
    tally := Sort(MoreFrequent(collate), entries);
  }

  method SortDigests(digests: set<Digest>, ghost collate: Collation) returns (sorted: seq<Digest>)
    requires IsCollation(collate)
    ensures Sorted(Ascending(), sorted) && |sorted| == |digests|
    ensures forall d :: d in sorted <==> d in digests
  {
    sorted := [];
    var remaining := digests;
    while remaining != {}
      invariant remaining <= digests && NoRepeats(sorted) && |sorted| + |remaining| == |digests|
      invariant forall d :: d in sorted <==> d in digests && d !in remaining
    {
      var d :| d in remaining;
      sorted := sorted + [d];
      remaining := remaining - {d};
    }
    OrdersAreStrict(collate);
    SortSorts(Ascending(), sorted);
    sorted := Sort(Ascending(), sorted);
  }

  // ---------- the distribution ----------

  ghost predicate Describes(collate: Collation, d: Distribution, w: Window, events: seq<Event>) {
    var within := Kept(events, InWindow(w));
    && d.rowsReturned == |events|
    && d.withinWindowRows == |within|
    && d.outsideWindowRows == |events| - |within|
    && d.uniqueMessageIds == |Digests(within)|
    && d.messageIdsMissing == |Kept(within, LacksDigest())|
    && d.finalEventRows == |Kept(within, IsFinal())|
    && IsTally(collate, Labels(within, Status()), d.statusCounts)
    && IsTally(collate, Labels(within, Action()), d.actionCounts)
    && Sorted(Ascending(), d.messageIdDigests)
    && (forall x :: x in d.messageIdDigests <==> x in Digests(within))
    && d.coverage == if |Kept(within, LacksDigest())| > 0 then Partial else Complete
  }

  method SummarizeEvents(sha: string -> Digest, collate: Collation, w: Window, raws: seq<RawRow>)
    returns (r: Result<Distribution, ErrorCode>)
    requires IsCollation(collate)
    ensures r == Err(ResultTruncated) <==> |raws| >= 50
    ensures r == Err(ResponseInvalid) <==> |raws| < 50 && exists raw | raw in raws :: raw.Malformed?
    ensures r.Ok? <==> |raws| < 50 && forall raw | raw in raws :: raw.Row?
    ensures r.Ok? ==> Describes(collate, r.value, w, ReadRows(sha, raws))
    ensures r.Ok? ==> DescribesRows(sha, collate, r.value, w, raws)
  {
    r := Summarize(sha, collate, w, raws);
    if r.Ok? {
      RowsAreDescribed(sha, collate, r.value, w, raws);
    }
  }

  method Summarize(sha: string -> Digest, collate: Collation, w: Window, raws: seq<RawRow>)
    returns (r: Result<Distribution, ErrorCode>)
    requires IsCollation(collate)
    ensures r == Err(ResultTruncated) <==> |raws| >= 50
    ensures r == Err(ResponseInvalid) <==> |raws| < 50 && exists raw | raw in raws :: raw.Malformed?
    ensures r.Ok? <==> |raws| < 50 && forall raw | raw in raws :: raw.Row?
    ensures r.Ok? ==> r.value.uniqueMessageIds == |r.value.messageIdDigests|
    ensures r.Ok? ==> Describes(collate, r.value, w, ReadRows(sha, raws))
  {
    hide Kept, Labels, IsTally, IsCollation, Sorted;
    if |raws| >= MAX_ROWS { return Err(ResultTruncated); }
    if exists raw | raw in raws :: raw.Malformed? { return Err(ResponseInvalid); }
    assert forall raw | raw in raws :: raw.Row?;
    var events := ReadRows(sha, raws);
    var within := Kept(events, InWindow(w));
    var digests: set<Digest> := {};
    for i := 0 to |within|
      invariant digests == Digests(within[..i])
    {
      assert within[..i + 1] == within[..i] + [within[i]];
      if within[i].digest.Some? { digests := digests + {within[i].digest.value}; }
    }
    assert within[..|within|] == within;
    var messageIdsMissing := |Kept(within, LacksDigest())|;
    var statusCounts := TallyLabels(collate, within, Status());
    var actionCounts := TallyLabels(collate, within, Action());
    var messageIdDigests := SortDigests(digests, collate);
    r := Ok(Distribution(
      |events|, |within|, |events| - |within|, |digests|, messageIdsMissing, |Kept(within, IsFinal())|,
      statusCounts, actionCounts, messageIdDigests, if messageIdsMissing > 0 then Partial else Complete));
  }

  // ---------- the distribution, said of the rows as they came ----------

  /** An id that is digested: 1 to 512 printable ASCII characters, none of them a space. */
  predicate IsDigested(id: Option<string>) {
    id.Some? && 0 < |id.value| < 513 && forall k | 0 <= k < |id.value| :: 33 <= id.value[k] as int <= 126
  }

  function RowWithin(w: Window): RawRow -> bool {
    (r: RawRow) => r.Row? && w.start <= r.at && r.at <= w.end
  }

  function RowUndigested(): RawRow -> bool {
    (r: RawRow) => r.Row? && !IsDigested(r.messageId)
  }

  function RowIsLast(): RawRow -> bool {
    (r: RawRow) => r.Row? && r.isLastEvent
  }

  function RowHasStatus(x: Digest): RawRow -> bool {
    (r: RawRow) => r.Row? && r.status == x
  }

  function RowHasAction(x: Digest): RawRow -> bool {
    (r: RawRow) => r.Row? && r.action == x
  }

  /** Most frequent first, equal counts as the digests collate; and each digest with the number of rows it labels. */
  ghost predicate TalliesRows(
    collate: Collation, rows: seq<RawRow>, has: Digest -> RawRow -> bool, t: seq<LabelCount>)
  {
    && (forall i, j | 0 <= i < j < |t| ::
          t[i].count > t[j].count || (t[i].count == t[j].count && collate(t[i].digest, t[j].digest) < 0))
    && forall x, n :: LabelCount(x, n) in t <==> n > 0 && n == |Kept(rows, has(x))|
  }

  /** Some of these rows carries an id that is digested to x. */
  ghost predicate Carries(sha: string -> Digest, rows: seq<RawRow>, x: Digest) {
    exists r | r in rows :: r.Row? && IsDigested(r.messageId) && sha(r.messageId.value) == x
  }

  /** Each field, said of the in-window rows. */
  ghost predicate DescribesRows(
    sha: string -> Digest, collate: Collation, d: Distribution, w: Window, raws: seq<RawRow>)
  {
    var rows := Kept(raws, RowWithin(w));
    && d.rowsReturned == |raws|
    && d.withinWindowRows == |rows|
    && d.withinWindowRows + d.outsideWindowRows == |raws|
    && d.finalEventRows == |Kept(rows, RowIsLast())|
    && d.messageIdsMissing == |Kept(rows, RowUndigested())|
    && (d.coverage == Complete <==> forall r | r in rows :: r.Row? && IsDigested(r.messageId))
    && d.uniqueMessageIds == |d.messageIdDigests|
    && (forall i, j | 0 <= i < j < |d.messageIdDigests| ::
          Less(ByCodeUnit, d.messageIdDigests[i], d.messageIdDigests[j]))
    && (forall x :: x in d.messageIdDigests <==> Carries(sha, rows, x))
    && TalliesRows(collate, rows, RowHasStatus, d.statusCounts)
    && TalliesRows(collate, rows, RowHasAction, d.actionCounts)
  }

  lemma DigestedMeaning(sha: string -> Digest, id: Option<string>)
    ensures ReadMessageIdDigest(sha, id) == if IsDigested(id) then Some(sha(id.value)) else None
  {
    if id.Some? {
      assert forall k | 0 <= k < |id.value| :: id.value[k] in id.value;
    }
  }

  /** Reading commutes with selecting by a property that the read row shows. */
  lemma {:induction false} ReadKept(sha: string -> Digest, raws: seq<RawRow>, p: RawRow -> bool, q: Event -> bool)
    requires forall i | 0 <= i < |raws| :: raws[i].Row? && (p(raws[i]) <==> q(ReadRow(sha, raws[i])))
    ensures forall raw | raw in Kept(raws, p) :: raw.Row?
    ensures Kept(ReadRows(sha, raws), q) == ReadRows(sha, Kept(raws, p))
  {
    KeptMeaning(raws, p);
    if raws != [] {
      ReadKept(sha, raws[1..], p, q);
      assert ReadRows(sha, raws)[1..] == ReadRows(sha, raws[1..]);
    }
  }

  lemma {:induction false} TallyOfRows(
    sha: string -> Digest, collate: Collation, rows: seq<RawRow>,
    select: Event -> Digest, has: Digest -> RawRow -> bool, t: seq<LabelCount>)
    requires forall i | 0 <= i < |rows| ::
      rows[i].Row? && forall x :: has(x)(rows[i]) <==> select(ReadRow(sha, rows[i])) == x
    requires IsTally(collate, Labels(ReadRows(sha, rows), select), t)
    ensures TalliesRows(collate, rows, has, t)
  {
    forall x ensures Labels(ReadRows(sha, rows), select)[x] == |Kept(rows, has(x))| {
      LabelsCount(ReadRows(sha, rows), select, x);
      ReadKept(sha, rows, has(x), HasLabel(select, x));
    }
    hide Labels, Kept;
  }

  /** The distribution describes the rows as they came. */
  lemma {:induction false} RowsAreDescribed(
    sha: string -> Digest, collate: Collation, d: Distribution, w: Window, raws: seq<RawRow>)
    requires (forall raw | raw in raws :: raw.Row?) && Describes(collate, d, w, ReadRows(sha, raws))
    requires d.uniqueMessageIds == |d.messageIdDigests|
    ensures DescribesRows(sha, collate, d, w, raws)
  {
    hide Kept, Labels, IsTally, ReadMessageIdDigest, TalliesRows, Less, Digests, Carries;
    var rows, within := Kept(raws, RowWithin(w)), Kept(ReadRows(sha, raws), InWindow(w));
    ReadKept(sha, raws, RowWithin(w), InWindow(w));
    KeptMeaning(raws, RowWithin(w));
    forall id ensures ReadMessageIdDigest(sha, id).None? <==> !IsDigested(id) {
      DigestedMeaning(sha, id);
    }
    ReadKept(sha, rows, RowUndigested(), LacksDigest());
    ReadKept(sha, rows, RowIsLast(), IsFinal());
    TallyOfRows(sha, collate, rows, Status(), RowHasStatus, d.statusCounts);
    TallyOfRows(sha, collate, rows, Action(), RowHasAction, d.actionCounts);
    KeptMeaning(rows, RowUndigested());
    assert Kept(rows, RowUndigested()) != [] ==> Kept(rows, RowUndigested())[0] in Kept(rows, RowUndigested());
    CarriedDigests(sha, rows);
  }

  lemma {:induction false} CarriedDigests(sha: string -> Digest, rows: seq<RawRow>)
    requires forall i | 0 <= i < |rows| :: rows[i].Row?
    ensures forall x :: x in Digests(ReadRows(sha, rows)) <==> Carries(sha, rows, x)
  {
    hide IsUsable;
    var events := ReadRows(sha, rows);
    forall i | 0 <= i < |rows|
      ensures events[i].digest == if IsDigested(rows[i].messageId) then Some(sha(rows[i].messageId.value)) else None
    {
      DigestedMeaning(sha, rows[i].messageId);
    }
    hide IsDigested;
    forall x ensures x in Digests(events) <==> Carries(sha, rows, x) {
      if x in Digests(events) {
        var e :| e in events && e.digest == Some(x);
        var i :| 0 <= i < |events| && events[i] == e;
        assert rows[i] in rows;
      }
      if Carries(sha, rows, x) {
        var r :| r in rows && IsDigested(r.messageId) && sha(r.messageId.value) == x;
        var i :| 0 <= i < |rows| && rows[i] == r;
        assert events[i] in events && events[i].digest == Some(x);
      }
    }
  }

  // ---------- order of rows ----------

  function HasLabel(select: Event -> Digest, d: Digest): Event -> bool {
    (e: Event) => select(e) == d
  }

  lemma {:induction false} LabelsCount(events: seq<Event>, select: Event -> Digest, d: Digest)
    ensures Labels(events, select)[d] == |Kept(events, HasLabel(select, d))|
  {
    if events != [] {
      var n := |events| - 1;
      LabelsCount(events[..n], select, d);
      KeptConcat(events[..n], [events[n]], HasLabel(select, d));
      assert events == events[..n] + [events[n]];
    }
  }

  lemma {:induction false} LabelsForgetOrder(a: seq<Event>, b: seq<Event>, select: Event -> Digest)
    requires multiset(a) == multiset(b)
    ensures Labels(a, select) == Labels(b, select)
  {
    forall d ensures Labels(a, select)[d] == Labels(b, select)[d] {
      LabelsCount(a, select, d);
      LabelsCount(b, select, d);
      KeptForgetsOrder(a, b, HasLabel(select, d));
    }
  }

  lemma {:induction false} TallyUnique(
    collate: Collation, labels: multiset<Digest>, a: seq<LabelCount>, b: seq<LabelCount>)
    requires IsCollation(collate) && IsTally(collate, labels, a) && IsTally(collate, labels, b)
    ensures a == b
  {
    OrdersAreStrict(collate);
    forall x ensures x in a <==> x in b {
      assert x == LabelCount(x.digest, x.count);
    }
    SortedUnique(MoreFrequent(collate), a, b);
  }

  /** The whole distribution is a function of the bag of rows: no provider order can change a field. */
  lemma {:induction false} DistributionForgetsOrder(
    collate: Collation, w: Window, events: seq<Event>, permuted: seq<Event>, d: Distribution, e: Distribution)
    requires IsCollation(collate) && multiset(events) == multiset(permuted)
    requires Describes(collate, d, w, events) && Describes(collate, e, w, permuted)
    ensures d == e
  {
    hide Kept, Labels, IsTally, IsCollation, Sorted;
    var a, b := Kept(events, InWindow(w)), Kept(permuted, InWindow(w));
    assert |multiset(events)| == |events| && |multiset(permuted)| == |permuted|;
    KeptForgetsOrder(events, permuted, InWindow(w));
    KeptForgetsOrder(a, b, LacksDigest());
    KeptForgetsOrder(a, b, IsFinal());
    LabelsForgetOrder(a, b, Status());
    LabelsForgetOrder(a, b, Action());
    TallyUnique(collate, Labels(a, Status()), d.statusCounts, e.statusCounts);
    TallyUnique(collate, Labels(a, Action()), d.actionCounts, e.actionCounts);
    assert forall x :: x in a <==> x in multiset(a);
    assert forall x :: x in b <==> x in multiset(b);
    assert Digests(a) == Digests(b);
    OrdersAreStrict(collate);
    SortedUnique(Ascending(), d.messageIdDigests, e.messageIdDigests);
  }

  // ---------- accounting ----------

  function TotalCount(t: seq<LabelCount>): nat {
    if t == [] then 0 else t[0].count + TotalCount(t[1..])
  }

  lemma {:induction false} TallyTotal(collate: Collation, labels: multiset<Digest>, t: seq<LabelCount>)
    requires IsCollation(collate) && IsTally(collate, labels, t)
    ensures TotalCount(t) == |labels|
  {
    if t == [] {
      assert forall digest :: LabelCount(digest, labels[digest]) !in t;
      assert labels == multiset{};
    } else {
      var head := t[0];
      assert LabelCount(head.digest, head.count) in t;
      var others := labels[head.digest := 0];
      OrdersAreStrict(collate);
      SortedTail(MoreFrequent(collate), t);
      forall digest, count
        ensures LabelCount(digest, count) in t[1..] <==> count == others[digest] && count > 0
      {
        var entry := LabelCount(digest, count);
        assert entry in t[1..] <==> entry in t && entry != head;
      }
      TallyTotal(collate, others, t[1..]);
      assert labels == others + multiset{}[head.digest := head.count];
    }
  }

  lemma {:induction false} LabelsSize(events: seq<Event>, select: Event -> Digest)
    ensures |Labels(events, select)| == |events|
  {
    if events != [] { LabelsSize(events[..|events| - 1], select); }
  }

  lemma {:induction false} DigestsBounded(events: seq<Event>)
    ensures |Digests(events)| + |Kept(events, LacksDigest())| <= |events|
    ensures |Kept(events, LacksDigest())| == 0 <==> forall e | e in events :: e.digest.Some?
  {
    if events != [] {
      var e, rest := events[0], events[1..];
      DigestsBounded(rest);
      assert events == [e] + rest;
      assert Digests(events) == Digests(rest) + (if e.digest.Some? then {e.digest.value} else {});
    }
  }

  /** Both tallies spread the in-window rows without loss, and no row is both digested and missing. */
  lemma {:induction false} DistributionAccounts(
    collate: Collation, w: Window, events: seq<Event>, d: Distribution)
    requires IsCollation(collate) && Describes(collate, d, w, events)
    ensures TotalCount(d.statusCounts) == d.withinWindowRows == TotalCount(d.actionCounts)
    ensures d.outsideWindowRows >= 0 && d.withinWindowRows + d.outsideWindowRows == d.rowsReturned
    ensures d.uniqueMessageIds + d.messageIdsMissing <= d.withinWindowRows
    ensures d.finalEventRows <= d.withinWindowRows
    ensures d.coverage == Complete <==> d.messageIdsMissing == 0
  {
    var within := Kept(events, InWindow(w));
    TallyTotal(collate, Labels(within, Status()), d.statusCounts);
    TallyTotal(collate, Labels(within, Action()), d.actionCounts);
    LabelsSize(within, Status());
    LabelsSize(within, Action());
    DigestsBounded(within);
    KeptMeaning(events, InWindow(w));
    KeptMeaning(within, IsFinal());
  }

  /**
    Complete coverage makes a missing digest proof of absence: no in-window row carried that identifier.
    A digest that is present names an in-window row whose identifier hashes to it.
   */
  lemma {:induction false} CompleteCoverageShowsAbsence(
    sha: string -> Digest, collate: Collation, w: Window, raws: seq<RawRow>, d: Distribution, id: string)
    requires (forall raw | raw in raws :: raw.Row?) && Describes(collate, d, w, ReadRows(sha, raws))
    ensures d.coverage == Complete && sha(id) !in d.messageIdDigests ==>
              forall raw | raw in raws && w.start <= raw.at <= w.end :: raw.messageId.Some? && raw.messageId.value != id
    ensures sha(id) in d.messageIdDigests ==>
              exists raw | raw in raws && w.start <= raw.at <= w.end ::
                raw.messageId.Some? && IsUsable(raw.messageId.value) && sha(raw.messageId.value) == sha(id)
  {
    hide Kept, Labels, IsTally, IsUsable, Sorted;
    var events := ReadRows(sha, raws);
    var within := Kept(events, InWindow(w));
    KeptMeaning(events, InWindow(w));
    DigestsBounded(within);
    forall raw | d.coverage == Complete && sha(id) !in d.messageIdDigests && raw in raws && w.start <= raw.at <= w.end
      ensures raw.messageId.Some? && raw.messageId.value != id
    {
      var i :| 0 <= i < |raws| && raws[i] == raw;
      assert events[i] == ReadRow(sha, raw) && events[i] in events;
      assert events[i] in within;
    }
    if sha(id) in d.messageIdDigests {
      var e :| e in within && e.digest == Some(sha(id));
      var i :| 0 <= i < |events| && events[i] == e;
      assert raws[i] in raws && events[i] == ReadRow(sha, raws[i]);
    }
  }
}
