/** The delivery gate that demands one matching event, and the redacted diagnostic that explains its verdict. */
module EmailDiagnostics {
  import opened Outcomes
  import opened Sequences

  const MAX_WINDOW_MS := 60 * 60 * 1000
  const PAGE_LIMIT := 50
  const MAX_FIELD := 512

  /** A provider row. Malformed: no record, a field of the wrong type, or no valid instant. */
  datatype RawRow =
    | Malformed
    | Row(event: Event)

  datatype Event = Event(
    at: int,
    from: string,
    to: string,
    subject: string,
    status: string,
    messageId: string,
    isLastEvent: int)

  /** What both readers are asked for. The digest of a canonicalised address is a parameter. */
  datatype Query = Query(
    start: int,
    end: int,
    digest: string -> string,
    sender: string,
    recipient: string,
    subject: string)

  datatype ErrorCode = InvalidConfiguration | ResponseInvalid | ResultTruncated | EventNotUnique

  datatype Classification =
    | ZeroRows | IdentityMismatch | TerminalStatusMismatch | PageTruncated
    | UniqueMatch | MultipleMatches | DuplicateMatches

  datatype Summary = Summary(
    rowsReturned: nat,
    uniqueReturnedMessageIds: nat,
    withinWindowRows: nat,
    outsideWindowRows: int,
    senderMatches: nat,
    recipientMatches: nat,
    subjectMatches: nat,
    identityMatches: nat,
    deliveredCount: nat,
    terminalCount: nat,
    matchedRows: nat,
    uniqueMatchedMessageIds: nat,
    duplicateMessageIds: int,
    pageFull: bool,
    classification: Classification)

  // ---------- the two row readers ----------

  predicate IsMessageId(id: string) {
    1 <= |id| <= MAX_FIELD && forall i | 0 <= i < |id| :: '\U{21}' <= id[i] <= '\U{7e}'
  }

  /** The gate's reader bounds addresses only. */
  predicate GateReads(raw: RawRow) {
    && raw.Row?
    && |raw.event.from| <= MAX_FIELD
    && |raw.event.to| <= MAX_FIELD
    && IsMessageId(raw.event.messageId)
    && (raw.event.isLastEvent == 0 || raw.event.isLastEvent == 1)
  }

  /** The diagnostic's reader also bounds the subject and refuses an empty status. */
  predicate DiagnosticReads(raw: RawRow) {
    && raw.Row?
    && |raw.event.from| <= MAX_FIELD
    && |raw.event.to| <= MAX_FIELD
    && |raw.event.subject| <= MAX_FIELD
    && raw.event.status != ""
    && IsMessageId(raw.event.messageId)
    && (raw.event.isLastEvent == 0 || raw.event.isLastEvent == 1)
  }

  predicate AllGateRead(raws: seq<RawRow>) {
    forall i | 0 <= i < |raws| :: GateReads(raws[i])
  }

  predicate AllDiagnosticRead(raws: seq<RawRow>) {
    forall i | 0 <= i < |raws| :: DiagnosticReads(raws[i])
  }

  /** A row that both readers refuse, said field by field. */
  ghost predicate IsUnreadable(raw: RawRow) {
    || raw == Malformed
    || (&& raw.Row?
        && (|| |raw.event.from| > 512 || |raw.event.to| > 512
            || |raw.event.messageId| == 0 || |raw.event.messageId| > 512
            || (exists k | 0 <= k < |raw.event.messageId| :: !(33 <= raw.event.messageId[k] as int <= 126))
            || raw.event.isLastEvent !in {0, 1}))
  }

  /** A row that only the diagnostic refuses: its subject is too long or its status empty. */
  ghost predicate IsInGap(raw: RawRow) {
    raw.Row? && !IsUnreadable(raw) && (|raw.event.subject| > 512 || |raw.event.status| == 0)
  }

  lemma ReadersExactly(raw: RawRow)
    ensures GateReads(raw) <==> !IsUnreadable(raw)
    ensures DiagnosticReads(raw) <==> !IsUnreadable(raw) && !IsInGap(raw)
  {
  }

  function EventsOf(raws: seq<RawRow>): (events: seq<Event>)
    requires forall i | 0 <= i < |raws| :: raws[i].Row?
    ensures |events| == |raws|
  {
    seq(|raws|, i requires 0 <= i < |raws| => raws[i].event)
  }

  // ---------- what a row can match ----------

  function InWindow(q: Query): Event -> bool {
    (e: Event) => q.start <= e.at <= q.end
  }

  function SenderMatches(q: Query): Event -> bool {
    (e: Event) => InWindow(q)(e) && q.digest(e.from) == q.sender
  }

  function RecipientMatches(q: Query): Event -> bool {
    (e: Event) => InWindow(q)(e) && q.digest(e.to) == q.recipient
  }

  function SubjectMatches(q: Query): Event -> bool {
    (e: Event) => InWindow(q)(e) && e.subject == q.subject
  }

  function IdentityMatches(q: Query): Event -> bool {
    (e: Event) => SenderMatches(q)(e) && RecipientMatches(q)(e) && SubjectMatches(q)(e)
  }

  function Delivered(q: Query): Event -> bool {
    (e: Event) => InWindow(q)(e) && e.status == "delivered"
  }

  function Terminal(q: Query): Event -> bool {
    (e: Event) => InWindow(q)(e) && e.isLastEvent == 1
  }

  function Matches(q: Query): Event -> bool {
    (e: Event) => IdentityMatches(q)(e) && e.status == "delivered" && e.isLastEvent == 1
  }

  /** The gate's filter: a match that also carries the expected message id when one is given. */
  function Accepts(q: Query, expected: Option<string>): Event -> bool {
    (e: Event) => Matches(q)(e) && (expected.None? || e.messageId == expected.value)
  }

  function IdsOf(events: seq<Event>): set<string> {
    set e | e in events :: e.messageId
  }

  predicate Repeats(events: seq<Event>) {
    exists i, j | 0 <= i < j < |events| :: events[i].messageId == events[j].messageId
  }

  // ---------- the gate ----------

  predicate WindowIsValid(q: Query) {
    q.start < q.end && q.end - q.start <= MAX_WINDOW_MS
  }

  function Gate(q: Query, expected: Option<string>, raws: seq<RawRow>): Result<Event, ErrorCode> {
    if !WindowIsValid(q) then Err(InvalidConfiguration)
    else if |raws| >= PAGE_LIMIT then Err(ResultTruncated)
    else if !AllGateRead(raws) then Err(ResponseInvalid)
    else
      var matching := Kept(EventsOf(raws), Accepts(q, expected));
      if |IdsOf(matching)| != |matching| then Err(EventNotUnique)
      else if |matching| != 1 then Err(EventNotUnique)
      else Ok(matching[0])
  }

  /** Why the gate answers as it does, case by case; past these it is the number of matching rows. */
  lemma {:induction false} GateRefuses(q: Query, expected: Option<string>, raws: seq<RawRow>)
    ensures Gate(q, expected, raws) == Err(InvalidConfiguration) <==> q.end <= q.start || q.end - q.start > 3_600_000
    ensures Gate(q, expected, raws) == Err(ResultTruncated) <==> 0 < q.end - q.start <= 3_600_000 && |raws| >= 50
    ensures Gate(q, expected, raws) == Err(ResponseInvalid)
       <==> 0 < q.end - q.start <= 3_600_000 && |raws| < 50 && exists raw | raw in raws :: IsUnreadable(raw)
  {
    forall raw ensures GateReads(raw) <==> !IsUnreadable(raw) {
      ReadersExactly(raw);
    }
    hide GateReads, IsUnreadable, Kept, IdsOf;
    assert forall i | 0 <= i < |raws| :: raws[i] in raws;
  }

  // ---------- the diagnostic ----------

  function ClassifyWindow(
    pageFull: bool,
    rowsReturned: nat,
    identityMatches: nat,
    deliveredTerminalMatches: nat,
    matchedRows: nat,
    uniqueMatchedMessageIds: nat,
    duplicateMessageIds: int): Classification
  {
    if pageFull then PageTruncated
    else if duplicateMessageIds > 0 then DuplicateMatches
    else if matchedRows == 1 && uniqueMatchedMessageIds == 1 then UniqueMatch
    else if matchedRows > 1 then MultipleMatches
    else if rowsReturned == 0 then ZeroRows
    else if identityMatches == 0 then IdentityMismatch
    else if deliveredTerminalMatches == 0 then TerminalStatusMismatch
    else ZeroRows
  }

  predicate HasIdentity(q: Query, events: seq<Event>) {
    exists e | e in events :: IdentityMatches(q)(e)
  }

  /** The meaning of each classification, over the rows themselves. */
  function Explanation(q: Query, events: seq<Event>): Classification {
    var matching := Kept(events, Matches(q));
    if |events| >= PAGE_LIMIT then PageTruncated
    else if Repeats(matching) then DuplicateMatches
    else if |matching| > 1 then MultipleMatches
    else if |matching| == 1 then UniqueMatch
    else if HasIdentity(q, events) then TerminalStatusMismatch
    else if events != [] then IdentityMismatch
    else ZeroRows
  }

  ghost predicate Summarizes(s: Summary, q: Query, events: seq<Event>) {
    && s.rowsReturned == |events|
    && s.uniqueReturnedMessageIds == |IdsOf(events)|
    && s.withinWindowRows == |Kept(events, InWindow(q))|
    && s.outsideWindowRows == |events| - |Kept(events, InWindow(q))|
    && s.senderMatches == |Kept(events, SenderMatches(q))|
    && s.recipientMatches == |Kept(events, RecipientMatches(q))|
    && s.subjectMatches == |Kept(events, SubjectMatches(q))|
    && s.identityMatches == |Kept(events, IdentityMatches(q))|
    && s.deliveredCount == |Kept(events, Delivered(q))|
    && s.terminalCount == |Kept(events, Terminal(q))|
    && s.matchedRows == |Kept(events, Matches(q))|
    && s.uniqueMatchedMessageIds == |IdsOf(Kept(events, Matches(q)))|
    && s.duplicateMessageIds == s.matchedRows - s.uniqueMatchedMessageIds
    && s.pageFull == (|events| >= PAGE_LIMIT)
  }

  method SummarizeWindow(q: Query, events: seq<Event>) returns (s: Summary)
    ensures Summarizes(s, q, events)
    ensures s.classification == Explanation(q, events)
  {
    var withinWindowRows, senderMatches, recipientMatches, subjectMatches := 0, 0, 0, 0;
    var identityMatches, deliveredCount, terminalCount, deliveredTerminalMatches, matchedRows := 0, 0, 0, 0, 0;
    var matchedMessageIds: set<string> := {};
    var i := 0;
    ghost var counted, ids := Counters(0, 0, 0, 0, 0, 0, 0, 0, 0), matchedMessageIds;
    while i < |events|
      invariant 0 <= i <= |events|
      invariant Counted(q, events[..i], counted, ids)
      invariant ids == matchedMessageIds
      invariant counted == Counters(
                  withinWindowRows, senderMatches, recipientMatches, subjectMatches, identityMatches,
                  deliveredCount, terminalCount, deliveredTerminalMatches, matchedRows)
    {
      var row := events[i];
      CountedStep(q, events, i, counted, ids);
      counted, ids := Advance(q, counted, row), if IsMatch(q, row) then ids + {row.messageId} else ids;
      i := i + 1;
      var inWindow := row.at >= q.start && row.at <= q.end;
      if inWindow { withinWindowRows := withinWindowRows + 1; }
      if !inWindow { continue; }
      var senderMatch := q.digest(row.from) == q.sender;
      var recipientMatch := q.digest(row.to) == q.recipient;
      var subjectMatch := row.subject == q.subject;
      if senderMatch { senderMatches := senderMatches + 1; }
      if recipientMatch { recipientMatches := recipientMatches + 1; }
      if subjectMatch { subjectMatches := subjectMatches + 1; }
      var delivered := row.status == "delivered";
      var terminal := row.isLastEvent == 1;
      if delivered { deliveredCount := deliveredCount + 1; }
      if terminal { terminalCount := terminalCount + 1; }
      if !senderMatch || !recipientMatch || !subjectMatch { continue; }
      identityMatches := identityMatches + 1;
      if delivered && terminal {
        deliveredTerminalMatches := deliveredTerminalMatches + 1;
        matchedRows := matchedRows + 1;
        matchedMessageIds := matchedMessageIds + {row.messageId};
      }
    }
    assert events[..i] == events;
    var pageFull := |events| >= PAGE_LIMIT;
    var uniqueMatchedMessageIds := |matchedMessageIds|;
    var duplicateMessageIds := matchedRows - uniqueMatchedMessageIds;
    s := Summary(
      |events|, |IdsOf(events)|, withinWindowRows, |events| - withinWindowRows,
      senderMatches, recipientMatches, subjectMatches, identityMatches,
      deliveredCount, terminalCount, matchedRows, uniqueMatchedMessageIds, duplicateMessageIds, pageFull,
      ClassifyWindow(pageFull, |events|, identityMatches, deliveredTerminalMatches,
                     matchedRows, uniqueMatchedMessageIds, duplicateMessageIds));
    CountersSummarize(q, events, counted, ids, s);
  }

  datatype Counters = Counters(
    within: nat, sender: nat, recipient: nat, subject: nat, identity: nat,
    delivered: nat, terminal: nat, deliveredTerminal: nat, matched: nat)

  /** The counters and the id set after some rows. */
  ghost predicate Counted(q: Query, events: seq<Event>, c: Counters, ids: set<string>) {
    && c.within == |Kept(events, InWindow(q))|
    && c.sender == |Kept(events, SenderMatches(q))|
    && c.recipient == |Kept(events, RecipientMatches(q))|
    && c.subject == |Kept(events, SubjectMatches(q))|
    && c.identity == |Kept(events, IdentityMatches(q))|
    && c.delivered == |Kept(events, Delivered(q))|
    && c.terminal == |Kept(events, Terminal(q))|
    && c.deliveredTerminal == c.matched == |Kept(events, Matches(q))|
    && ids == IdsOf(Kept(events, Matches(q)))
  }

  function One(b: bool): nat {
    if b then 1 else 0
  }

  predicate IsMatch(q: Query, e: Event) {
    && q.start <= e.at <= q.end
    && q.digest(e.from) == q.sender && q.digest(e.to) == q.recipient && e.subject == q.subject
    && e.status == "delivered" && e.isLastEvent == 1
  }

  /** What one row adds to each counter. */
  function Advance(q: Query, c: Counters, e: Event): Counters {
    var inWindow := q.start <= e.at <= q.end;
    var sender := inWindow && q.digest(e.from) == q.sender;
    var recipient := inWindow && q.digest(e.to) == q.recipient;
    var subject := inWindow && e.subject == q.subject;
    var matched := One(IsMatch(q, e));
    Counters(
      c.within + One(inWindow), c.sender + One(sender), c.recipient + One(recipient), c.subject + One(subject),
      c.identity + One(sender && recipient && subject),
      c.delivered + One(inWindow && e.status == "delivered"), c.terminal + One(inWindow && e.isLastEvent == 1),
      c.deliveredTerminal + matched, c.matched + matched)
  }

  lemma {:induction false} CountedStep(q: Query, events: seq<Event>, i: nat, c: Counters, ids: set<string>)
    requires i < |events| && Counted(q, events[..i], c, ids)
    ensures Counted(q, events[..i + 1], Advance(q, c, events[i]),
                    if IsMatch(q, events[i]) then ids + {events[i].messageId} else ids)
  {
    OneMoreRow(q, events, i);
    RowMatches(q, events[i]);
    hide Kept, IdsOf, InWindow, SenderMatches, RecipientMatches, SubjectMatches, IdentityMatches, Delivered, Terminal,
         Matches;
  }

  lemma CountersSummarize(q: Query, events: seq<Event>, c: Counters, ids: set<string>, s: Summary)
    requires Counted(q, events, c, ids)
    requires s == Summary(
                    |events|, |IdsOf(events)|, c.within, |events| - c.within,
                    c.sender, c.recipient, c.subject, c.identity, c.delivered, c.terminal,
                    c.matched, |ids|, c.matched - |ids|, |events| >= PAGE_LIMIT,
                    ClassifyWindow(|events| >= PAGE_LIMIT, |events|, c.identity, c.deliveredTerminal,
                                   c.matched, |ids|, c.matched - |ids|))
    ensures Summarizes(s, q, events) && s.classification == Explanation(q, events)
  {
    ClassificationExplains(q, events);
    hide Kept, IdsOf, Explanation, ClassifyWindow;
  }

  /** Why the diagnostic shows no window, if it does not. */
  function Unavailable(q: Query, raws: seq<RawRow>): Option<ErrorCode> {
    if !WindowIsValid(q) then Some(InvalidConfiguration)
    else if !AllDiagnosticRead(raws) then Some(ResponseInvalid)
    else None
  }

  /** The whole diagnostic: an unreadable row leaves the window unavailable under the code shown. */
  method Diagnose(q: Query, raws: seq<RawRow>) returns (r: Result<Summary, ErrorCode>)
    ensures if r.Err? then Unavailable(q, raws) == Some(r.error) else Unavailable(q, raws).None?
    ensures r == Err(InvalidConfiguration) <==> q.end <= q.start || q.end - q.start > 3_600_000
    ensures r == Err(ResponseInvalid)
       <==> 0 < q.end - q.start <= 3_600_000 && exists raw | raw in raws :: IsUnreadable(raw) || IsInGap(raw)
    ensures r.Ok? ==> (forall i | 0 <= i < |raws| :: raws[i].Row?) && Summarizes(r.value, q, EventsOf(raws))
    ensures r.Ok? && r.value.classification == PageTruncated ==> Gate(q, None, raws) == Err(ResultTruncated)
    ensures r.Ok? && r.value.classification == UniqueMatch ==>
              && |Kept(EventsOf(raws), Matches(q))| == 1
              && Gate(q, None, raws) == Ok(Kept(EventsOf(raws), Matches(q))[0])
    ensures r.Ok? && r.value.classification != PageTruncated && r.value.classification != UniqueMatch ==>
              Gate(q, None, raws) == Err(EventNotUnique)
  {
    DiagnosticRefuses(raws);
    if !WindowIsValid(q) { return Err(InvalidConfiguration); }
    if !AllDiagnosticRead(raws) { return Err(ResponseInvalid); }
    var s := SummarizeWindow(q, EventsOf(raws));
    r := Ok(s);
    ExplanationPredictsGate(q, raws);
  }

  lemma DiagnosticRefuses(raws: seq<RawRow>)
    ensures AllDiagnosticRead(raws) <==> forall raw | raw in raws :: !IsUnreadable(raw) && !IsInGap(raw)
  {
    forall raw ensures DiagnosticReads(raw) <==> !IsUnreadable(raw) && !IsInGap(raw) {
      ReadersExactly(raw);
    }
    hide DiagnosticReads, IsUnreadable, IsInGap;
    assert forall i | 0 <= i < |raws| :: raws[i] in raws;
  }

  // ---------- counting rows ----------

  lemma KeptGrows(events: seq<Event>, i: nat, p: Event -> bool)
    requires i < |events|
    ensures Kept(events[..i + 1], p) == Kept(events[..i], p) + (if p(events[i]) then [events[i]] else [])
  {
    KeptSnoc(events[..i], events[i], p);
    assert events[..i + 1] == events[..i] + [events[i]];
  }

  lemma RowMatches(q: Query, e: Event)
    ensures InWindow(q)(e) <==> q.start <= e.at <= q.end
    ensures SenderMatches(q)(e) <==> InWindow(q)(e) && q.digest(e.from) == q.sender
    ensures RecipientMatches(q)(e) <==> InWindow(q)(e) && q.digest(e.to) == q.recipient
    ensures SubjectMatches(q)(e) <==> InWindow(q)(e) && e.subject == q.subject
    ensures IdentityMatches(q)(e) <==> SenderMatches(q)(e) && RecipientMatches(q)(e) && SubjectMatches(q)(e)
    ensures Delivered(q)(e) <==> InWindow(q)(e) && e.status == "delivered"
    ensures Terminal(q)(e) <==> InWindow(q)(e) && e.isLastEvent == 1
    ensures Matches(q)(e) <==> IdentityMatches(q)(e) && Delivered(q)(e) && Terminal(q)(e)
  {
  }

  /** One more row raises each counter by what the row matches, and adds a matching row's id. */
  lemma OneMoreRow(q: Query, events: seq<Event>, i: nat)
    requires i < |events|
    ensures forall p: Event -> bool ::
              |Kept(events[..i + 1], p)| == |Kept(events[..i], p)| + (if p(events[i]) then 1 else 0)
    ensures IdsOf(Kept(events[..i + 1], Matches(q)))
         == IdsOf(Kept(events[..i], Matches(q))) + (if Matches(q)(events[i]) then {events[i].messageId} else {})
  {
    forall p ensures Kept(events[..i + 1], p) == Kept(events[..i], p) + (if p(events[i]) then [events[i]] else []) {
      KeptGrows(events, i, p);
    }
    hide Kept;
  }

  /** The ids are as many as the rows exactly when no two rows share one. */
  lemma {:induction false} IdsDistinct(events: seq<Event>)
    ensures |IdsOf(events)| <= |events|
    ensures |IdsOf(events)| == |events| <==>
              !Repeats(events)
  {
    if events != [] {
      var n := |events| - 1;
      var shorter, last := events[..n], events[n].messageId;
      IdsDistinct(shorter);
      assert events == shorter + [events[n]];
      assert IdsOf(events) == IdsOf(shorter) + {last};
      assert last in IdsOf(shorter) <==> exists k :: 0 <= k < n && events[k].messageId == last by {
        assert forall k | 0 <= k < n :: events[k] in shorter;
      }
      assert Repeats(events) <==> Repeats(shorter) || last in IdsOf(shorter) by {
        assert forall k | 0 <= k < n :: shorter[k] == events[k];
      }
    }
  }

  // ---------- the counters ----------

  /** Every row is counted on one side of the window, and each stricter count is no larger than the looser ones. */
  lemma {:induction false} CountersNest(s: Summary, q: Query, events: seq<Event>)
    requires Summarizes(s, q, events)
    ensures s.outsideWindowRows >= 0 && s.withinWindowRows + s.outsideWindowRows == s.rowsReturned
    ensures s.matchedRows <= s.identityMatches
    ensures s.identityMatches <= s.senderMatches <= s.withinWindowRows
    ensures s.identityMatches <= s.recipientMatches <= s.withinWindowRows
    ensures s.identityMatches <= s.subjectMatches <= s.withinWindowRows
    ensures s.matchedRows <= s.deliveredCount <= s.withinWindowRows
    ensures s.matchedRows <= s.terminalCount <= s.withinWindowRows
    ensures s.duplicateMessageIds >= 0
    ensures s.uniqueMatchedMessageIds <= s.uniqueReturnedMessageIds <= s.rowsReturned
  {
    KeptMeaning(events, InWindow(q));
    KeptMonotone(events, Matches(q), IdentityMatches(q));
    KeptMonotone(events, IdentityMatches(q), SenderMatches(q));
    KeptMonotone(events, IdentityMatches(q), RecipientMatches(q));
    KeptMonotone(events, IdentityMatches(q), SubjectMatches(q));
    KeptMonotone(events, SenderMatches(q), InWindow(q));
    KeptMonotone(events, RecipientMatches(q), InWindow(q));
    KeptMonotone(events, SubjectMatches(q), InWindow(q));
    KeptMonotone(events, Matches(q), Delivered(q));
    KeptMonotone(events, Matches(q), Terminal(q));
    KeptMonotone(events, Delivered(q), InWindow(q));
    KeptMonotone(events, Terminal(q), InWindow(q));
    var matching := Kept(events, Matches(q));
    KeptMeaning(events, Matches(q));
    IdsDistinct(matching);
    IdsDistinct(events);
    assert IdsOf(matching) <= IdsOf(events);
    SubsetIsNoLarger(IdsOf(matching), IdsOf(events));
  }

  lemma SubsetIsNoLarger<T>(a: set<T>, b: set<T>)
    requires a <= b
    ensures |a| <= |b|
  {
    assert b == a + (b - a);
  }

  /** The branches, taken in the order of the code, say what the rows say; the last branch is never reached. */
  lemma {:induction false} ClassificationExplains(q: Query, events: seq<Event>)
    ensures var matching := Kept(events, Matches(q));
            var identity := Kept(events, IdentityMatches(q));
            ClassifyWindow(|events| >= PAGE_LIMIT, |events|, |identity|, |matching|, |matching|,
                           |IdsOf(matching)|, |matching| - |IdsOf(matching)|) == Explanation(q, events)
  {
    var matching := Kept(events, Matches(q));
    var identity := Kept(events, IdentityMatches(q));
    IdsDistinct(matching);
    KeptMeaning(events, Matches(q));
    KeptMeaning(events, IdentityMatches(q));
    assert HasIdentity(q, events) <==> |identity| > 0 by {
      if identity != [] { assert identity[0] in identity; }
    }
    hide Kept, IdsOf, Repeats, Matches, IdentityMatches, HasIdentity;
  }

  // ---------- agreement with the gate ----------

  lemma {:induction false} GateMeaning(q: Query, expected: Option<string>, raws: seq<RawRow>)
    requires WindowIsValid(q) && |raws| < PAGE_LIMIT && AllGateRead(raws)
    ensures var matching := Kept(EventsOf(raws), Accepts(q, expected));
            Gate(q, expected, raws) == if |matching| == 1 then Ok(matching[0]) else Err(EventNotUnique)
  {
    var matching := Kept(EventsOf(raws), Accepts(q, expected));
    IdsDistinct(matching);
  }

  lemma {:induction false} ExplanationPredictsGate(q: Query, raws: seq<RawRow>)
    requires WindowIsValid(q) && AllDiagnosticRead(raws)
    ensures var matching := Kept(EventsOf(raws), Matches(q));
            var shown := Explanation(q, EventsOf(raws));
            && (shown == UniqueMatch ==> |matching| == 1)
            && Gate(q, None, raws) ==
               if shown == PageTruncated then Err(ResultTruncated)
               else if shown == UniqueMatch then Ok(matching[0])
               else Err(EventNotUnique)
  {
    var events := EventsOf(raws);
    KeptAgrees(events, Matches(q), Accepts(q, None));
    if |raws| < PAGE_LIMIT {
      GateMeaning(q, None, raws);
    }
  }

  /**
    The diagnostic shows a unique match exactly when the gate returns its event and no row falls in the gap
    between the two readers. Without the second conjunct the equivalence fails: see ReadersDisagree.
   */
  lemma {:induction false} UniqueMatchIffGateAccepts(q: Query, raws: seq<RawRow>)
    requires WindowIsValid(q)
    ensures (&& AllDiagnosticRead(raws)
             && Explanation(q, EventsOf(raws)) == UniqueMatch)
       <==> (&& Gate(q, None, raws).Ok?
             && (forall i | 0 <= i < |raws| :: |raws[i].event.subject| <= MAX_FIELD && raws[i].event.status != ""))
  {
    if AllDiagnosticRead(raws) {
      ExplanationPredictsGate(q, raws);
    }
  }

  /** With an expected message id, a unique match decides the gate by that one comparison. */
  lemma {:induction false} ExpectedIdDecides(q: Query, id: string, raws: seq<RawRow>)
    requires WindowIsValid(q) && AllDiagnosticRead(raws)
    requires Explanation(q, EventsOf(raws)) == UniqueMatch
    ensures Gate(q, None, raws).Ok?
    ensures Gate(q, Some(id), raws) ==
              if Gate(q, None, raws).value.messageId == id then Gate(q, None, raws) else Err(EventNotUnique)
  {
    var events := EventsOf(raws);
    var matching := Kept(events, Matches(q));
    ExplanationPredictsGate(q, raws);
    GateMeaning(q, Some(id), raws);
    KeptTwice(events, Matches(q), Accepts(q, Some(id)));
    assert matching == [matching[0]];
    KeptCons(matching[0], [], Accepts(q, Some(id)));
    assert [matching[0]] + [] == matching;
    KeptMeaning(events, Matches(q));
    assert matching[0] in matching;
  }

  /** An expected id can rescue an ambiguous window: the gate then accepts where the diagnostic shows several. */
  lemma {:induction false} ExpectedIdRescuesAmbiguity(q: Query, a: Event, b: Event)
    requires WindowIsValid(q) && Matches(q)(a) && Matches(q)(b) && a.messageId != b.messageId
    requires DiagnosticReads(Row(a)) && DiagnosticReads(Row(b))
    ensures Explanation(q, EventsOf([Row(a), Row(b)])) == MultipleMatches
    ensures Gate(q, None, [Row(a), Row(b)]) == Err(EventNotUnique)
    ensures Gate(q, Some(a.messageId), [Row(a), Row(b)]) == Ok(a)
  {
    var raws := [Row(a), Row(b)];
    ExplanationPredictsGate(q, raws);
    GateMeaning(q, Some(a.messageId), raws);
    KeptOfTwo(a, b, Matches(q));
    KeptOfTwo(a, b, Accepts(q, Some(a.messageId)));
    assert EventsOf(raws) == [a, b];
  }

  lemma {:induction false} KeptOfTwo(a: Event, b: Event, p: Event -> bool)
    ensures Kept([a, b], p) == (if p(a) then [a] else []) + (if p(b) then [b] else [])
  {
    KeptSnoc([a], b, p);
    KeptSnoc([], a, p);
    assert [] + [a] == [a] && [a] + [b] == [a, b];
  }

  /**
    A row in the gap between the readers, its status empty or its subject too long, leaves the diagnostic unavailable
    while the gate still returns its event. The expected subject is within the bound, as the input schema demands.
   */
  lemma {:induction false} ReadersDisagree(q: Query, good: Event, overlong: string)
    requires WindowIsValid(q) && Matches(q)(good) && GateReads(Row(good))
    requires |q.subject| <= MAX_FIELD < |overlong|
    ensures forall odd | odd == good.(status := "") || odd == good.(subject := overlong) ::
              && Gate(q, None, [Row(good), Row(odd)]) == Ok(good)
              && Unavailable(q, [Row(good), Row(odd)]) == Some(ResponseInvalid)
  {
    forall odd | odd == good.(status := "") || odd == good.(subject := overlong)
      ensures Gate(q, None, [Row(good), Row(odd)]) == Ok(good)
      ensures Unavailable(q, [Row(good), Row(odd)]) == Some(ResponseInvalid)
    {
      var raws := [Row(good), Row(odd)];
      assert AllGateRead(raws);
      GateMeaning(q, None, raws);
      KeptOfTwo(good, odd, Accepts(q, None));
      KeptOfTwo(good, odd, Accepts(q, None));
      assert EventsOf(raws) == [good, odd];
      assert Accepts(q, None)(good) && !Accepts(q, None)(odd) by {
        RowMatches(q, good);
        RowMatches(q, odd);
        assert |odd.subject| > MAX_FIELD ==> odd.subject != q.subject;
      }
      assert !DiagnosticReads(raws[1]);
    }
  }
}
