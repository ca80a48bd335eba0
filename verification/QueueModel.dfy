/**
  The AC209 queues as data: messages, marker matching, the provider's hidden
  state, the environment's moves, and the trace of calls a client makes.
 */
module QueueModel {
  import opened Outcomes
  import opened Sequences

  const MESSAGE_FIELD := "cfsa_ac209_test"
  const MAX_POLL_MS := 300_000
  const LIST_PAGE_SIZE := 100
  const PEEK_BATCH_SIZE := 100

  type QueueId = string

  datatype ErrorCode =
    | InvalidConfiguration
    | ProviderRequestFailed
    | ProviderResponseInvalid
    | QueueIdentityInvalid
    | ConsumerCountInvalid
    | ConsumerTypeInvalid
    | ConsumerQueueNameInvalid
    | ConsumerScriptInvalid
    | ConsumerDeadLetterQueueInvalid
    | ConsumerMaxRetriesInvalid
    | PreflightNotEmpty
    | MarkerNotObserved
    | MarkerAmbiguous
    | MarkerMessageInvalid
    | CleanupFailed

  datatype Boundary = QueueList | QueueConsumerList | QueuePeek | QueuePublish | QueuePurge

  datatype Diagnostic = Diagnostic(boundary: Boundary, code: ErrorCode, status: Option<int>)

  datatype Error = Error(code: ErrorCode, diagnostic: Option<Diagnostic>)

  // ---------- runtime bounds ----------

  datatype Runtime = Runtime(maxPages: nat, maxPolls: nat, pollIntervalMs: nat, peekBatchSize: nat)

  /** What validateRuntimeOptions guarantees about the numbers the loops rely on. */
  predicate ValidRuntime(r: Runtime) {
    && 1 <= r.maxPages <= 32
    && 1 <= r.maxPolls <= 600
    && r.maxPolls * r.pollIntervalMs <= MAX_POLL_MS
    && 1 <= r.peekBatchSize <= PEEK_BATCH_SIZE
  }

  /** A clock shows a JavaScript number. */
  datatype Instant = Finite(ms: real) | PositiveInfinity | NegativeInfinity | NotANumber

  /** What the caller's clock, sleep or callback throws: an error of the exercise's own class, or anything else. */
  datatype Thrown = Own(error: Error) | Foreign

  /** Reading the clock shows an instant or throws. */
  type Reading = Result<Instant, Thrown>

  /** The error the exercise makes of it. */
  function Normalized(thrown: Thrown): Error {
    match thrown
    case Own(error) => error
    case Foreign => Error(ProviderRequestFailed, None)
  }

  predicate AtOrAfter(now: Instant, deadline: real) {
    now.PositiveInfinity? || (now.Finite? && now.ms >= deadline)
  }

  predicate After(now: Instant, deadline: real) {
    now.PositiveInfinity? || (now.Finite? && now.ms > deadline)
  }

  // ---------- messages ----------

  datatype Json = Null | Text(text: string) | Number(n: int) | Record(fields: map<string, Json>) | Other

  /** A message body is a value, or a string together with what JSON.parse makes of it (None: it throws). */
  datatype Body = Value(value: Json) | Encoded(parsed: Option<Json>)

  /** A peeked record. None stands for a field that is missing or of another type. */
  datatype Message = Message(
    body: Body,
    id: Option<string>,
    ref: Option<string>,
    attempts: Option<int>,
    timestampMs: Option<int>)

  datatype MarkerMessage = MarkerMessage(id: string, ref: string, attempts: nat, timestampMs: nat)

  predicate IsMarkerValue(v: Json, marker: string) {
    v.Record? && |v.fields| == 1 && MESSAGE_FIELD in v.fields && v.fields[MESSAGE_FIELD] == Text(marker)
  }

  predicate IsMarkerBody(body: Body, marker: string) {
    match body
    case Value(v) => IsMarkerValue(v, marker)
    case Encoded(None) => false
    case Encoded(Some(v)) => IsMarkerValue(v, marker)
  }

  predicate IsMarker(m: Message, marker: string) {
    IsMarkerBody(m.body, marker)
  }

  predicate WellFormed(m: Message) {
    && m.id.Some? && m.id.value != ""
    && m.ref.Some? && m.ref.value != ""
    && m.attempts.Some? && m.attempts.value >= 0
    && m.timestampMs.Some? && m.timestampMs.value >= 0
  }

  function MatchingMessages(ms: seq<Message>, marker: string): (r: Result<seq<MarkerMessage>, Error>)
    ensures r.Ok? ==> |r.value| == Markers(ms, marker)
    ensures r.Err? ==> r.error == Error(MarkerMessageInvalid, None)
  {
    if ms == [] then Ok([])
    else if !IsMarker(ms[0], marker) then MatchingMessages(ms[1..], marker)
    else if !WellFormed(ms[0]) then Err(Error(MarkerMessageInvalid, None))
    else
      match MatchingMessages(ms[1..], marker)
      case Err(e) => Err(e)
      case Ok(rest) =>
        var first := MarkerMessage(ms[0].id.value, ms[0].ref.value, ms[0].attempts.value, ms[0].timestampMs.value);
        Ok([first] + rest)
  }

  /** Some marker message of ms carries this ref. */
  predicate NamesMarker(ms: seq<Message>, ref: string, marker: string) {
    exists m | m in ms :: IsMarker(m, marker) && m.ref == Some(ref)
  }

  lemma {:induction false} MatchesNameMarkers(ms: seq<Message>, marker: string)
    requires MatchingMessages(ms, marker).Ok?
    ensures forall x :: x in MatchingMessages(ms, marker).value ==> NamesMarker(ms, x.ref, marker)
  {
    if ms != [] {
      MatchesNameMarkers(ms[1..], marker);
      var rest := MatchingMessages(ms[1..], marker).value;
      forall x | x in MatchingMessages(ms, marker).value ensures NamesMarker(ms, x.ref, marker) {
        if x in rest {
          var m :| m in ms[1..] && IsMarker(m, marker) && m.ref == Some(x.ref);
          assert m in ms;
        } else {
          assert ms[0] in ms;
        }
      }
    }
  }

  /** A marker body is an object with the one field, given as a value or as a text that parses to it. */
  lemma {:induction false} MarkerBodyExactly(body: Body, marker: string)
    ensures var fields := Record(map["cfsa_ac209_test" := Text(marker)]);
            IsMarkerBody(body, marker) <==> body == Value(fields) || body == Encoded(Some(fields))
  {
    var fields := map["cfsa_ac209_test" := Text(marker)];
    forall v: Json | IsMarkerValue(v, marker) ensures v == Record(fields) {
      OneKey(v.fields, "cfsa_ac209_test");
      assert v.fields == fields;
    }
    assert |fields| == 1;
  }

  lemma OneKey<K, V>(m: map<K, V>, k: K)
    requires |m| == 1 && k in m
    ensures m.Keys == {k}
  {
    assert m.Keys == {k} + (m.Keys - {k});
    assert |m.Keys - {k}| == 0;
  }

  /** These are the fields of that record. */
  ghost predicate Reads(m: Message, found: MarkerMessage) {
    && m.id == Some(found.id) && found.id != ""
    && m.ref == Some(found.ref) && found.ref != ""
    && m.attempts == Some(found.attempts) && m.timestampMs == Some(found.timestampMs)
  }

  function HasMarker(marker: string): Message -> bool {
    (m: Message) => IsMarker(m, marker)
  }

  /** These matches are these records, one by one. */
  ghost predicate ReadAll(kept: seq<Message>, found: seq<MarkerMessage>) {
    |found| == |kept| && forall k | 0 <= k < |found| :: Reads(kept[k], found[k])
  }

  lemma ReadAllCons(m: Message, kept: seq<Message>, x: MarkerMessage, found: seq<MarkerMessage>)
    ensures ReadAll([m] + kept, [x] + found) <==> Reads(m, x) && ReadAll(kept, found)
  {
    hide Reads;
    var ms, xs := [m] + kept, [x] + found;
    if ReadAll(ms, xs) {
      assert Reads(ms[0], xs[0]);
      forall k | 0 <= k < |found| ensures Reads(kept[k], found[k]) {
        assert Reads(ms[k + 1], xs[k + 1]);
      }
    }
    if Reads(m, x) && ReadAll(kept, found) {
      forall k | 0 <= k < |xs| ensures Reads(ms[k], xs[k]) {
        assert k > 0 ==> Reads(kept[k - 1], found[k - 1]);
      }
    }
  }

  lemma ReadsExactly(m: Message, x: MarkerMessage)
    ensures Reads(m, x)
       <==> WellFormed(m) && x == MarkerMessage(m.id.value, m.ref.value, m.attempts.value, m.timestampMs.value)
  {
  }

  /** The matches are the marker records in order, field by field; there are none when one of them lacks a field. */
  lemma {:induction false} MatchingMessagesExactly(ms: seq<Message>, marker: string, found: seq<MarkerMessage>)
    ensures MatchingMessages(ms, marker) == Ok(found) <==> ReadAll(Kept(ms, HasMarker(marker)), found)
  {
    hide ReadAll, IsMarker, WellFormed, Reads;
    if ms == [] {
      assert ReadAll([], found) <==> found == [] by { NothingRead(found); }
    } else if !IsMarker(ms[0], marker) {
      MatchingMessagesExactly(ms[1..], marker, found);
      assert Kept(ms, HasMarker(marker)) == Kept(ms[1..], HasMarker(marker));
    } else if found == [] {
      NothingReadOf(Kept(ms, HasMarker(marker)));
    } else {
      MatchingMessagesExactly(ms[1..], marker, found[1..]);
      ReadAllCons(ms[0], Kept(ms[1..], HasMarker(marker)), found[0], found[1..]);
      ReadsExactly(ms[0], found[0]);
      assert found == [found[0]] + found[1..];
    }
  }

  lemma NothingRead(found: seq<MarkerMessage>)
    ensures ReadAll([], found) <==> found == []
  {
  }

  lemma NothingReadOf(kept: seq<Message>)
    ensures ReadAll(kept, []) <==> kept == []
  {
  }

  /** How many marker messages a queue or a page holds. */
  function Markers(ms: seq<Message>, marker: string): nat {
    if ms == [] then 0
    else (if IsMarker(ms[0], marker) then 1 else 0) + Markers(ms[1..], marker)
  }

  /** Everything in a queue that is not a marker message, in queue order. */
  function Bystanders(ms: seq<Message>, marker: string): seq<Message> {
    if ms == [] then []
    else (if IsMarker(ms[0], marker) then [] else [ms[0]]) + Bystanders(ms[1..], marker)
  }

  /** The effect of purging a ref: every message that carries it goes. */
  function WithoutRef(ms: seq<Message>, ref: string): seq<Message> {
    if ms == [] then []
    else (if ms[0].ref == Some(ref) then [] else [ms[0]]) + WithoutRef(ms[1..], ref)
  }

  // ---------- the provider's hidden state ----------

  /**
    Queue contents, and for every (queue, ref) pair ever issued whether it named a
    marker message. The second part is history: the provider never consults it.
   */
  datatype World = World(queues: map<QueueId, seq<Message>>, refKinds: map<(QueueId, string), bool>)

  function Queue(w: World, q: QueueId): seq<Message> {
    if q in w.queues then w.queues[q] else []
  }

  predicate RefRecorded(w: World, q: QueueId, m: Message, marker: string) {
    m.ref.Some? ==> (q, m.ref.value) in w.refKinds && w.refKinds[(q, m.ref.value)] == IsMarker(m, marker)
  }

  predicate RefsRecorded(w: World, marker: string) {
    forall q | q in w.queues :: forall m | m in w.queues[q] :: RefRecorded(w, q, m, marker)
  }

  /** Where marker messages come from and go to, and which message is the marker. */
  datatype Topology = Topology(source: QueueId, deadLetter: QueueId, marker: string)

  /**
    One move of the environment. Marker messages may leave the source for the
    dead-letter queue or vanish, so the source never gains one and the two queues
    together never gain one. Refs are never reused for the other kind of message.
    Everything else, all other messages included, may change in any way.
   */
  predicate EnvStep(t: Topology, w: World, w': World) {
    && Markers(Queue(w', t.source), t.marker) <= Markers(Queue(w, t.source), t.marker)
    && Markers(Queue(w', t.source), t.marker) + Markers(Queue(w', t.deadLetter), t.marker)
       <= Markers(Queue(w, t.source), t.marker) + Markers(Queue(w, t.deadLetter), t.marker)
    && (forall k | k in w.refKinds :: k in w'.refKinds && w'.refKinds[k] == w.refKinds[k])
    && RefsRecorded(w', t.marker)
  }

  /** A peek returns messages of the queue, and all of them when they are fewer than the batch. */
  predicate IsPage(page: seq<Message>, queue: seq<Message>, batch: nat) {
    && multiset(page) <= multiset(queue)
    && (|page| >= batch || |page| == |queue|)
  }

  predicate MarkerFree(t: Topology, w: World) {
    Markers(Queue(w, t.source), t.marker) == 0 && Markers(Queue(w, t.deadLetter), t.marker) == 0
  }

  // ---------- facts about messages ----------

  lemma MarkersZero(ms: seq<Message>, marker: string)
    ensures Markers(ms, marker) == 0 <==> forall m :: m in ms ==> !IsMarker(m, marker)
  {
    if ms != [] {
      MarkersZero(ms[1..], marker);
      assert ms == [ms[0]] + ms[1..];
    }
  }

  lemma MarkersAppend(ms: seq<Message>, m: Message, marker: string)
    ensures Markers(ms + [m], marker) == Markers(ms, marker) + if IsMarker(m, marker) then 1 else 0
  {
    if ms != [] {
      MarkersAppend(ms[1..], m, marker);
      assert (ms + [m])[1..] == ms[1..] + [m];
    }
  }

  lemma {:induction false} SubMultisetSameSize<T>(a: multiset<T>, b: multiset<T>)
    requires a <= b && |a| == |b|
    ensures a == b
  {
    assert b == a + (b - a);
  }

  /** A short page without a marker proves the queue has none. */
  lemma {:induction false} ShortPageShowsAbsence(page: seq<Message>, queue: seq<Message>, batch: nat, marker: string)
    requires IsPage(page, queue, batch) && |page| < batch
    ensures Markers(page, marker) == 0 <==> Markers(queue, marker) == 0
  {
    SubMultisetSameSize(multiset(page), multiset(queue));
    MarkersZero(page, marker);
    MarkersZero(queue, marker);
    assert forall m :: m in page <==> m in multiset(page);
    assert forall m :: m in queue <==> m in multiset(queue);
  }

  lemma {:induction false} WithoutRefEffect(ms: seq<Message>, ref: string, marker: string)
    ensures Markers(WithoutRef(ms, ref), marker) <= Markers(ms, marker)
    ensures forall m :: m in WithoutRef(ms, ref) <==> m in ms && m.ref != Some(ref)
    ensures (forall m :: m in ms && m.ref == Some(ref) ==> IsMarker(m, marker))
            ==> Bystanders(WithoutRef(ms, ref), marker) == Bystanders(ms, marker)
  {
    if ms != [] {
      WithoutRefEffect(ms[1..], ref, marker);
      assert ms == [ms[0]] + ms[1..];
      var tail := WithoutRef(ms[1..], ref);
      if ms[0].ref != Some(ref) {
        assert ([ms[0]] + tail)[1..] == tail;
      } else {
        assert WithoutRef(ms, ref) == tail;
      }
    }
  }
}
