/** The exercise: publish one marker, wait for it in the dead-letter queue, always clean up. */
module QueueExercise {
  import opened Outcomes
  import opened Sequences
  import opened QueueModel
  import opened QueueProvider
  import opened QueueListing
  import opened QueueCleanup

  datatype Expectation = Expectation(scriptName: string, maxRetries: nat, deadLetterQueueName: string)

  datatype Input = Input(
    sourceName: string,
    deadLetterName: string,
    expectedSourceId: Option<QueueId>,
    expectedDeadLetterId: QueueId,
    consumer: Expectation,
    hasCallback: bool)

  datatype Report = Report(
    sourceQueue: QueueEntry,
    deadLetterQueue: QueueEntry,
    observed: MarkerMessage,
    cleanup: CleanupReport)

  // ---------- consumer configuration ----------

  function MaxRetries(settings: Option<Json>): Json {
    if settings.Some? && settings.value.Record? && "max_retries" in settings.value.fields
    then settings.value.fields["max_retries"]
    else Number(3)
  }

  /** The first thing wrong with the source queue's consumers, if any. */
  function ConsumerProblem(consumers: seq<Consumer>, input: Input): Option<ErrorCode> {
    if |consumers| != 1 then Some(ConsumerCountInvalid)
    else
      var c := consumers[0];
      var script := Some(Text(input.consumer.scriptName));
      if c.kind != Some(Text("worker")) then Some(ConsumerTypeInvalid)
      else if c.queueName.Some? && c.queueName != Some(Text(input.sourceName)) then Some(ConsumerQueueNameInvalid)
      else if (c.scriptName.None? && c.script.None?)
              || (c.scriptName.Some? && c.scriptName != script) || (c.script.Some? && c.script != script)
      then Some(ConsumerScriptInvalid)
      else if c.deadLetterQueue != Some(Text(input.consumer.deadLetterQueueName))
      then Some(ConsumerDeadLetterQueueInvalid)
      else if c.settings.Some? && !c.settings.value.Record? then Some(ConsumerMaxRetriesInvalid)
      else if MaxRetries(c.settings) != Number(input.consumer.maxRetries) then Some(ConsumerMaxRetriesInvalid)
      else None
  }

  /** The retries that settings stand for: the ones named, or 3; settings that are no record stand for none. */
  ghost predicate SetsRetries(settings: Option<Json>, n: nat) {
    || (settings == None && n == 3)
    || exists fields ::
      settings == Some(Record(fields)) && if "max_retries" in fields then fields["max_retries"] == Number(n) else n == 3
  }

  /** Exactly one consumer, and all that it says of itself is as expected. */
  ghost predicate IsExpected(consumers: seq<Consumer>, input: Input) {
    exists c ::
      && consumers == [c]
      && c.kind == Some(Text("worker"))
      && c.queueName in {None, Some(Text(input.sourceName))}
      && {c.scriptName, c.script} - {None} == {Some(Text(input.consumer.scriptName))}
      && c.deadLetterQueue == Some(Text(input.consumer.deadLetterQueueName))
      && SetsRetries(c.settings, input.consumer.maxRetries)
  }

  /** What each error code says is wrong with some consumer, or with their number. */
  ghost predicate HasDefect(code: ErrorCode, consumers: seq<Consumer>, input: Input) {
    match code
    case ConsumerCountInvalid => |consumers| != 1
    case ConsumerTypeInvalid => exists c | c in consumers :: c.kind != Some(Text("worker"))
    case ConsumerQueueNameInvalid =>
      exists c | c in consumers :: c.queueName !in {None, Some(Text(input.sourceName))}
    case ConsumerScriptInvalid =>
      exists c | c in consumers :: {c.scriptName, c.script} - {None} != {Some(Text(input.consumer.scriptName))}
    case ConsumerDeadLetterQueueInvalid =>
      exists c | c in consumers :: c.deadLetterQueue != Some(Text(input.consumer.deadLetterQueueName))
    case ConsumerMaxRetriesInvalid =>
      exists c | c in consumers :: !SetsRetries(c.settings, input.consumer.maxRetries)
    case _ => false
  }

  const DEFECTS := {
    ConsumerCountInvalid, ConsumerTypeInvalid, ConsumerQueueNameInvalid, ConsumerScriptInvalid,
    ConsumerDeadLetterQueueInvalid, ConsumerMaxRetriesInvalid}

  ghost predicate IsOnlyDefect(code: ErrorCode, consumers: seq<Consumer>, input: Input) {
    && code in DEFECTS && HasDefect(code, consumers, input)
    && forall other | other in DEFECTS && other != code :: !HasDefect(other, consumers, input)
  }

  lemma RetriesMeaning(settings: Option<Json>, n: nat)
    ensures SetsRetries(settings, n)
       <==> (settings.Some? ==> settings.value.Record?) && MaxRetries(settings) == Number(n)
  {
    if settings.Some? && settings.value.Record? {
      assert settings == Some(Record(settings.value.fields));
    }
  }

  lemma ScriptMeaning(a: Option<Json>, b: Option<Json>, script: Option<Json>)
    requires script.Some?
    ensures {a, b} - {None} == {script}
       <==> (a.Some? || b.Some?) && (a.Some? ==> a == script) && (b.Some? ==> b == script)
  {
    var given := {a, b} - {None};
    if given == {script} {
      assert a.Some? ==> a in given;
      assert b.Some? ==> b in given;
      assert script in given;
    }
    if (a.Some? || b.Some?) && (a.Some? ==> a == script) && (b.Some? ==> b == script) {
      assert forall x :: x in given ==> x == script;
      assert script in given;
    }
  }

  /** Nothing is wrong exactly with the expected consumer; what is said to be wrong is; a single defect is named. */
  lemma {:induction false} ConsumerProblemExactly(consumers: seq<Consumer>, input: Input)
    ensures ConsumerProblem(consumers, input).None? <==> IsExpected(consumers, input)
    ensures var problem := ConsumerProblem(consumers, input);
            problem.Some? ==> HasDefect(problem.value, consumers, input)
    ensures forall code | IsOnlyDefect(code, consumers, input) :: ConsumerProblem(consumers, input) == Some(code)
  {
    hide SetsRetries, MaxRetries;
    if |consumers| == 1 {
      var c := consumers[0];
      assert consumers == [c] && c in consumers;
      RetriesMeaning(c.settings, input.consumer.maxRetries);
      ScriptMeaning(c.scriptName, c.script, Some(Text(input.consumer.scriptName)));
    }
  }

  // ---------- preparing ----------

  /**
    What must directly precede a publish: the source's consumers as expected, then
    both queues read empty and empty indeed, and the two queues are not one.
   */
  ghost predicate PublishGuarded(checks: seq<Event>, source: QueueId, deadLetter: QueueId, input: Input) {
    && source != deadLetter && |checks| == 3
    && checks[0].ListedConsumers? && checks[0].consumersOf == source
    && checks[0].consumers.Ok? && IsExpected(checks[0].consumers.value, input)
    && checks[1].Peeked? && checks[1].queue == source && checks[1].page == Ok([])
    && checks[2].Peeked? && checks[2].queue == deadLetter && checks[2].page == Ok([])
    && Queue(checks[1].world, source) == [] && Queue(checks[2].world, deadLetter) == []
  }

  function Identify(queues: seq<QueueEntry>, input: Input): Result<(QueueEntry, QueueEntry), Error> {
    var sources, deadLetters := Named(queues, input.sourceName), Named(queues, input.deadLetterName);
    if |sources| != 1 || |deadLetters| != 1 then Err(Error(QueueIdentityInvalid, None))
    else if deadLetters[0].id != input.expectedDeadLetterId
            || (input.expectedSourceId.Some? && sources[0].id != input.expectedSourceId.value)
    then Err(Error(QueueIdentityInvalid, None))
    else Ok((sources[0], deadLetters[0]))
  }

  /** Each name belongs to exactly one queue, and these have the expected ids. */
  lemma {:induction false} IdentifyExactly(queues: seq<QueueEntry>, input: Input, s: QueueEntry, d: QueueEntry)
    ensures Identify(queues, input) == Ok((s, d))
       <==> && OnlyNamed(queues, input.sourceName, s) && OnlyNamed(queues, input.deadLetterName, d)
            && d.id == input.expectedDeadLetterId && input.expectedSourceId in {None, Some(s.id)}
    ensures Identify(queues, input).Err? ==> Identify(queues, input).error == Error(QueueIdentityInvalid, None)
  {
    hide OnlyNamed, Named;
    NamedOne(queues, input.sourceName, s);
    NamedOne(queues, input.deadLetterName, d);
    SingleEntry(Named(queues, input.sourceName), s);
    SingleEntry(Named(queues, input.deadLetterName), d);
  }

  lemma SingleEntry(entries: seq<QueueEntry>, q: QueueEntry)
    ensures entries == [q] <==> |entries| == 1 && entries[0] == q
  {
  }

  /** The pair of queues a listing determines, or why it determines none. */
  ghost function FoundQueues(listing: seq<Event>, maxPages: nat, input: Input): Result<(QueueEntry, QueueEntry), Error>
    requires IsPageWalk(listing, maxPages)
  {
    match ListedQueues(listing, maxPages)
    case Err(e) => Err(e)
    case Ok(queues) => Identify(queues, input)
  }

  /** Lists the account and picks the pair of queues the input names. */
  method FindQueues(p: Provider, runtime: Runtime, input: Input)
    returns (r: Result<(QueueEntry, QueueEntry), Error>, ghost calls: seq<Event>)
    requires p.Valid() && ValidRuntime(runtime) && input.sourceName != input.deadLetterName
    modifies p
    ensures p.Valid() && EnvStep(p.topology, old(p.world), p.world) && old(p.moves) <= p.moves
    ensures p.trace == old(p.trace) + calls && p.readings == old(p.readings) && IsPageWalk(calls, runtime.maxPages)
    ensures r == FoundQueues(calls, runtime.maxPages, input)
    ensures r.Ok? ==>
      && r.value.0.name == input.sourceName && r.value.1.name == input.deadLetterName
      && r.value.1.id == input.expectedDeadLetterId && r.value.0.id != r.value.1.id
      && '\0' !in r.value.0.id && '\0' !in r.value.1.id
  {
    hide EnvStep, RefsRecorded, Accounted, Leads, ClientMoves, Effects, ListedQueues, Replayed;
    var listed, listing := ListQueues(p, runtime.maxPages);
    calls := listing;
    if listed.Err? {
      return Err(listed.error), calls;
    }
    var identified := Identify(listed.value, input);
    if identified.Err? {
      return Err(identified.error), calls;
    }
    var (source, deadLetter) := identified.value;
    assert source in Named(listed.value, input.sourceName) && deadLetter in Named(listed.value, input.deadLetterName);
    NamedEntries(listed.value, input.sourceName);
    NamedEntries(listed.value, input.deadLetterName);
    DistinctNamesDistinctIds(listed.value, input.sourceName, input.deadLetterName);
    ListedIdsAreQueueIds(listing, input.sourceName);
    ListedIdsAreQueueIds(listing, input.deadLetterName);
    return Ok((source, deadLetter)), calls;
  }

  /** The calls of the checks: each is made only after the one before it allowed it. */
  ghost predicate IsPreflight(checks: seq<Event>, source: QueueId, deadLetter: QueueId, input: Input) {
    && 1 <= |checks| <= 3
    && checks[0].ListedConsumers? && checks[0].consumersOf == source
    && (|checks| >= 2 <==> checks[0].consumers.Ok? && IsExpected(checks[0].consumers.value, input))
    && (|checks| >= 2 ==> checks[1].Peeked? && checks[1].queue == source && (|checks| == 3 <==> checks[1].page.Ok?))
    && (|checks| == 3 ==> checks[2].Peeked? && checks[2].queue == deadLetter)
  }

  /** What the checks find wrong, if anything. */
  ghost function PreflightProblem(checks: seq<Event>, source: QueueId, deadLetter: QueueId, input: Input): Option<Error>
    requires IsPreflight(checks, source, deadLetter, input)
  {
    if checks[0].consumers.Err? then Some(checks[0].consumers.error)
    else if ConsumerProblem(checks[0].consumers.value, input).Some? then
      Some(Error(ConsumerProblem(checks[0].consumers.value, input).value, None))
    else if checks[1].page.Err? then Some(checks[1].page.error)
    else if checks[2].page.Err? then Some(checks[2].page.error)
    else if |checks[1].page.value| > 0 || |checks[2].page.value| > 0 then Some(Error(PreflightNotEmpty, None))
    else None
  }

  /** The three checks between identifying the queues and publishing. */
  method Preflight(p: Provider, runtime: Runtime, input: Input, source: QueueId, deadLetter: QueueId)
    returns (problem: Option<Error>, ghost calls: seq<Event>)
    requires p.Valid() && ValidRuntime(runtime) && source != deadLetter
    modifies p
    ensures p.Valid() && EnvStep(p.topology, old(p.world), p.world) && old(p.moves) <= p.moves
    ensures p.trace == old(p.trace) + calls && p.readings == old(p.readings)
    ensures IsPreflight(calls, source, deadLetter, input)
    ensures problem == PreflightProblem(calls, source, deadLetter, input)
    ensures problem.None? ==> PublishGuarded(calls, source, deadLetter, input)
  {
    hide EnvStep, RefsRecorded, IsPage, ConsumerProblem, IsExpected, Accounted, Leads, ClientMoves, Effects;
    ghost var start := p.world;
    var consumers := p.ListConsumers(source);
    calls := [ListedConsumers(source, consumers)];
    if consumers.Err? {
      return Some(consumers.error), calls;
    }
    var misconfigured := ConsumerProblem(consumers.value, input);
    ConsumerProblemExactly(consumers.value, input);
    if misconfigured.Some? {
      return Some(Error(misconfigured.value, None)), calls;
    }
    ghost var w := p.world;
    var sourcePreflight := p.Peek(source, runtime.peekBatchSize);
    EnvTransitive(p.topology, start, w, p.world);
    calls := calls + [Peeked(source, sourcePreflight, p.world)];
    if sourcePreflight.Err? {
      return Some(sourcePreflight.error), calls;
    }
    w := p.world;
    var deadLetterPreflight := p.Peek(deadLetter, runtime.peekBatchSize);
    EnvTransitive(p.topology, start, w, p.world);
    calls := calls + [Peeked(deadLetter, deadLetterPreflight, p.world)];
    if deadLetterPreflight.Err? {
      return Some(deadLetterPreflight.error), calls;
    }
    if |sourcePreflight.value| > 0 || |deadLetterPreflight.value| > 0 {
      return Some(Error(PreflightNotEmpty, None)), calls;
    }
    return None, calls;
  }

  // ---------- polling ----------

  /** A poll that settled nothing: a short page without the marker. */
  ghost predicate Unobserved(poll: seq<Event>, deadLetter: QueueId, batch: nat, marker: string) {
    && |poll| == 1 && poll[0].Peeked? && poll[0].queue == deadLetter
    && poll[0].page.Ok? && |poll[0].page.value| < batch && Markers(poll[0].page.value, marker) == 0
  }

  ghost predicate Observes(poll: seq<Event>, deadLetter: QueueId, found: MarkerMessage, marker: string) {
    && |poll| == 1 && poll[0].Peeked? && poll[0].queue == deadLetter && poll[0].page.Ok?
    && MatchingMessages(poll[0].page.value, marker) == Ok([found])
  }

  function Polled(page: Result<seq<Message>, Error>, batch: nat, marker: string): Result<Option<MarkerMessage>, Error> {
    if page.Err? then Err(page.error)
    else
      var matches := MatchingMessages(page.value, marker);
      if matches.Err? then Err(matches.error)
      else if |matches.value| == 0 && |page.value| >= batch then Err(Error(MarkerAmbiguous, None))
      else if |matches.value| > 1 then Err(Error(MarkerAmbiguous, None))
      else if |matches.value| == 1 then Ok(Some(matches.value[0]))
      else Ok(None)
  }

  /** The marker is found on a page with one marker record; the search goes on after a short page without any. */
  lemma {:induction false} PolledExactly(page: seq<Message>, batch: nat, marker: string)
    ensures var matches, r := MatchingMessages(page, marker), Polled(Ok(page), batch, marker);
      && (matches.Err? <==> r == Err(Error(MarkerMessageInvalid, None)))
      && (forall m :: r == Ok(Some(m)) <==> matches == Ok([m]))
      && (r == Ok(None) <==> |page| < batch && forall m | m in page :: !IsMarker(m, marker))
      && (r == Err(Error(MarkerAmbiguous, None)) <==>
            && matches.Ok?
            && (|matches.value| > 1 || (|page| >= batch && forall m | m in page :: !IsMarker(m, marker))))
  {
    MarkersZero(page, marker);
    if Markers(page, marker) == 0 {
      NoMarkersParse(page, marker);
    }
    var matches := MatchingMessages(page, marker);
    assert matches.Ok? && |matches.value| == 1 ==> matches.value == [matches.value[0]];
  }

  lemma {:induction false} NoMarkersParse(page: seq<Message>, marker: string)
    requires Markers(page, marker) == 0
    ensures MatchingMessages(page, marker) == Ok([])
  {
    if page != [] {
      NoMarkersParse(page[1..], marker);
    }
  }

  const NOT_OBSERVED := Error(MarkerNotObserved, None)

  /** Why a clock that cannot be read, or is late, ends the search. */
  function ClockError(now: Reading): Error {
    if now.Err? then Normalized(now.error) else NOT_OBSERVED
  }

  /** One peek of the dead-letter queue: it failed, or its page is what the batch allows. */
  ghost predicate IsPoll(poll: seq<Event>, runtime: Runtime, deadLetter: QueueId) {
    && |poll| == 1 && poll[0].Peeked? && poll[0].queue == deadLetter
    && (poll[0].page.Ok? ==> IsPage(poll[0].page.value, Queue(poll[0].world, deadLetter), runtime.peekBatchSize))
  }

  /** One turn of the poll loop: look at the clock, then at the dead-letter queue. */
  method PollOnce(p: Provider, runtime: Runtime, deadLetter: QueueId, deadline: real)
    returns (r: Result<Option<MarkerMessage>, Error>, ghost poll: seq<Event>, ghost now: Reading)
    requires p.Valid()
    modifies p
    ensures p.Valid() && EnvStep(p.topology, old(p.world), p.world) && old(p.moves) <= p.moves
    ensures p.trace == old(p.trace) + poll && p.readings == old(p.readings) + [now]
    ensures poll == [] <==> now.Err? || After(now.value, deadline)
    ensures poll == [] ==> r == Err(ClockError(now))
    ensures poll != [] ==> IsPoll(poll, runtime, deadLetter)
    ensures poll != [] ==> r == Polled(poll[0].page, runtime.peekBatchSize, p.topology.marker)
  {
    hide EnvStep, RefsRecorded, Accounted, Leads, ClientMoves, Effects;
    poll := [];
    ghost var start := p.world;
    var reading := p.Now();
    now := reading;
    if reading.Err? {
      return Err(Normalized(reading.error)), poll, now;
    }
    if After(reading.value, deadline) {
      return Err(NOT_OBSERVED), poll, now;
    }
    ghost var w := p.world;
    var page := p.Peek(deadLetter, runtime.peekBatchSize);
    EnvTransitive(p.topology, start, w, p.world);
    poll := [Peeked(deadLetter, page, p.world)];
    r := Polled(page, runtime.peekBatchSize, p.topology.marker);
  }

  /** Every way polling can end without the marker. */
  ghost predicate PollingStopped(
    polls: seq<seq<Event>>, tail: seq<Event>, clock: seq<Reading>,
    runtime: Runtime, deadline: real, marker: string)
  {
    || (|clock| == |polls| + 1 && (clock[|polls|].Err? || After(clock[|polls|].value, deadline)))
    || (polls != [] && |polls[|polls| - 1]| == 1 && polls[|polls| - 1][0].Peeked?
        && Polled(polls[|polls| - 1][0].page, runtime.peekBatchSize, marker).Err?)
    || |polls| == runtime.maxPolls
    || FailedPause(tail, runtime.pollIntervalMs)
  }

  /** The outcome of polling, as a function of its peeks, its last pause and its readings of the clock. */
  ghost function PollVerdict(
    polls: seq<seq<Event>>, tail: seq<Event>, clock: seq<Reading>, runtime: Runtime, marker: string)
    : Result<MarkerMessage, Error>
    requires polls != [] ==> |polls[|polls| - 1]| == 1 && polls[|polls| - 1][0].Peeked?
  {
    if |clock| == |polls| + 1 then Err(ClockError(clock[|polls|]))
    else if polls == [] then Err(NOT_OBSERVED)
    else
      match Polled(polls[|polls| - 1][0].page, runtime.peekBatchSize, marker)
      case Err(e) => Err(e)
      case Ok(Some(found)) => Ok(found)
      case Ok(None) =>
        Err(if FailedPause(tail, runtime.pollIntervalMs) then Normalized(tail[0].sleepThrew.value) else NOT_OBSERVED)
  }

  /** Every poll so far saw a short page without the marker, each after a reading of the clock in time. */
  ghost predicate Searching(
    polls: seq<seq<Event>>, clock: seq<Reading>,
    runtime: Runtime, deadLetter: QueueId, deadline: real, marker: string)
  {
    && |polls| <= runtime.maxPolls && |clock| == |polls|
    && (forall k :: 0 <= k < |polls| ==>
          && IsPoll(polls[k], runtime, deadLetter)
          && Unobserved(polls[k], deadLetter, runtime.peekBatchSize, marker)
          && clock[k].Ok? && !After(clock[k].value, deadline))
  }

  /**
    What the calls of a whole search look like and what it makes of them: at most
    maxPolls peeks of the dead-letter queue, each in time, all but the last of
    short pages without the marker, with a pause after each but the last. The outcome is the
    verdict on them; a failure has one of the known causes; a success read a page
    with exactly one marker message, the one returned.
   */
  ghost predicate IsPollRun(
    r: Result<MarkerMessage, Error>, polls: seq<seq<Event>>, tail: seq<Event>, clock: seq<Reading>,
    runtime: Runtime, deadLetter: QueueId, deadline: real, marker: string)
  {
    && |polls| <= runtime.maxPolls && |polls| <= |clock| <= |polls| + 1
    && (forall k :: 0 <= k < |polls| ==> IsPoll(polls[k], runtime, deadLetter))
    && (forall k :: 0 <= k < |polls| - 1 ==> Unobserved(polls[k], deadLetter, runtime.peekBatchSize, marker))
    && (forall k :: 0 <= k < |polls| ==> clock[k].Ok? && !After(clock[k].value, deadline))
    && (|clock| > |polls| ==> clock[|polls|].Err? || After(clock[|polls|].value, deadline))
    && |tail| <= 1
    && (tail != [] ==>
          && tail[0].Slept? && tail[0].ms == runtime.pollIntervalMs && r.Err? && 0 < |polls| < runtime.maxPolls
          && Unobserved(polls[|polls| - 1], deadLetter, runtime.peekBatchSize, marker)
          && (tail[0].sleepThrew.Some? ==> |clock| == |polls|))
    && r == PollVerdict(polls, tail, clock, runtime, marker)
    && (r.Err? ==> PollingStopped(polls, tail, clock, runtime, deadline, marker))
    && (r.Ok? ==> polls != [] && Observes(polls[|polls| - 1], deadLetter, r.value, marker))
  }

  /** The pause before the next poll, if there is to be one. */
  ghost function Pause(polls: seq<seq<Event>>, runtime: Runtime, thrown: Option<Thrown>): seq<Event> {
    if 0 < |polls| < runtime.maxPolls then [Slept(runtime.pollIntervalMs, thrown)] else []
  }

  /** A clock that is unreadable or late ends the search. */
  lemma LateClockDecides(
    polls: seq<seq<Event>>, clock: seq<Reading>, now: Reading,
    runtime: Runtime, deadLetter: QueueId, deadline: real, marker: string)
    requires Searching(polls, clock, runtime, deadLetter, deadline, marker) && |polls| < runtime.maxPolls
    requires now.Err? || After(now.value, deadline)
    ensures IsPollRun(Err(ClockError(now)), polls, Pause(polls, runtime, None),
                      clock + [now], runtime, deadLetter, deadline, marker)
  {
    hide After, Polled;
  }

  /** A poll decides: its error, the marker it found, a failed pause, the last turn, or another turn. */
  lemma PollDecides(
    polls: seq<seq<Event>>, poll: seq<Event>, clock: seq<Reading>, now: Reading,
    runtime: Runtime, deadLetter: QueueId, deadline: real, marker: string)
    requires Searching(polls, clock, runtime, deadLetter, deadline, marker) && |polls| < runtime.maxPolls
    requires IsPoll(poll, runtime, deadLetter)
    requires now.Ok? && !After(now.value, deadline)
    ensures var grown, read := polls + [poll], clock + [now];
            match Polled(poll[0].page, runtime.peekBatchSize, marker)
            case Err(e) => IsPollRun(Err(e), grown, [], read, runtime, deadLetter, deadline, marker)
            case Ok(Some(found)) => IsPollRun(Ok(found), grown, [], read, runtime, deadLetter, deadline, marker)
            case Ok(None) =>
              && Searching(grown, read, runtime, deadLetter, deadline, marker)
              && (|grown| == runtime.maxPolls ==>
                    IsPollRun(Err(NOT_OBSERVED), grown, [], read, runtime, deadLetter, deadline, marker))
              && (|grown| < runtime.maxPolls ==>
                    forall thrown ::
                      IsPollRun(Err(Normalized(thrown)), grown, [Slept(runtime.pollIntervalMs, Some(thrown))], read,
                                runtime, deadLetter, deadline, marker))
  {
    hide After;
    var page := poll[0].page;
    assert page.Ok? && MatchingMessages(page.value, marker).Ok? && |MatchingMessages(page.value, marker).value| == 1 ==>
        MatchingMessages(page.value, marker).value == [MatchingMessages(page.value, marker).value[0]];
  }

  /** The loop. */
  method PollLoop(p: Provider, runtime: Runtime, deadLetter: QueueId, deadline: real)
    returns (r: Result<MarkerMessage, Error>, ghost polls: seq<seq<Event>>, ghost tail: seq<Event>,
             ghost clock: seq<Reading>)
    requires p.Valid() && ValidRuntime(runtime)
    modifies p
    ensures p.Valid() && EnvStep(p.topology, old(p.world), p.world) && old(p.moves) <= p.moves
    ensures p.trace == old(p.trace) + RunTrace(polls, runtime.pollIntervalMs) + tail
    ensures p.readings == old(p.readings) + clock
    ensures IsPollRun(r, polls, tail, clock, runtime, deadLetter, deadline, p.topology.marker)
  {
    hide ValidRuntime, EnvStep, RefsRecorded, Accounted, Leads, ClientMoves, Effects, RunTrace, PurgesIn, PurgesOf,
         Polled, After, Searching, IsPollRun, PollVerdict, PollingStopped, Observes, Unobserved;
    polls, tail, clock := [], [], [];
    NothingPolled(runtime, deadLetter, deadline, p.topology.marker);
    EnvReflexive(p.topology, p.world);
    var poll := 0;
    while poll < runtime.maxPolls
      invariant 0 <= poll == |polls| <= runtime.maxPolls
      invariant p.Valid() && EnvStep(p.topology, old(p.world), p.world) && old(p.moves) <= p.moves
      invariant p.readings == old(p.readings) + clock
      invariant tail == Pause(polls, runtime, None)
      invariant p.trace == old(p.trace) + RunTrace(polls, runtime.pollIntervalMs) + tail
      invariant Searching(polls, clock, runtime, deadLetter, deadline, p.topology.marker)
      invariant poll == runtime.maxPolls ==>
        IsPollRun(Err(NOT_OBSERVED), polls, [], clock, runtime, deadLetter, deadline, p.topology.marker)
    {
      ghost var w, earlier := p.world, polls;
      var polled, call, now := PollOnce(p, runtime, deadLetter, deadline);
      EnvTransitive(p.topology, old(p.world), w, p.world);
      Reassociate(old(p.readings), clock, [now]);
      if call == [] {
        LateClockDecides(polls, clock, now, runtime, deadLetter, deadline, p.topology.marker);
      } else {
        PollDecides(polls, call, clock, now, runtime, deadLetter, deadline, p.topology.marker);
        TraceGrows(old(p.trace), earlier, call, runtime.pollIntervalMs);
        polls, tail := earlier + [call], [];
      }
      clock := clock + [now];
      if polled.Err? {
        return Err(polled.error), polls, tail, clock;
      }
      if polled.value.Some? {
        return Ok(polled.value.value), polls, tail, clock;
      }
      if poll + 1 < runtime.maxPolls {
        w := p.world;
        var slept := p.Sleep(runtime.pollIntervalMs);
        EnvTransitive(p.topology, old(p.world), w, p.world);
        tail := [Slept(runtime.pollIntervalMs, slept)];
        if slept.Some? {
          return Err(Normalized(slept.value)), polls, tail, clock;
        }
      }
      poll := poll + 1;
    }
    return Err(NOT_OBSERVED), polls, tail, clock;
  }

  /** Polls until the marker shows. */
  method PollDeadLetter(p: Provider, runtime: Runtime, deadLetter: QueueId, deadline: real)
    returns (r: Result<MarkerMessage, Error>, ghost polls: seq<seq<Event>>, ghost tail: seq<Event>,
             ghost clock: seq<Reading>)
    requires p.Valid() && ValidRuntime(runtime)
    modifies p
    ensures p.Valid() && EnvStep(p.topology, old(p.world), p.world) && old(p.moves) <= p.moves
    // The calls and readings of this search are these and no others, and the outcome is the verdict on them.
    ensures p.trace == old(p.trace) + (RunTrace(polls, runtime.pollIntervalMs) + tail)
    ensures p.readings == old(p.readings) + clock
    ensures IsPollRun(r, polls, tail, clock, runtime, deadLetter, deadline, p.topology.marker)
    // It only looks, and sleeps at most 300 seconds in all.
    ensures OnlyLooks(RunTrace(polls, runtime.pollIntervalMs) + tail)
    ensures SleptMs(RunTrace(polls, runtime.pollIntervalMs) + tail) <= 300_000
  {
    hide ValidRuntime, EnvStep, RefsRecorded, Accounted, Leads, ClientMoves, Effects, RunTrace, IsPollRun, OnlyLooks,
         SleptMs;
    r, polls, tail, clock := PollLoop(p, runtime, deadLetter, deadline);
    SearchLooksWithinBound(r, polls, tail, clock, runtime, deadLetter, deadline, p.topology.marker);
    Reassociate(old(p.trace), RunTrace(polls, runtime.pollIntervalMs), tail);
  }

  lemma NothingPolled(runtime: Runtime, deadLetter: QueueId, deadline: real, marker: string)
    requires ValidRuntime(runtime)
    ensures runtime.maxPolls >= 1 && RunTrace([], runtime.pollIntervalMs) == []
    ensures Searching([], [], runtime, deadLetter, deadline, marker)
  {
  }

  // ---------- the journal of a run ----------

  /** Everything a run did, by stage. */
  datatype Journal = Journal(
    started: Reading,
    listing: seq<Event>,
    checks: seq<Event>,
    publish: Option<Event>,
    polls: seq<seq<Event>>,
    pollTail: seq<Event>,
    work: seq<Event>,
    pollClock: seq<Reading>,
    passes: seq<seq<Event>>,
    cleanTail: seq<Event>,
    cleanClock: seq<Reading>)

  predicate HasStarted(j: Journal) {
    j.started.Ok? && j.started.value.Finite?
  }

  function Deadline(j: Journal): real
    requires HasStarted(j)
  {
    j.started.value.ms + MAX_POLL_MS as real
  }

  ghost function Polling(j: Journal, intervalMs: nat): seq<Event> {
    RunTrace(j.polls, intervalMs) + j.pollTail
  }

  ghost function Cleaning(j: Journal, intervalMs: nat): seq<Event> {
    RunTrace(j.passes, intervalMs) + j.cleanTail
  }

  /** The calls of the try block. */
  ghost function TryCalls(j: Journal, intervalMs: nat): seq<Event> {
    (j.listing + j.checks) + (if j.publish.None? then [] else [j.publish.value] + (Polling(j, intervalMs) + j.work))
  }

  ghost function Calls(j: Journal, intervalMs: nat): seq<Event> {
    TryCalls(j, intervalMs) + Cleaning(j, intervalMs)
  }

  function MarkerBody(marker: string): Body {
    Value(Record(map[MESSAGE_FIELD := Text(marker)]))
  }

  ghost predicate NothingAfterPublish(j: Journal) {
    j.polls == [] && j.pollTail == [] && j.work == [] && j.pollClock == []
  }

  /**
    How far a try block got and why not further: each stage was reached exactly
    because the one before it succeeded, and left the calls it must leave.
   */
  ghost predicate IsTry(j: Journal, runtime: Runtime, input: Input, marker: string) {
    && IsPageWalk(j.listing, runtime.maxPages)
    && (j.publish.None? ==> NothingAfterPublish(j))
    && if !HasStarted(j) then j.listing == [] && j.checks == [] && j.publish.None?
       else
         match FoundQueues(j.listing, runtime.maxPages, input)
         case Err(e) => j.checks == [] && j.publish.None?
         case Ok((source, deadLetter)) =>
           && IsPreflight(j.checks, source.id, deadLetter.id, input)
           && (j.publish.Some? <==> PreflightProblem(j.checks, source.id, deadLetter.id, input).None?)
           && (j.publish.Some? ==>
                 && PublishGuarded(j.checks, source.id, deadLetter.id, input)
                 && j.publish.value.Published? && j.publish.value.publishedTo == source.id
                 && j.publish.value.body == MarkerBody(marker)
                 && if j.publish.value.accepted.Err? then NothingAfterPublish(j)
                    else IsSearch(j, runtime, input, deadLetter.id, marker))
  }

  /** The polls form a whole search, and the caller's work ran exactly when there is some and the marker was found. */
  ghost predicate IsSearch(j: Journal, runtime: Runtime, input: Input, deadLetter: QueueId, marker: string)
    requires HasStarted(j)
  {
    && (j.polls != [] ==> |j.polls[|j.polls| - 1]| == 1 && j.polls[|j.polls| - 1][0].Peeked?)
    && var found := PollVerdict(j.polls, j.pollTail, j.pollClock, runtime, marker);
      && IsPollRun(found, j.polls, j.pollTail, j.pollClock, runtime, deadLetter, Deadline(j), marker)
      && if found.Ok? && input.hasCallback then |j.work| == 1 && j.work[0].Worked? else j.work == []
  }

  /** What the caller's work threw, if it ran and did. */
  function WorkError(j: Journal): Option<Error> {
    if |j.work| == 1 && j.work[0].Worked? && j.work[0].workThrew.Some? then Some(Normalized(j.work[0].workThrew.value))
    else None
  }

  /** The error of the try block, as a function of what it did: the first stage that failed names it. */
  ghost function PrimaryError(j: Journal, runtime: Runtime, input: Input, marker: string): Option<Error>
    requires IsTry(j, runtime, input, marker)
  {
    if !HasStarted(j) then Some(Error(InvalidConfiguration, None))
    else
      match FoundQueues(j.listing, runtime.maxPages, input)
      case Err(e) => Some(e)
      case Ok((source, deadLetter)) =>
        if j.publish.None? then PreflightProblem(j.checks, source.id, deadLetter.id, input)
        else if j.publish.value.accepted.Err? then Some(j.publish.value.accepted.error)
        else
          match PollVerdict(j.polls, j.pollTail, j.pollClock, runtime, marker)
          case Err(e) => Some(e)
          case Ok(_) => WorkError(j)
  }

  /**
    A whole run: a try block, then a cleanup of the two queues exactly when a
    publish was attempted, whether or not it was accepted.
   */
  ghost predicate IsExercise(j: Journal, runtime: Runtime, input: Input, marker: string) {
    && IsTry(j, runtime, input, marker)
    && if j.publish.None? then j.passes == [] && j.cleanTail == [] && j.cleanClock == []
       else
         && FoundQueues(j.listing, runtime.maxPages, input).Ok?
         && var (source, deadLetter) := FoundQueues(j.listing, runtime.maxPages, input).value;
           exists outcome ::
             IsCleanupRun(outcome, j.passes, j.cleanTail, j.cleanClock, runtime, source.id, deadLetter.id, true, marker)
  }

  /** The cleanup's outcome, as a function of its calls. */
  ghost function CleanupOutcome(j: Journal, runtime: Runtime, input: Input, marker: string)
    : Result<CleanupReport, Error>
    requires IsExercise(j, runtime, input, marker) && j.publish.Some?
  {
    CleanupVerdict(j.passes, j.cleanClock, runtime, true, marker)
  }

  /** The error of the try block wins over one of the cleanup; without either there is a report. */
  ghost function RunVerdict(j: Journal, runtime: Runtime, input: Input, marker: string): Result<Report, Error>
    requires IsExercise(j, runtime, input, marker)
  {
    var primary := PrimaryError(j, runtime, input, marker);
    if primary.Some? then Err(primary.value)
    else
      match CleanupOutcome(j, runtime, input, marker)
      case Err(e) => Err(e)
      case Ok(cleanup) =>
        var (source, deadLetter) := FoundQueues(j.listing, runtime.maxPages, input).value;
        Ok(Report(source, deadLetter, PollVerdict(j.polls, j.pollTail, j.pollClock, runtime, marker).value, cleanup))
  }

  // ---------- the try block ----------

  /** What the try block leaves behind. */
  datatype Attempt = Attempt(
    queues: Option<(QueueEntry, QueueEntry)>,
    pushAttempted: bool,
    observed: Option<MarkerMessage>,
    error: Option<Error>)

  /** What a try block's variables say about what it did. */
  ghost predicate Reflects(a: Attempt, j: Journal, runtime: Runtime, input: Input, marker: string) {
    && IsTry(j, runtime, input, marker)
    && a.error == PrimaryError(j, runtime, input, marker)
    && (a.pushAttempted <==> j.publish.Some?)
    && (a.pushAttempted ==>
          && HasStarted(j) && FoundQueues(j.listing, runtime.maxPages, input).Ok?
          && a.queues == Some(FoundQueues(j.listing, runtime.maxPages, input).value))
    && (a.error.None? ==>
          && a.pushAttempted && j.publish.value.accepted.Ok? && a.observed.Some?
          && PollVerdict(j.polls, j.pollTail, j.pollClock, runtime, marker) == Ok(a.observed.value))
  }

  /** After the publish: poll, then run the caller's work. */
  method AwaitMarker(
    p: Provider, runtime: Runtime, input: Input, deadLetter: QueueId, startedAt: real, ghost j: Journal)
    returns (r: Result<MarkerMessage, Error>, ghost done: Journal)
    requires p.Valid() && ValidRuntime(runtime) && j.started == Ok(Finite(startedAt))
    modifies p
    ensures p.Valid() && EnvStep(p.topology, old(p.world), p.world) && old(p.moves) <= p.moves
    ensures done == j.(polls := done.polls, pollTail := done.pollTail, work := done.work, pollClock := done.pollClock)
    ensures p.trace == old(p.trace) + (Polling(done, runtime.pollIntervalMs) + done.work)
    ensures p.readings == old(p.readings) + done.pollClock
    ensures IsSearch(done, runtime, input, deadLetter, p.topology.marker)
    ensures var found := PollVerdict(done.polls, done.pollTail, done.pollClock, runtime, p.topology.marker);
            r == if found.Ok? && WorkError(done).Some? then Err(WorkError(done).value) else found
  {
    hide EnvStep, RefsRecorded, Accounted, Leads, ClientMoves, Effects, RunTrace, IsPollRun, PollVerdict, ValidRuntime;
    var deadline := startedAt + MAX_POLL_MS as real;
    var polled, polls, tail, clock := PollDeadLetter(p, runtime, deadLetter, deadline);
    PollRunIsVerdict(polled, polls, tail, clock, runtime, deadLetter, deadline, p.topology.marker);
    done := j.(polls := polls, pollTail := tail, pollClock := clock, work := []);
    ghost var walked := Polling(done, runtime.pollIntervalMs);
    if polled.Err? || !input.hasCallback {
      return polled, done;
    }
    ghost var before := p.world;
    var thrown := p.RunWhileMessagePresent();
    EnvTransitive(p.topology, old(p.world), before, p.world);
    done := done.(work := [Worked(thrown)]);
    Reassociate(old(p.trace), walked, done.work);
    if thrown.Some? {
      return Err(Normalized(thrown.value)), done;
    }
    return polled, done;
  }

  lemma PollRunIsVerdict(
    r: Result<MarkerMessage, Error>, polls: seq<seq<Event>>, tail: seq<Event>, clock: seq<Reading>,
    runtime: Runtime, deadLetter: QueueId, deadline: real, marker: string)
    requires IsPollRun(r, polls, tail, clock, runtime, deadLetter, deadline, marker)
    ensures polls != [] ==> |polls[|polls| - 1]| == 1 && polls[|polls| - 1][0].Peeked?
    ensures r == PollVerdict(polls, tail, clock, runtime, marker)
  {
  }

  method TryExercise(p: Provider, runtime: Runtime, input: Input, startedAt: real)
    returns (a: Attempt, ghost j: Journal)
    requires p.Valid() && ValidRuntime(runtime) && input.sourceName != input.deadLetterName
    modifies p
    ensures p.Valid() && old(p.moves) <= p.moves
    ensures p.trace == old(p.trace) + TryCalls(j, runtime.pollIntervalMs) && p.readings == old(p.readings) + j.pollClock
    ensures Reflects(a, j, runtime, input, p.topology.marker) && j.started == Ok(Finite(startedAt))
    ensures j.passes == [] && j.cleanTail == [] && j.cleanClock == []
    ensures j.publish.Some? ==>
      && '\0' !in a.queues.value.0.id && '\0' !in a.queues.value.1.id
      && SparesBystanders(j.publish.value.worldBefore, j.publish.value.worldAfter, p.topology.marker)
  {
    hide EnvStep, RefsRecorded, Accounted, Leads, ClientMoves, Effects, RunTrace, FoundQueues, IsPreflight,
         PreflightProblem, PublishGuarded, IsSearch, PollVerdict, IsPageWalk, ValidRuntime, SparesBystanders, Enqueued;
    j := Journal(Ok(Finite(startedAt)), [], [], None, [], [], [], [], [], [], []);
    var found, listing := FindQueues(p, runtime, input);
    j := j.(listing := listing);
    if found.Err? {
      assert TryCalls(j, runtime.pollIntervalMs) == listing;
      return Attempt(None, false, None, Some(found.error)), j;
    }
    var (source, deadLetter) := found.value;
    var problem, checks := Preflight(p, runtime, input, source.id, deadLetter.id);
    j := j.(checks := checks);
    Reassociate(old(p.trace), listing, checks);
    if problem.Some? {
      assert TryCalls(j, runtime.pollIntervalMs) == listing + checks;
      return Attempt(Some((source, deadLetter)), false, None, problem), j;
    }
    var published := p.Publish(source.id, MarkerBody(p.topology.marker));
    ghost var call := p.trace[|p.trace| - 1];
    j := j.(publish := Some(call));
    PublishedMarkerSpares(call, p.topology);
    Reassociate(old(p.trace), listing + checks, [call]);
    if published.Err? {
      assert RunTrace([], runtime.pollIntervalMs) == [] by { NoRun(runtime.pollIntervalMs); }
      assert TryCalls(j, runtime.pollIntervalMs) == listing + checks + [call];
      return Attempt(Some((source, deadLetter)), true, None, Some(published.error)), j;
    }
    var awaited, done := AwaitMarker(p, runtime, input, deadLetter.id, startedAt, j);
    j := done;
    Reassociate(old(p.trace), listing + checks + [call], Polling(j, runtime.pollIntervalMs) + j.work);
    Reassociate(listing + checks, [call], Polling(j, runtime.pollIntervalMs) + j.work);
    a := Attempt(
      Some((source, deadLetter)),
      true,
      if awaited.Ok? then Some(awaited.value) else None,
      if awaited.Err? then Some(awaited.error) else None);
  }

  lemma NoRun(intervalMs: nat)
    ensures RunTrace([], intervalMs) == []
  {
  }

  /** The marker's own publish adds no bystander, whether or not it was accepted. */
  lemma PublishedMarkerSpares(e: Event, t: Topology)
    requires e.Published? && e.body == MarkerBody(t.marker)
    requires e.worldAfter == e.worldBefore
             || exists m: Message ::
                  m.body == e.body && e.worldAfter == Enqueued(e.worldBefore, e.publishedTo, m, t.marker)
    ensures SparesBystanders(e.worldBefore, e.worldAfter, t.marker)
  {
    if m: Message :| m.body == e.body && e.worldAfter == Enqueued(e.worldBefore, e.publishedTo, m, t.marker) {
      EnqueuedMarkerSpares(e.worldBefore, e.publishedTo, m, t.marker);
    }
  }

  // ---------- the whole run ----------

  /** Calls that neither purge nor publish change nothing, so they spare every bystander. */
  ghost predicate OnlyLooks(calls: seq<Event>) {
    forall e :: e in calls ==> !e.Purged? && !e.Published?
  }

  lemma {:induction false} RunOnlyLooks(polls: seq<seq<Event>>, intervalMs: nat)
    requires forall k :: 0 <= k < |polls| ==> |polls[k]| == 1 && polls[k][0].Peeked?
    ensures OnlyLooks(RunTrace(polls, intervalMs))
  {
    if |polls| > 1 {
      RunOnlyLooks(polls[..|polls| - 1], intervalMs);
    }
  }

  /** The polls of a search only look, and sleep at most 300 seconds in all. */
  lemma {:induction false} SearchLooksWithinBound(
    r: Result<MarkerMessage, Error>, polls: seq<seq<Event>>, tail: seq<Event>, clock: seq<Reading>,
    runtime: Runtime, deadLetter: QueueId, deadline: real, marker: string)
    requires ValidRuntime(runtime) && IsPollRun(r, polls, tail, clock, runtime, deadLetter, deadline, marker)
    ensures OnlyLooks(RunTrace(polls, runtime.pollIntervalMs) + tail)
    ensures SleptMs(RunTrace(polls, runtime.pollIntervalMs) + tail) <= 300_000
  {
    hide PollVerdict, PollingStopped, Observes, Unobserved;
    forall k, e | 0 <= k < |polls| && e in polls[k] ensures !e.Slept? {
      assert e == polls[k][0];
    }
    RunOnlyLooks(polls, runtime.pollIntervalMs);
    RunSleepsWithinBound(runtime, polls, tail);
  }

  /** A try block spares every bystander, publishes at most the marker, and sleeps at most 300 seconds. */
  lemma {:induction false} TrySparesWithinBound(j: Journal, runtime: Runtime, input: Input, marker: string)
    requires ValidRuntime(runtime) && IsTry(j, runtime, input, marker)
    requires j.publish.Some? ==> SparesBystanders(j.publish.value.worldBefore, j.publish.value.worldAfter, marker)
    ensures CallsSpare(TryCalls(j, runtime.pollIntervalMs), marker)
    ensures SleptMs(Polling(j, runtime.pollIntervalMs)) <= 300_000
    ensures SleptMs(TryCalls(j, runtime.pollIntervalMs)) == SleptMs(Polling(j, runtime.pollIntervalMs))
  {
    hide SparesBystanders, FoundQueues, PreflightProblem, PublishGuarded, PollVerdict, IsPollRun, ValidRuntime, SleptMs,
         RunTrace;
    var ms := runtime.pollIntervalMs;
    NoRun(ms);
    LooksSpare(j.listing, marker);
    LooksSpare(j.checks, marker);
    BothSpare(j.listing, j.checks, marker);
    NoSleep(j.listing);
    NoSleep(j.checks);
    SleptAppend(j.listing, j.checks);
    if j.publish.None? {
      NoSleep(Polling(j, ms));
      assert TryCalls(j, ms) == j.listing + j.checks;
    } else {
      var published := [j.publish.value];
      if j.publish.value.accepted.Ok? {
        var deadLetter := FoundQueues(j.listing, runtime.maxPages, input).value.1.id;
        SearchLooksWithinBound(
          PollVerdict(j.polls, j.pollTail, j.pollClock, runtime, marker), j.polls, j.pollTail, j.pollClock,
          runtime, deadLetter, Deadline(j), marker);
      } else {
        assert Polling(j, ms) == [];
        NoSleep(Polling(j, ms));
      }
      LooksSpare(Polling(j, ms), marker);
      LooksSpare(j.work, marker);
      BothSpare(Polling(j, ms), j.work, marker);
      BothSpare(published, Polling(j, ms) + j.work, marker);
      BothSpare(j.listing + j.checks, published + (Polling(j, ms) + j.work), marker);
      NoSleep(published);
      NoSleep(j.work);
      SleptAppend(Polling(j, ms), j.work);
      SleptAppend(published, Polling(j, ms) + j.work);
      SleptAppend(j.listing + j.checks, published + (Polling(j, ms) + j.work));
    }
  }

  lemma LooksSpare(calls: seq<Event>, marker: string)
    requires OnlyLooks(calls)
    ensures CallsSpare(calls, marker)
  {
  }

  /** Recording the cleanup leaves what the try block did. */
  lemma CleanupIsLater(
    a: Attempt, j: Journal, runtime: Runtime, input: Input, marker: string,
    passes: seq<seq<Event>>, tail: seq<Event>, clock: seq<Reading>)
    requires Reflects(a, j, runtime, input, marker)
    ensures var done := j.(passes := passes, cleanTail := tail, cleanClock := clock);
            && Reflects(a, done, runtime, input, marker)
            && TryCalls(done, runtime.pollIntervalMs) == TryCalls(j, runtime.pollIntervalMs)
  {
    hide FoundQueues, IsPreflight, PreflightProblem, PublishGuarded, IsPollRun, PollVerdict, IsPageWalk;
  }

  /** Without a publish the try block's error is the run's. */
  lemma NothingToClean(a: Attempt, j: Journal, runtime: Runtime, input: Input, marker: string)
    requires Reflects(a, j, runtime, input, marker) && !a.pushAttempted
    requires j.passes == [] && j.cleanTail == [] && j.cleanClock == []
    ensures IsExercise(j, runtime, input, marker) && a.error.Some?
    ensures RunVerdict(j, runtime, input, marker) == Err(a.error.value)
  {
    hide FoundQueues, IsPreflight, PreflightProblem, PublishGuarded, IsPollRun, PollVerdict, IsPageWalk;
  }

  /** With a cleanup the run's result is decided by the two outcomes; the exercise's own last test never fails. */
  lemma CleanedUp(
    a: Attempt, j: Journal, runtime: Runtime, input: Input, marker: string, outcome: Result<CleanupReport, Error>)
    requires Reflects(a, j, runtime, input, marker) && a.pushAttempted
    requires IsCleanupRun(outcome, j.passes, j.cleanTail, j.cleanClock, runtime,
                          a.queues.value.0.id, a.queues.value.1.id, true, marker)
    ensures IsExercise(j, runtime, input, marker)
    ensures outcome.Ok? ==>
      outcome.value.purgedRefCount == PurgesIn(j.passes) && PurgesIn(j.passes) >= 1 && |j.passes| >= 2
    ensures RunVerdict(j, runtime, input, marker)
         == if a.error.Some? then Err(a.error.value)
            else if outcome.Err? then Err(outcome.error)
            else Ok(Report(a.queues.value.0, a.queues.value.1, a.observed.value, outcome.value))
  {
    OutcomeIsVerdict(outcome, j, runtime, a.queues.value.0.id, a.queues.value.1.id, marker);
    hide IsTry, PrimaryError, IsCleanupRun, CleanupVerdict, PollVerdict, FoundQueues, PurgesIn;
  }

  lemma OutcomeIsVerdict(
    r: Result<CleanupReport, Error>, j: Journal, runtime: Runtime, source: QueueId, deadLetter: QueueId, marker: string)
    requires IsCleanupRun(r, j.passes, j.cleanTail, j.cleanClock, runtime, source, deadLetter, true, marker)
    ensures j.passes != [] ==>
      var last := j.passes[|j.passes| - 1]; |last| >= 2 && last[0].Peeked? && last[1].Peeked?
    ensures r == CleanupVerdict(j.passes, j.cleanClock, runtime, true, marker)
    ensures r.Ok? ==> r.value.purgedRefCount == PurgesIn(j.passes) && PurgesIn(j.passes) >= 1 && |j.passes| >= 2
  {
    assert j.passes != [] ==> PassShape(j.passes[|j.passes| - 1], source, deadLetter, marker);
  }

  /** What holds of all calls of a run, stage by stage. */
  lemma {:induction false} RunTotals(j: Journal, runtime: Runtime, input: Input, marker: string)
    requires ValidRuntime(runtime) && IsExercise(j, runtime, input, marker)
    requires j.publish.Some? ==> SparesBystanders(j.publish.value.worldBefore, j.publish.value.worldAfter, marker)
    ensures CallsSpare(Calls(j, runtime.pollIntervalMs), marker)
    ensures SleptMs(Polling(j, runtime.pollIntervalMs)) <= 300_000
    ensures SleptMs(Cleaning(j, runtime.pollIntervalMs)) <= 300_000
    ensures SleptMs(Calls(j, runtime.pollIntervalMs))
         == SleptMs(Polling(j, runtime.pollIntervalMs)) + SleptMs(Cleaning(j, runtime.pollIntervalMs))
  {
    var ms := runtime.pollIntervalMs;
    TrySparesWithinBound(j, runtime, input, marker);
    if j.publish.None? {
      NoRun(ms);
      assert Cleaning(j, ms) == [];
      NoSleep(Cleaning(j, ms));
      LooksSpare(Cleaning(j, ms), marker);
    } else {
      CleaningTotals(j, runtime, input, marker);
    }
    hide SparesBystanders, IsExercise, CallsSpare, SleptMs, RunTrace, TryCalls, Cleaning, Polling;
    BothSpare(TryCalls(j, ms), Cleaning(j, ms), marker);
    SleptAppend(TryCalls(j, ms), Cleaning(j, ms));
  }

  lemma CleaningTotals(j: Journal, runtime: Runtime, input: Input, marker: string)
    requires ValidRuntime(runtime) && IsExercise(j, runtime, input, marker) && j.publish.Some?
    ensures CallsSpare(Cleaning(j, runtime.pollIntervalMs), marker)
    ensures SleptMs(Cleaning(j, runtime.pollIntervalMs)) <= 300_000
  {
    hide FoundQueues, CleanupStopped, CleanupVerdict, EndsClean, AllPurgesAccepted, PassFailed, AllPasses,
         ValidRuntime, CallsSpare, SleptMs, RunTrace;
    var (source, deadLetter) := FoundQueues(j.listing, runtime.maxPages, input).value;
    var outcome :|
      IsCleanupRun(outcome, j.passes, j.cleanTail, j.cleanClock, runtime, source.id, deadLetter.id, true, marker);
    PassesSleepWithinBound(runtime, j.passes, j.cleanTail, source.id, deadLetter.id, marker);
    PassesSpare(j.passes, runtime.pollIntervalMs, source.id, deadLetter.id, marker);
    PauseSpares(RunTrace(j.passes, runtime.pollIntervalMs), j.cleanTail, marker);
  }

  /** The try block and its finally block. */
  method TryAndClean(p: Provider, runtime: Runtime, input: Input, startedAt: real)
    returns (r: Result<Report, Error>, ghost j: Journal)
    requires p.Valid() && ValidRuntime(runtime) && input.sourceName != input.deadLetterName
    modifies p
    ensures p.Valid() && old(p.moves) <= p.moves && j.started == Ok(Finite(startedAt))
    ensures p.trace == old(p.trace) + Calls(j, runtime.pollIntervalMs)
    ensures p.readings == old(p.readings) + (j.pollClock + j.cleanClock)
    ensures IsExercise(j, runtime, input, p.topology.marker) && r == RunVerdict(j, runtime, input, p.topology.marker)
    ensures r.Ok? ==> r.value.cleanup.purgedRefCount == PurgesIn(j.passes) && PurgesIn(j.passes) >= 1 && |j.passes| >= 2
    ensures r.Ok? && r.value.sourceQueue.id == p.topology.source && r.value.deadLetterQueue.id == p.topology.deadLetter
            ==> MarkerFree(p.topology, p.world)
    ensures j.publish.Some? ==>
      SparesBystanders(j.publish.value.worldBefore, j.publish.value.worldAfter, p.topology.marker)
  {
    hide EnvStep, RefsRecorded, Accounted, Leads, ClientMoves, Effects, RunTrace, Reflects, TryCalls, IsExercise,
         RunVerdict, MarkerFree, ValidRuntime, SleptMs, ChangedOnlyBy, SparesBystanders, PurgesIn, IsCleanupRun;
    var a, tried := TryExercise(p, runtime, input, startedAt);
    j := tried;
    ReflectsAttempt(a, j, runtime, input, p.topology.marker);
    if !a.pushAttempted {
      NoRun(runtime.pollIntervalMs);
      NothingToClean(a, j, runtime, input, p.topology.marker);
      assert Calls(j, runtime.pollIntervalMs) == TryCalls(j, runtime.pollIntervalMs);
      assert j.pollClock + j.cleanClock == j.pollClock;
      return Err(a.error.value), j;
    }
    var (source, deadLetter) := a.queues.value;
    var cleaned, passes, tail, clock := CleanupResolved(p, runtime, source.id, deadLetter.id, true);
    CleanupIsLater(a, j, runtime, input, p.topology.marker, passes, tail, clock);
    Reassociate(old(p.trace), TryCalls(j, runtime.pollIntervalMs), RunTrace(passes, runtime.pollIntervalMs) + tail);
    Reassociate(old(p.readings), j.pollClock, clock);
    j := j.(passes := passes, cleanTail := tail, cleanClock := clock);
    CleanedUp(a, j, runtime, input, p.topology.marker, cleaned);
    if a.error.Some? {
      return Err(a.error.value), j;
    }
    if cleaned.Err? {
      return Err(cleaned.error), j;
    }
    if cleaned.value.purgedRefCount < 1 {
      assert false;  // a required marker was purged
      return Err(Error(CleanupFailed, None)), j;
    }
    r := Ok(Report(source, deadLetter, a.observed.value, cleaned.value));
  }

  lemma ReflectsAttempt(a: Attempt, j: Journal, runtime: Runtime, input: Input, marker: string)
    requires Reflects(a, j, runtime, input, marker)
    ensures a.pushAttempted <==> j.publish.Some?
    ensures a.pushAttempted ==> a.queues.Some?
    ensures !a.pushAttempted ==> a.error.Some?
    ensures a.error.None? ==> a.observed.Some?
  {
  }

  /**
    The run. The journal holds all its calls and readings and no others; its
    stages follow each other as they must, cleanup included; and the result is
    the verdict on the journal.
   */
  method RunExercise(p: Provider, runtime: Runtime, input: Input)
    returns (r: Result<Report, Error>, ghost j: Journal)
    requires p.Valid() && ValidRuntime(runtime) && input.sourceName != input.deadLetterName
    modifies p
    ensures p.Valid()
    ensures p.trace == old(p.trace) + Calls(j, runtime.pollIntervalMs)
    ensures p.readings == old(p.readings) + ([j.started] + (j.pollClock + j.cleanClock))
    ensures IsExercise(j, runtime, input, p.topology.marker)
    ensures r == RunVerdict(j, runtime, input, p.topology.marker)
    // A report follows a purge and a later clean pass; then the marker is gone.
    ensures r.Ok? ==> r.value.cleanup.purgedRefCount == PurgesIn(j.passes) && PurgesIn(j.passes) >= 1 && |j.passes| >= 2
    ensures r.Ok? && r.value.sourceQueue.id == p.topology.source && r.value.deadLetterQueue.id == p.topology.deadLetter
            ==> MarkerFree(p.topology, p.world)
    // Each of the two loops sleeps at most 300 seconds, and nothing else sleeps.
    ensures SleptMs(Polling(j, runtime.pollIntervalMs)) <= 300_000
    ensures SleptMs(Cleaning(j, runtime.pollIntervalMs)) <= 300_000
    ensures SleptMs(Calls(j, runtime.pollIntervalMs))
         == SleptMs(Polling(j, runtime.pollIntervalMs)) + SleptMs(Cleaning(j, runtime.pollIntervalMs))
    // Whatever happened to a bystander, the environment did it.
    ensures ChangedOnlyBy(p.topology, p.env, old(p.world), old(p.moves), p.world, p.moves,
                          Calls(j, runtime.pollIntervalMs))
  {
    hide EnvStep, RefsRecorded, Leads, ClientMoves, Effects, RunTrace, IsExercise, RunVerdict, MarkerFree,
         ValidRuntime, SleptMs, ChangedOnlyBy, CallsSpare, SparesBystanders, PurgesIn, Calls, Polling, Cleaning;
    var started := p.Now();
    if started.Err? || !started.value.Finite? {
      j := Journal(started, [], [], None, [], [], [], [], [], [], []);
      NothingTried(j, runtime, input, p.topology.marker);
      assert old(p.trace) + [] == old(p.trace);
      r := Err(Error(InvalidConfiguration, None));
    } else {
      ghost var read := p.readings;
      r, j := TryAndClean(p, runtime, input, started.value.ms);
      Reassociate(old(p.readings), [started], j.pollClock + j.cleanClock);
    }
    RunTotals(j, runtime, input, p.topology.marker);
    SparingRun(p.topology, p.env, p.origin, old(p.moves), old(p.trace), old(p.world),
               p.moves, Calls(j, runtime.pollIntervalMs), p.world);
  }

  /** A clock that cannot be read, or shows no finite time, ends the run before any call. */
  lemma NothingTried(j: Journal, runtime: Runtime, input: Input, marker: string)
    requires j == Journal(j.started, [], [], None, [], [], [], [], [], [], []) && !HasStarted(j)
    ensures IsExercise(j, runtime, input, marker)
    ensures RunVerdict(j, runtime, input, marker) == Err(Error(InvalidConfiguration, None))
    ensures Calls(j, runtime.pollIntervalMs) == []
  {
  }

  // ---------- what a run says of its replies ----------

  /** The stage at which the source's consumers are known. */
  ghost predicate KnowsConsumers(j: Journal, consumers: seq<Consumer>) {
    j.checks != [] && j.checks[0].ListedConsumers? && j.checks[0].consumers == Ok(consumers)
  }

  /** A publish takes the expected consumer, which is never refused; a single defect ends the run with its own code. */
  lemma {:induction false} ConsumersDecide(
    j: Journal, runtime: Runtime, input: Input, marker: string, consumers: seq<Consumer>)
    requires IsExercise(j, runtime, input, marker)
    ensures j.publish.Some? ==> exists expected :: KnowsConsumers(j, expected) && IsExpected(expected, input)
    ensures KnowsConsumers(j, consumers) && IsExpected(consumers, input) ==> |j.checks| >= 2 && j.checks[1].Peeked?
    ensures forall code | KnowsConsumers(j, consumers) && IsOnlyDefect(code, consumers, input) ::
              j.publish.None? && RunVerdict(j, runtime, input, marker) == Err(Error(code, None))
  {
    hide IsExpected, HasDefect, ConsumerProblem, IsCleanupRun, CleanupVerdict, FoundQueues, IsPollRun, IsPageWalk,
         IsSearch;
    ConsumerProblemExactly(consumers, input);
    if j.publish.Some? {
      assert KnowsConsumers(j, j.checks[0].consumers.value);
    }
    forall code | KnowsConsumers(j, consumers) && IsOnlyDefect(code, consumers, input)
      ensures j.publish.None? && RunVerdict(j, runtime, input, marker) == Err(Error(code, None))
    {
      assert ConsumerProblem(consumers, input) == Some(code);
    }
  }

  /** The one message published is the marker under its field name, sent to the queue whose consumer was verified. */
  lemma PublishedIsMarker(j: Journal, runtime: Runtime, input: Input, marker: string)
    requires IsExercise(j, runtime, input, marker) && j.publish.Some?
    ensures j.publish.value.Published? && j.publish.value.body == Value(Record(map["cfsa_ac209_test" := Text(marker)]))
    ensures j.checks != [] && j.checks[0].ListedConsumers? && j.publish.value.publishedTo == j.checks[0].consumersOf
  {
    hide IsCleanupRun, FoundQueues, IsPollRun, IsPageWalk, IsSearch, IsExpected;
  }

  /** The error that something thrown by the caller's clock, sleep or callback stands for. */
  ghost predicate StandsFor(thrown: Thrown, error: Error) {
    || thrown == Own(error)
    || (thrown == Foreign && error == Error(ProviderRequestFailed, None))
  }

  /** What is thrown while the marker is awaited is the run's error; at the very start it is a wrong configuration. */
  lemma {:induction false} ThrownEndsRun(j: Journal, runtime: Runtime, input: Input, marker: string)
    requires IsExercise(j, runtime, input, marker)
    ensures var r := RunVerdict(j, runtime, input, marker);
      && (j.started.Err? ==> r == Err(Error(InvalidConfiguration, None)) && j.listing == [] && j.publish.None?)
      && (forall t | |j.pollClock| > |j.polls| && j.pollClock[|j.polls|] == Err(t) :: r.Err? && StandsFor(t, r.error))
      && (forall t | |j.work| > 0 && j.work[0] == Worked(Some(t)) :: r.Err? && StandsFor(t, r.error))
      && (forall t, ms | |j.pollTail| > 0 && j.pollTail[0] == Slept(ms, Some(t)) :: r.Err? && StandsFor(t, r.error))
  {
    hide IsCleanupRun, CleanupVerdict, FoundQueues, IsPageWalk, IsExpected, PublishGuarded, IsPreflight,
         PreflightProblem, IsPollRun, PollVerdict;
    if j.publish.Some? && j.publish.value.accepted.Ok? {
      var deadLetter := FoundQueues(j.listing, runtime.maxPages, input).value.1.id;
      ThrownEndsSearch(
        PollVerdict(j.polls, j.pollTail, j.pollClock, runtime, marker), j.polls, j.pollTail, j.pollClock,
        runtime, deadLetter, Deadline(j), marker);
    }
  }

  /** The clock shows a time after this one. */
  ghost predicate ShowsAfter(reading: Reading, ms: real) {
    reading == Ok(PositiveInfinity) || exists now :: reading == Ok(Finite(now)) && now > ms
  }

  /** No poll is made once the clock shows more than 300000 ms after the start; then the marker was not observed. */
  lemma {:induction false} ClockOfSearch(j: Journal, runtime: Runtime, input: Input, marker: string)
    requires IsExercise(j, runtime, input, marker) && j.publish.Some? && j.publish.value.accepted.Ok?
    ensures exists start: real ::
      && j.started == Ok(Finite(start)) && |j.pollClock| >= |j.polls|
      && (forall k | 0 <= k < |j.polls| :: j.pollClock[k].Ok? && !ShowsAfter(j.pollClock[k], start + 300_000.0))
      && (|j.pollClock| > |j.polls| && j.pollClock[|j.polls|].Ok? ==>
            && ShowsAfter(j.pollClock[|j.polls|], start + 300_000.0)
            && RunVerdict(j, runtime, input, marker) == Err(Error(MarkerNotObserved, None)))
  {
    hide IsCleanupRun, CleanupVerdict, FoundQueues, IsPageWalk, IsExpected, PublishGuarded, IsPreflight,
         PreflightProblem, Unobserved, Observes, Polled;
    var deadLetter := FoundQueues(j.listing, runtime.maxPages, input).value.1.id;
    var start := j.started.value.ms;
    assert j.started == Ok(Finite(start)) && Deadline(j) == start + 300_000.0;
    var found := PollVerdict(j.polls, j.pollTail, j.pollClock, runtime, marker);
    assert IsPollRun(found, j.polls, j.pollTail, j.pollClock, runtime, deadLetter, Deadline(j), marker);
  }

  lemma {:induction false} ThrownEndsSearch(
    r: Result<MarkerMessage, Error>, polls: seq<seq<Event>>, tail: seq<Event>, clock: seq<Reading>,
    runtime: Runtime, deadLetter: QueueId, deadline: real, marker: string)
    requires IsPollRun(r, polls, tail, clock, runtime, deadLetter, deadline, marker)
    ensures forall t | |clock| > |polls| && clock[|polls|] == Err(t) :: r.Err? && StandsFor(t, r.error)
    ensures forall t, ms | |tail| > 0 && tail[0] == Slept(ms, Some(t)) :: r.Err? && StandsFor(t, r.error)
  {
    if tail != [] {
      NoMarkersParse(polls[|polls| - 1][0].page.value, marker);
    }
  }

  // ---------- the stand-alone cleanup ----------

  datatype CleanupTarget = CleanupTarget(
    sourceName: string,
    deadLetterName: string,
    expectedSourceId: QueueId,
    expectedDeadLetterId: QueueId)

  function Resolve(queues: seq<QueueEntry>, target: CleanupTarget): Result<(QueueEntry, QueueEntry), Error> {
    var sources, deadLetters := Named(queues, target.sourceName), Named(queues, target.deadLetterName);
    if |sources| != 1 || |deadLetters| != 1 then Err(Error(QueueIdentityInvalid, None))
    else if sources[0].id != target.expectedSourceId || deadLetters[0].id != target.expectedDeadLetterId
            || sources[0].id == deadLetters[0].id
    then Err(Error(QueueIdentityInvalid, None))
    else Ok((sources[0], deadLetters[0]))
  }

  /** Each name belongs to exactly one queue, and these are two and have the expected ids. */
  lemma {:induction false} ResolveExactly(queues: seq<QueueEntry>, target: CleanupTarget, s: QueueEntry, d: QueueEntry)
    ensures Resolve(queues, target) == Ok((s, d))
       <==> && OnlyNamed(queues, target.sourceName, s) && OnlyNamed(queues, target.deadLetterName, d)
            && s.id == target.expectedSourceId != target.expectedDeadLetterId == d.id
    ensures Resolve(queues, target).Err? ==> Resolve(queues, target).error == Error(QueueIdentityInvalid, None)
  {
    hide OnlyNamed, Named;
    NamedOne(queues, target.sourceName, s);
    NamedOne(queues, target.deadLetterName, d);
    SingleEntry(Named(queues, target.sourceName), s);
    SingleEntry(Named(queues, target.deadLetterName), d);
  }

  /** The pair of queues a listing determines for a cleanup, or why it determines none. */
  ghost function Resolved(listing: seq<Event>, maxPages: nat, target: CleanupTarget)
    : Result<(QueueEntry, QueueEntry), Error>
    requires IsPageWalk(listing, maxPages)
  {
    match ListedQueues(listing, maxPages)
    case Err(e) => Err(e)
    case Ok(queues) => Resolve(queues, target)
  }

  /**
    Cleanup on its own. Its calls are a listing and, exactly when that determines
    the two expected queues, a whole cleanup of them, in which no marker is
    required; it calls nothing else, so it never publishes.
   */
  method CleanupMarker(p: Provider, runtime: Runtime, target: CleanupTarget)
    returns (r: Result<CleanupReport, Error>, ghost listing: seq<Event>, ghost passes: seq<seq<Event>>,
             ghost tail: seq<Event>, ghost clock: seq<Reading>)
    requires p.Valid() && ValidRuntime(runtime)
    modifies p
    ensures p.Valid()
    ensures p.trace == old(p.trace) + (listing + (RunTrace(passes, runtime.pollIntervalMs) + tail))
    ensures p.readings == old(p.readings) + clock && IsPageWalk(listing, runtime.maxPages)
    ensures
      match Resolved(listing, runtime.maxPages, target)
      case Err(e) => r == Err(e) && passes == [] && tail == [] && clock == []
      case Ok(_) =>
        && target.expectedSourceId != target.expectedDeadLetterId
        && IsCleanupRun(r, passes, tail, clock, runtime, target.expectedSourceId, target.expectedDeadLetterId, false,
                        p.topology.marker)
    ensures SleptMs(RunTrace(passes, runtime.pollIntervalMs) + tail) <= 300_000
    ensures
      r.Ok? && target.expectedSourceId == p.topology.source && target.expectedDeadLetterId == p.topology.deadLetter
      ==> MarkerFree(p.topology, p.world)
    ensures ChangedOnlyBy(p.topology, p.env, old(p.world), old(p.moves), p.world, p.moves,
                          listing + (RunTrace(passes, runtime.pollIntervalMs) + tail))
  {
    hide EnvStep, RefsRecorded, Leads, ClientMoves, Effects, RunTrace, ListedQueues, Replayed, MarkerFree, SleptMs,
         ChangedOnlyBy, CallsSpare, IsCleanupRun;
    passes, tail, clock := [], [], [];
    var listed, calls := ListQueues(p, runtime.maxPages);
    listing := calls;
    var resolved := if listed.Err? then Err(listed.error) else Resolve(listed.value, target);
    if resolved.Err? {
      OnlyListed(p, old(p.moves), old(p.trace), old(p.world), listing, runtime);
      return Err(resolved.error), listing, passes, tail, clock;
    }
    var (source, deadLetter) := resolved.value;
    assert source in Named(listed.value, target.sourceName) && deadLetter in Named(listed.value, target.deadLetterName);
    ListedIdsAreQueueIds(listing, target.sourceName);
    ListedIdsAreQueueIds(listing, target.deadLetterName);
    r, passes, tail, clock := CleanupResolved(p, runtime, source.id, deadLetter.id, false);
    ghost var cleaning := RunTrace(passes, runtime.pollIntervalMs) + tail;
    Reassociate(old(p.trace), listing, cleaning);
    CleanupSpares(r, passes, tail, clock, runtime, source.id, deadLetter.id, p.topology.marker);
    LooksSpare(listing, p.topology.marker);
    BothSpare(listing, cleaning, p.topology.marker);
    SparingRun(p.topology, p.env, p.origin, old(p.moves), old(p.trace), old(p.world),
               p.moves, listing + cleaning, p.world);
  }

  lemma CleanupSpares(
    r: Result<CleanupReport, Error>, passes: seq<seq<Event>>, tail: seq<Event>, clock: seq<Reading>,
    runtime: Runtime, source: QueueId, deadLetter: QueueId, marker: string)
    requires IsCleanupRun(r, passes, tail, clock, runtime, source, deadLetter, false, marker)
    ensures CallsSpare(RunTrace(passes, runtime.pollIntervalMs) + tail, marker)
  {
    hide CallsSpare, RunTrace, AllPasses;
    PassesSpare(passes, runtime.pollIntervalMs, source, deadLetter, marker);
    PauseSpares(RunTrace(passes, runtime.pollIntervalMs), tail, marker);
  }

  /** A listing that resolves to no pair leaves everything to the environment. */
  lemma OnlyListed(
    p: Provider, moves: seq<Move>, trace: seq<Event>, w: World, listing: seq<Event>, runtime: Runtime)
    requires p.Valid() && Accounted(p.topology, p.env, p.origin, moves, trace, w) && moves <= p.moves
    requires p.trace == trace + listing && IsPageWalk(listing, runtime.maxPages)
    ensures p.trace == trace + (listing + (RunTrace([], runtime.pollIntervalMs) + []))
    ensures SleptMs(RunTrace([], runtime.pollIntervalMs) + []) == 0
    ensures ChangedOnlyBy(p.topology, p.env, w, moves, p.world, p.moves,
                          listing + (RunTrace([], runtime.pollIntervalMs) + []))
  {
    NoRun(runtime.pollIntervalMs);
    assert listing + (RunTrace([], runtime.pollIntervalMs) + []) == listing;
    LooksSpare(listing, p.topology.marker);
    SparingRun(p.topology, p.env, p.origin, moves, trace, w, p.moves, listing, p.world);
  }
}
