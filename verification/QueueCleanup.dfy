/** The purge-and-verify loop that removes the marker and declares it absent. */
module QueueCleanup {
  import opened Outcomes
  import opened Sequences
  import opened QueueModel
  import opened QueueProvider

  datatype CleanupReport = CleanupReport(purgedRefCount: nat, sourceMessages: nat, deadLetterMessages: nat)

  // ---------- the ref map ----------

  datatype Target = Target(queueId: QueueId, ref: string)

  /** A JavaScript Map: keys in insertion order, and what each key holds. */
  datatype RefMap = RefMap(keys: seq<string>, targets: map<string, Target>)

  function Key(t: Target): string {
    t.queueId + "\0" + t.ref
  }

  function SetRef(m: RefMap, t: Target): RefMap {
    RefMap(if Key(t) in m.targets then m.keys else m.keys + [Key(t)], m.targets[Key(t) := t])
  }

  ghost predicate Consistent(m: RefMap) {
    && (forall i, j :: 0 <= i < j < |m.keys| ==> m.keys[i] != m.keys[j])
    && (forall k :: k in m.targets <==> k in m.keys)
    && (forall k :: k in m.targets ==> Key(m.targets[k]) == k && '\0' !in m.targets[k].queueId)
  }

  ghost function Targets(m: RefMap): set<Target> {
    set k | k in m.targets :: m.targets[k]
  }

  /** What the map holds, in insertion order. */
  ghost function InOrder(m: RefMap): seq<Target>
    requires Consistent(m)
  {
    seq(|m.keys|, i requires 0 <= i < |m.keys| => assert m.keys[i] in m.keys; m.targets[m.keys[i]])
  }

  /** A key names one target only, because a queue id holds no NUL character. */
  lemma {:induction false} KeyInjective(a: Target, b: Target)
    requires '\0' !in a.queueId && '\0' !in b.queueId && Key(a) == Key(b)
    ensures a == b
  {
    var i, j := |a.queueId|, |b.queueId|;
    assert Key(a)[i] == '\0' && Key(b)[j] == '\0';
    assert forall k :: 0 <= k < i ==> Key(a)[k] == a.queueId[k] && a.queueId[k] in a.queueId;
    assert forall k :: 0 <= k < j ==> Key(b)[k] == b.queueId[k] && b.queueId[k] in b.queueId;
    assert i == j;
    assert a.queueId == Key(a)[..i] == Key(b)[..j] == b.queueId;
    assert a.ref == Key(a)[i + 1..] == Key(b)[j + 1..] == b.ref;
  }

  lemma {:induction false} SetRefAddsOne(m: RefMap, t: Target)
    requires Consistent(m) && '\0' !in t.queueId
    ensures Consistent(SetRef(m, t)) && Targets(SetRef(m, t)) == Targets(m) + {t}
    ensures InOrder(SetRef(m, t)) == if t in InOrder(m) then InOrder(m) else InOrder(m) + [t]
  {
    hide SetRef, InOrder, Targets, Consistent;
    SetRefTargets(m, t);
    SetRefInOrder(m, t);
  }

  lemma {:induction false} SetRefTargets(m: RefMap, t: Target)
    requires Consistent(m) && '\0' !in t.queueId
    ensures Consistent(SetRef(m, t)) && Targets(SetRef(m, t)) == Targets(m) + {t}
  {
    var m' := SetRef(m, t);
    if Key(t) in m.targets {
      KeyInjective(m.targets[Key(t)], t);
      assert m'.targets == m.targets;
    } else {
      forall x ensures x in Targets(m') <==> x in Targets(m) + {t} {
        if x in Targets(m) {
          var k :| k in m.targets && m.targets[k] == x;
          assert k in m'.targets && m'.targets[k] == x;
        }
        if x == t {
          assert m'.targets[Key(t)] == t;
        }
      }
    }
  }

  lemma {:induction false} SetRefInOrder(m: RefMap, t: Target)
    requires Consistent(m) && '\0' !in t.queueId
    ensures Consistent(SetRef(m, t))
    ensures InOrder(SetRef(m, t)) == if t in InOrder(m) then InOrder(m) else InOrder(m) + [t]
  {
    if Key(t) in m.targets {
      KeyInjective(m.targets[Key(t)], t);
      assert SetRef(m, t).targets == m.targets;
      var i :| 0 <= i < |m.keys| && m.keys[i] == Key(t);
      assert InOrder(m)[i] == t;
    } else {
      forall i | 0 <= i < |m.keys| ensures InOrder(m)[i] != t {
        assert m.keys[i] in m.keys;
      }
    }
  }

  /** The targets that these matches name. */
  function NamedTargets(queueId: QueueId, matches: seq<MarkerMessage>): seq<Target> {
    seq(|matches|, i requires 0 <= i < |matches| => Target(queueId, matches[i].ref))
  }

  /** The loop over one queue's matches. */
  method CollectRefs(refs: RefMap, queueId: QueueId, matches: seq<MarkerMessage>) returns (out: RefMap)
    requires Consistent(refs) && '\0' !in queueId
    ensures Consistent(out)
    ensures Targets(out) == Targets(refs) + set m | m in matches :: Target(queueId, m.ref)
    ensures InOrder(out) == AddNew(InOrder(refs), NamedTargets(queueId, matches))
  {
    hide SetRef, InOrder, Targets, Consistent;
    out := refs;
    var k := 0;
    while k < |matches|
      invariant 0 <= k <= |matches|
      invariant Consistent(out)
      invariant Targets(out) == Targets(refs) + set m | m in matches[..k] :: Target(queueId, m.ref)
      invariant InOrder(out) == AddNew(InOrder(refs), NamedTargets(queueId, matches[..k]))
    {
      assert NamedTargets(queueId, matches[..k + 1])[..k] == NamedTargets(queueId, matches[..k]);
      SetRefAddsOne(out, Target(queueId, matches[k].ref));
      out := SetRef(out, Target(queueId, matches[k].ref));
      assert matches[..k + 1] == matches[..k] + [matches[k]];
      k := k + 1;
    }
    assert matches[..k] == matches;
  }

  // ---------- what a pass does ----------

  /** The purge left every message that is not a marker, in every queue, where it was. */
  ghost predicate BystandersKept(e: Event, marker: string) {
    e.Purged? && SparesBystanders(e.before, e.after, marker)
  }

  ghost predicate PeekNames(e: Event, target: Target, marker: string) {
    e.Peeked? && e.queue == target.queueId && e.page.Ok? && NamesMarker(e.page.value, target.ref, marker)
  }

  /**
    The calls of one pass: peek the source, peek the dead-letter queue, then only
    purges, each naming a (queue, ref) read as a marker in that queue by one of
    the two peeks, no two naming the same, and none touching any other message.
   */
  ghost predicate PassShape(calls: seq<Event>, source: QueueId, deadLetter: QueueId, marker: string) {
    && |calls| >= 2
    && calls[0].Peeked? && calls[0].queue == source
    && calls[1].Peeked? && calls[1].queue == deadLetter
    && (forall i :: 2 <= i < |calls| ==>
          && calls[i].Purged?
          && (PeekNames(calls[0], Target(calls[i].purgedQueue, calls[i].ref), marker)
              || PeekNames(calls[1], Target(calls[i].purgedQueue, calls[i].ref), marker))
          && BystandersKept(calls[i], marker))
    && (forall i, j :: 2 <= i < j < |calls| ==>
          Target(calls[i].purgedQueue, calls[i].ref) != Target(calls[j].purgedQueue, calls[j].ref))
  }

  ghost predicate AllAccepted(calls: seq<Event>) {
    forall i :: 2 <= i < |calls| ==> IsAcceptedPurge(calls[i])
  }

  /** The error of a purge that was not accepted. */
  function PurgeError(e: Event): Error {
    if e.Purged? && e.reply.Err? then Error(CleanupFailed, e.reply.error.diagnostic)
    else Error(CleanupFailed, Some(Diagnostic(QueuePurge, ProviderResponseInvalid, None)))
  }

  /** Purges every collected ref, in insertion order, stopping at the first refusal. */
  method PurgeRefs(p: Provider, refs: RefMap) returns (r: Result<(), Error>, ghost calls: seq<Event>)
    requires p.Valid() && Consistent(refs)
    requires forall t :: t in Targets(refs) ==> KnownMarkerRef(p.world, t.queueId, t.ref)
    modifies p`world, p`trace, p`moves
    ensures p.Valid() && EnvStep(p.topology, old(p.world), p.world) && old(p.moves) <= p.moves
    ensures p.trace == old(p.trace) + calls && |calls| <= |refs.keys|
    ensures PurgesFollow(calls, refs, p.topology.marker)
    ensures refs.keys == [] ==> p.world == old(p.world)
    ensures r.Ok? ==> |calls| == |refs.keys| && forall i :: 0 <= i < |calls| ==> IsAcceptedPurge(calls[i])
    ensures r.Err? ==> calls != [] && !IsAcceptedPurge(calls[|calls| - 1]) && r.error == PurgeError(calls[|calls| - 1])
    ensures forall i :: 0 <= i < |calls| - 1 ==> IsAcceptedPurge(calls[i])
  {
    hide EnvStep, RefsRecorded, Accounted, Leads, ClientMoves, Effects, KnownMarkerRef, BystandersKept, IsAcceptedPurge,
         PurgeError, Consistent, Targets, PurgesFollow;
    calls := [];
    var k := 0;
    EnvReflexive(p.topology, p.world);
    KeysHaveTargets(refs);
    while k < |refs.keys|
      invariant 0 <= k <= |refs.keys|
      invariant p.Valid() && EnvStep(p.topology, old(p.world), p.world) && old(p.moves) <= p.moves
      invariant p.trace == old(p.trace) + calls && |calls| == k
      invariant k == 0 ==> p.world == old(p.world)
      invariant forall t :: t in Targets(refs) ==> KnownMarkerRef(p.world, t.queueId, t.ref)
      invariant PurgesFollow(calls, refs, p.topology.marker)
      invariant forall i :: 0 <= i < k ==> IsAcceptedPurge(calls[i])
    {
      ghost var before := p.world;
      var reply, call := PurgeOne(p, refs.targets[refs.keys[k]]);
      EnvTransitive(p.topology, old(p.world), before, p.world);
      KnownRefsStay(p.topology, before, p.world);
      NextPurgeFollows(calls, call, refs, p.topology.marker);
      calls := calls + [call];
      if reply.Err? {
        return Err(reply.error), calls;
      }
      k := k + 1;
    }
    return Ok(()), calls;
  }

  /** The purges take the collected refs in insertion order and touch markers only. */
  ghost predicate PurgesFollow(purges: seq<Event>, refs: RefMap, marker: string) {
    && |purges| <= |refs.keys|
    && forall i :: 0 <= i < |purges| ==>
      && purges[i].Purged? && BystandersKept(purges[i], marker)
      && refs.keys[i] in refs.targets
      && Target(purges[i].purgedQueue, purges[i].ref) == refs.targets[refs.keys[i]]
  }

  lemma PurgesAreInOrder(purges: seq<Event>, refs: RefMap, marker: string)
    requires Consistent(refs) && PurgesFollow(purges, refs, marker)
    ensures |InOrder(refs)| == |refs.keys| && TargetsOf(purges) <= InOrder(refs)
  {
    hide BystandersKept;
  }

  lemma NextPurgeFollows(purges: seq<Event>, purge: Event, refs: RefMap, marker: string)
    requires PurgesFollow(purges, refs, marker) && |purges| < |refs.keys|
    requires purge.Purged? && BystandersKept(purge, marker) && refs.keys[|purges|] in refs.targets
    requires Target(purge.purgedQueue, purge.ref) == refs.targets[refs.keys[|purges|]]
    ensures PurgesFollow(purges + [purge], refs, marker)
  {
    hide SparesBystanders;
  }

  lemma KeysHaveTargets(refs: RefMap)
    requires Consistent(refs)
    ensures forall k :: 0 <= k < |refs.keys| ==>
              refs.keys[k] in refs.targets && refs.targets[refs.keys[k]] in Targets(refs)
    ensures forall marker :: PurgesFollow([], refs, marker)
  {
    assert forall k :: 0 <= k < |refs.keys| ==> refs.keys[k] in refs.keys;
  }

  lemma KnownRefsStay(t: Topology, w: World, w': World)
    requires EnvStep(t, w, w')
    ensures forall q, ref :: KnownMarkerRef(w, q, ref) ==> KnownMarkerRef(w', q, ref)
  {
  }

  /** One purge request and the test of its reply. */
  method PurgeOne(p: Provider, target: Target) returns (r: Result<(), Error>, ghost call: Event)
    requires p.Valid() && KnownMarkerRef(p.world, target.queueId, target.ref)
    modifies p`world, p`trace, p`moves
    ensures p.Valid() && EnvStep(p.topology, old(p.world), p.world) && old(p.moves) <= p.moves
    ensures p.trace == old(p.trace) + [call] && call.Purged?
    ensures Target(call.purgedQueue, call.ref) == target && BystandersKept(call, p.topology.marker)
    ensures r.Ok? <==> IsAcceptedPurge(call)
    ensures r.Err? ==> r.error == PurgeError(call)
  {
    hide Accounted, Leads, ClientMoves, Effects;
    ghost var start := p.world;
    var reply := p.Purge(target.queueId, target.ref);
    call := p.trace[|old(p.trace)|];
    PurgeOfMarkerRef(p.topology, call.before, target.queueId, target.ref);
    EnvReflexive(p.topology, call.before);
    EnvTransitive(p.topology, start, call.before, p.world);
    if reply.Err? {
      return Err(Error(CleanupFailed, reply.error.diagnostic)), call;
    }
    if !PurgeAccepted(reply.value) {
      return Err(Error(CleanupFailed, Some(Diagnostic(QueuePurge, ProviderResponseInvalid, None)))), call;
    }
    return Ok(()), call;
  }

  // ---------- one pass ----------

  datatype PassCounts = PassCounts(
    sourceMessages: nat,
    deadLetterMessages: nat,
    sourceMatches: nat,
    deadLetterMatches: nat,
    purged: nat)

  /** A peek that succeeded with this many messages, this many of them markers, and not a full page of strangers. */
  ghost predicate PeekCounted(e: Event, length: nat, matches: nat, batch: nat, marker: string) {
    && e.Peeked? && e.page.Ok?
    && |e.page.value| == length && Markers(e.page.value, marker) == matches
    && (length >= batch ==> matches > 0)
  }

  /** The first peek that failed decides the diagnostic. */
  function FirstReadError(a: Result<seq<Message>, Error>, b: Result<seq<Message>, Error>): Option<Error> {
    if a.Err? then Some(a.error) else if b.Err? then Some(b.error) else None
  }

  function PageOrEmpty(a: Result<seq<Message>, Error>): seq<Message> {
    if a.Ok? then a.value else []
  }

  /** Reading the source first and the dead-letter queue second, two short marker-free pages prove absence. */
  lemma {:induction false} SourceThenDeadLetter(
      t: Topology, w1: World, w2: World, page1: seq<Message>, page2: seq<Message>, batch: nat)
    requires EnvStep(t, w1, w2)
    requires IsPage(page1, Queue(w1, t.source), batch) && |page1| < batch && Markers(page1, t.marker) == 0
    requires IsPage(page2, Queue(w2, t.deadLetter), batch) && |page2| < batch && Markers(page2, t.marker) == 0
    ensures MarkerFree(t, w2)
  {
    ShortPageShowsAbsence(page1, Queue(w1, t.source), batch, t.marker);
    ShortPageShowsAbsence(page2, Queue(w2, t.deadLetter), batch, t.marker);
  }

  /** A full page without a marker proves nothing either: the queue behind it can hold one. */
  lemma {:induction false} FullPageProvesNothing(stranger: Message, m: Message, batch: nat, marker: string)
    returns (page: seq<Message>, queue: seq<Message>)
    requires IsMarker(m, marker) && !IsMarker(stranger, marker)
    ensures IsPage(page, queue, batch) && |page| == batch && Markers(page, marker) == 0 && Markers(queue, marker) == 1
  {
    page := seq(batch, _ => stranger);
    queue := page + [m];
    MarkersZero(page, marker);
    MarkersAppend(page, m, marker);
    assert multiset(queue) == multiset(page) + multiset{m};
  }

  /** What the two peeks and the collected refs have to do with each other. */
  ghost predicate Collected(refs: RefMap, source: QueueId, deadLetter: QueueId,
                            page1: seq<Message>, page2: seq<Message>, marker: string)
  {
    && Consistent(refs)
    && (forall t :: t in Targets(refs) ==>
          (t.queueId == source && NamesMarker(page1, t.ref, marker))
          || (t.queueId == deadLetter && NamesMarker(page2, t.ref, marker)))
    && (refs.keys == [] <==> Markers(page1, marker) == 0 && Markers(page2, marker) == 0)
  }

  /** The targets to purge: those the source page names, then those the dead-letter page names, none twice. */
  ghost function Due(source: QueueId, deadLetter: QueueId, page1: seq<Message>, page2: seq<Message>, marker: string)
    : seq<Target>
    requires MatchingMessages(page1, marker).Ok? && MatchingMessages(page2, marker).Ok?
  {
    AddNew(AddNew([], NamedTargets(source, MatchingMessages(page1, marker).value)),
           NamedTargets(deadLetter, MatchingMessages(page2, marker).value))
  }

  method CollectBoth(source: QueueId, deadLetter: QueueId, page1: seq<Message>, page2: seq<Message>,
                     matches1: seq<MarkerMessage>, matches2: seq<MarkerMessage>, ghost marker: string)
    returns (refs: RefMap)
    requires '\0' !in source && '\0' !in deadLetter
    requires MatchingMessages(page1, marker) == Ok(matches1) && MatchingMessages(page2, marker) == Ok(matches2)
    ensures Collected(refs, source, deadLetter, page1, page2, marker)
    ensures InOrder(refs) == Due(source, deadLetter, page1, page2, marker)
  {
    hide MatchingMessages, NamesMarker, SetRef, AddNew, NamedTargets;
    assert InOrder(RefMap([], map[])) == [];
    refs := CollectRefs(RefMap([], map[]), source, matches1);
    refs := CollectRefs(refs, deadLetter, matches2);
    MatchesNameMarkers(page1, marker);
    MatchesNameMarkers(page2, marker);
    if matches1 != [] {
      assert matches1[0] in matches1;
      assert Target(source, matches1[0].ref) in Targets(refs);
    }
    if matches2 != [] {
      assert matches2[0] in matches2;
      assert Target(deadLetter, matches2[0].ref) in Targets(refs);
    }
    if refs.keys != [] {
      assert refs.keys[0] in refs.targets;
      assert refs.targets[refs.keys[0]] in Targets(refs);
    }
  }

  /** Two peeks, the source first, with only environment moves between them and the second one just now. */
  ghost predicate PeeksTaken(t: Topology, peeks: seq<Event>, source: QueueId, deadLetter: QueueId, batch: nat) {
    && |peeks| == 2 && peeks[0].Peeked? && peeks[1].Peeked?
    && peeks[0].queue == source && peeks[1].queue == deadLetter
    && RefsRecorded(peeks[0].world, t.marker) && EnvStep(t, peeks[0].world, peeks[1].world)
    && (peeks[0].page.Ok? ==> IsPage(peeks[0].page.value, Queue(peeks[0].world, source), batch))
    && (peeks[1].page.Ok? ==> IsPage(peeks[1].page.value, Queue(peeks[1].world, deadLetter), batch))
  }

  lemma {:induction false} CollectedRefsKnown(
      t: Topology, peeks: seq<Event>, refs: RefMap, source: QueueId, deadLetter: QueueId, batch: nat)
    requires PeeksTaken(t, peeks, source, deadLetter, batch)
    requires Collected(refs, source, deadLetter, PageOrEmpty(peeks[0].page), PageOrEmpty(peeks[1].page), t.marker)
    ensures forall x :: x in Targets(refs) ==> KnownMarkerRef(peeks[1].world, x.queueId, x.ref)
  {
    var page1, page2 := PageOrEmpty(peeks[0].page), PageOrEmpty(peeks[1].page);
    forall x | x in Targets(refs) ensures KnownMarkerRef(peeks[1].world, x.queueId, x.ref) {
      if x.queueId == source && NamesMarker(page1, x.ref, t.marker) {
        PageRefsAreKnown(t, peeks[0].world, source, page1, batch, x.ref);
      } else {
        PageRefsAreKnown(t, peeks[1].world, deadLetter, page2, batch, x.ref);
      }
    }
  }

  /** Purging the collected refs completes the pass. */
  lemma {:induction false} PurgesCompletePass(
      peeks: seq<Event>, purges: seq<Event>, refs: RefMap, source: QueueId, deadLetter: QueueId, marker: string)
    requires |peeks| == 2 && peeks[0].Peeked? && peeks[1].Peeked?
    requires peeks[0].queue == source && peeks[1].queue == deadLetter
    requires Collected(refs, source, deadLetter, PageOrEmpty(peeks[0].page), PageOrEmpty(peeks[1].page), marker)
    requires PurgesFollow(purges, refs, marker)
    ensures PassShape(peeks + purges, source, deadLetter, marker)
  {
    hide NamesMarker, BystandersKept, Markers, Consistent, Targets;
    var calls := peeks + purges;
    forall i | 2 <= i < |calls|
      ensures PeekNames(calls[0], Target(calls[i].purgedQueue, calls[i].ref), marker)
              || PeekNames(calls[1], Target(calls[i].purgedQueue, calls[i].ref), marker)
    {
      assert calls[i] == purges[i - 2];
      PurgedWasNamed(peeks, refs, i - 2, source, deadLetter, marker);
    }
    forall i, j | 2 <= i < j < |calls|
      ensures Target(calls[i].purgedQueue, calls[i].ref) != Target(calls[j].purgedQueue, calls[j].ref)
    {
      assert calls[i] == purges[i - 2] && calls[j] == purges[j - 2];
      KeysDiffer(refs, i - 2, j - 2);
    }
  }

  lemma PurgedWasNamed(
      peeks: seq<Event>, refs: RefMap, k: nat, source: QueueId, deadLetter: QueueId, marker: string)
    requires |peeks| == 2 && peeks[0].Peeked? && peeks[1].Peeked?
    requires peeks[0].queue == source && peeks[1].queue == deadLetter
    requires Collected(refs, source, deadLetter, PageOrEmpty(peeks[0].page), PageOrEmpty(peeks[1].page), marker)
    requires k < |refs.keys| && refs.keys[k] in refs.targets
    ensures var target := refs.targets[refs.keys[k]];
            PeekNames(peeks[0], target, marker) || PeekNames(peeks[1], target, marker)
  {
    assert refs.targets[refs.keys[k]] in Targets(refs);
  }

  lemma KeysDiffer(refs: RefMap, i: nat, j: nat)
    requires Consistent(refs) && i < j < |refs.keys| && refs.keys[i] in refs.targets && refs.keys[j] in refs.targets
    ensures refs.targets[refs.keys[i]] != refs.targets[refs.keys[j]]
  {
    assert Key(refs.targets[refs.keys[i]]) == refs.keys[i] && Key(refs.targets[refs.keys[j]]) == refs.keys[j];
  }

  method PeekBoth(p: Provider, source: QueueId, deadLetter: QueueId, batch: nat)
    returns (page1: Result<seq<Message>, Error>, page2: Result<seq<Message>, Error>, ghost peeks: seq<Event>)
    requires p.Valid()
    modifies p`world, p`trace, p`moves
    ensures p.Valid() && EnvStep(p.topology, old(p.world), p.world) && old(p.moves) <= p.moves
    ensures p.trace == old(p.trace) + peeks && PeeksTaken(p.topology, peeks, source, deadLetter, batch)
    ensures peeks[0].page == page1 && peeks[1].page == page2 && peeks[1].world == p.world
    ensures PassShape(peeks, source, deadLetter, p.topology.marker)
  {
    hide Accounted, Leads, ClientMoves, Effects;
    ghost var w0 := p.world;
    page1 := p.Peek(source, batch);
    ghost var w1 := p.world;
    page2 := p.Peek(deadLetter, batch);
    EnvTransitive(p.topology, w0, w1, p.world);
    peeks := [Peeked(source, page1, w1), Peeked(deadLetter, page2, p.world)];
  }

  /** A full page without a single match proves nothing about the queue. */
  predicate FullOfStrangers(page: Result<seq<Message>, Error>, matches: seq<MarkerMessage>, batch: nat) {
    page.Ok? && |page.value| >= batch && matches == []
  }

  /** A peek that decides against the pass: it failed, holds a malformed marker message, or is full of strangers. */
  ghost predicate PeekFailed(e: Event, batch: nat, marker: string) {
    && e.Peeked?
    && (|| e.page.Err?
        || MatchingMessages(e.page.value, marker).Err?
        || (|e.page.value| >= batch && MatchingMessages(e.page.value, marker) == Ok([])))
  }

  /** Why a pass fails: one of its peeks, or the last purge it asked for. */
  ghost predicate PassFailed(calls: seq<Event>, batch: nat, marker: string) {
    && |calls| >= 2
    && (|| PeekFailed(calls[0], batch, marker)
        || PeekFailed(calls[1], batch, marker)
        || (|calls| > 2 && !IsAcceptedPurge(calls[|calls| - 1])))
  }

  /** The error such a pass ends with: the first that applies, in the order of the code. */
  ghost function PassError(calls: seq<Event>, batch: nat, marker: string): Error
    requires |calls| >= 2 && calls[0].Peeked? && calls[1].Peeked?
  {
    var readError := FirstReadError(calls[0].page, calls[1].page);
    var diagnostic := if readError.Some? then readError.value.diagnostic else None;
    var sourceMatching := MatchingMessages(PageOrEmpty(calls[0].page), marker);
    var deadLetterMatching := MatchingMessages(PageOrEmpty(calls[1].page), marker);
    if sourceMatching.Err? then sourceMatching.error
    else if deadLetterMatching.Err? then deadLetterMatching.error
    else if FullOfStrangers(calls[0].page, sourceMatching.value, batch)
         || FullOfStrangers(calls[1].page, deadLetterMatching.value, batch) then Error(CleanupFailed, diagnostic)
    else if |calls| > 2 && !IsAcceptedPurge(calls[|calls| - 1]) then PurgeError(calls[|calls| - 1])
    else Error(CleanupFailed, diagnostic)
  }

  /** What a completed pass counted: both pages, and one accepted purge for every marker ref. */
  ghost predicate PassCounted(calls: seq<Event>, counts: PassCounts, batch: nat, marker: string) {
    && |calls| >= 2
    && PeekCounted(calls[0], counts.sourceMessages, counts.sourceMatches, batch, marker)
    && PeekCounted(calls[1], counts.deadLetterMessages, counts.deadLetterMatches, batch, marker)
    && counts.purged == |calls| - 2 && AllAccepted(calls)
    && (counts.purged == 0 <==> counts.sourceMatches == 0 && counts.deadLetterMatches == 0)
  }

  /**
    Reading the queues in the other order proves nothing. For every well-formed
    marker there is a pass in that order, made while only the environment moves,
    that completes without a failure and without a match, and still leaves the
    marker in the dead-letter queue: it moved there between the two reads.
   */
  lemma {:induction false} SwappedPassMisses(t: Topology, m: Message, batch: nat)
    returns (w0: World, peeks: seq<Event>)
    requires t.source != t.deadLetter && IsMarker(m, t.marker) && WellFormed(m) && batch >= 1
    ensures RefsRecorded(w0, t.marker) && Queue(w0, t.source) == [m]
    ensures PeeksTaken(t, peeks, t.deadLetter, t.source, batch) && EnvStep(t, w0, peeks[0].world)
    ensures !PassFailed(peeks, batch, t.marker) && PassCounted(peeks, PassCounts(0, 0, 0, 0, 0), batch, t.marker)
    ensures Queue(peeks[1].world, t.deadLetter) == [m] && !MarkerFree(t, peeks[1].world)
  {
    var kinds := map[(t.source, m.ref.value) := true, (t.deadLetter, m.ref.value) := true];
    w0 := World(map[t.source := [m]], kinds);
    var w1 := World(map[t.deadLetter := [m]], kinds);
    peeks := [Peeked(t.deadLetter, Ok([]), w0), Peeked(t.source, Ok([]), w1)];
    assert Queue(w0, t.source) == [m] && Queue(w0, t.deadLetter) == [];
    assert Queue(w1, t.source) == [] && Queue(w1, t.deadLetter) == [m];
    EnvReflexive(t, w0);
  }

  method OnePass(p: Provider, source: QueueId, deadLetter: QueueId, batch: nat)
    returns (r: Result<PassCounts, Error>, ghost calls: seq<Event>)
    requires p.Valid() && '\0' !in source && '\0' !in deadLetter
    modifies p`world, p`trace, p`moves
    ensures p.Valid() && EnvStep(p.topology, old(p.world), p.world) && old(p.moves) <= p.moves
    ensures p.trace == old(p.trace) + calls && PassShape(calls, source, deadLetter, p.topology.marker)
    ensures r.Ok? ==> PassCounted(calls, r.value, batch, p.topology.marker)
    ensures r.Ok? && r.value.purged == 0 && source == p.topology.source && deadLetter == p.topology.deadLetter
            ==> p.world == calls[1].world && MarkerFree(p.topology, p.world)
    ensures r.Err? <==> PassFailed(calls, batch, p.topology.marker)
    ensures r.Err? ==> r.error == PassError(calls, batch, p.topology.marker)
    ensures PurgesFromPages(calls, batch, p.topology.marker)
  {
    hide Accounted, Leads, ClientMoves, Effects, IsAcceptedPurge, PurgeError, EnvStep, RefsRecorded, PassShape,
         MarkerFree, Targets, Consistent, Due, InOrder, TargetsOf;
    var marker := p.topology.marker;
    var sourcePage, deadLetterPage, peeks := PeekBoth(p, source, deadLetter, batch);
    calls := peeks;
    var readError := FirstReadError(sourcePage, deadLetterPage);
    var sourceMatching := MatchingMessages(PageOrEmpty(sourcePage), marker);
    if sourceMatching.Err? {
      return Err(sourceMatching.error), calls;
    }
    var deadLetterMatching := MatchingMessages(PageOrEmpty(deadLetterPage), marker);
    if deadLetterMatching.Err? {
      return Err(deadLetterMatching.error), calls;
    }
    var sourceMatches, deadLetterMatches := sourceMatching.value, deadLetterMatching.value;
    var refs := CollectBoth(
      source, deadLetter, PageOrEmpty(sourcePage), PageOrEmpty(deadLetterPage), sourceMatches, deadLetterMatches,
      marker);
    if FullOfStrangers(sourcePage, sourceMatches, batch) || FullOfStrangers(deadLetterPage, deadLetterMatches, batch) {
      return Err(Error(CleanupFailed, if readError.Some? then readError.value.diagnostic else None)), calls;
    }
    ghost var peeked := p.world;
    var purging, purges := PurgePass(p, refs, peeks, source, deadLetter, batch);
    EnvTransitive(p.topology, old(p.world), peeked, p.world);
    calls := peeks + purges;
    assert calls[2..] == purges;
    if purging.Err? {
      return Err(purging.error), calls;
    }
    if readError.Some? {
      return Err(Error(CleanupFailed, readError.value.diagnostic)), calls;
    }
    if refs.keys == [] && source == p.topology.source && deadLetter == p.topology.deadLetter {
      SourceThenDeadLetter(p.topology, peeks[0].world, peeks[1].world, sourcePage.value, deadLetterPage.value, batch);
    }
    r := Ok(PassCounts(
      |sourcePage.value|, |deadLetterPage.value|, |sourceMatches|, |deadLetterMatches|, |refs.keys|));
  }

  /** The purging half of a pass, run right after its peeks. */
  method PurgePass(p: Provider, refs: RefMap, ghost peeks: seq<Event>, source: QueueId, deadLetter: QueueId,
                   ghost batch: nat)
    returns (r: Result<(), Error>, ghost purges: seq<Event>)
    requires p.Valid() && PeeksTaken(p.topology, peeks, source, deadLetter, batch) && peeks[1].world == p.world
    requires Collected(refs, source, deadLetter, PageOrEmpty(peeks[0].page), PageOrEmpty(peeks[1].page),
                       p.topology.marker)
    modifies p`world, p`trace, p`moves
    ensures p.Valid() && EnvStep(p.topology, old(p.world), p.world) && old(p.moves) <= p.moves
    ensures p.trace == old(p.trace) + purges && PassShape(peeks + purges, source, deadLetter, p.topology.marker)
    ensures Consistent(refs) && |InOrder(refs)| == |refs.keys| && TargetsOf(purges) <= InOrder(refs)
    ensures refs.keys == [] ==> p.world == old(p.world)
    ensures r.Ok? ==> |purges| == |refs.keys| && AllAccepted(peeks + purges)
    ensures r.Err? ==>
      purges != [] && !IsAcceptedPurge(purges[|purges| - 1]) && r.error == PurgeError(purges[|purges| - 1])
    ensures forall i :: 0 <= i < |purges| - 1 ==> IsAcceptedPurge(purges[i])
  {
    hide Accounted, Leads, ClientMoves, Effects;
    CollectedRefsKnown(p.topology, peeks, refs, source, deadLetter, batch);
    r, purges := PurgeRefs(p, refs);
    PurgesAreInOrder(purges, refs, p.topology.marker);
    PurgesCompletePass(peeks, purges, refs, source, deadLetter, p.topology.marker);
  }

  // ---------- the whole run ----------

  /** The calls of consecutive passes, with one sleep between neighbours. */
  ghost function RunTrace(passes: seq<seq<Event>>, intervalMs: nat): seq<Event> {
    var n := |passes|;
    if n == 0 then []
    else if n == 1 then passes[0]
    else RunTrace(passes[..n - 1], intervalMs) + [Slept(intervalMs, None)] + passes[n - 1]
  }

  /** Beyond its two peeks a pass only purges. */
  ghost function PurgesOf(pass: seq<Event>): nat {
    if |pass| < 2 then 0 else |pass| - 2
  }

  /** Purge requests made in these passes. */
  ghost function PurgesIn(passes: seq<seq<Event>>): nat {
    if passes == [] then 0 else PurgesIn(passes[..|passes| - 1]) + PurgesOf(passes[|passes| - 1])
  }

  ghost predicate AllPasses(passes: seq<seq<Event>>, source: QueueId, deadLetter: QueueId, marker: string) {
    forall k :: 0 <= k < |passes| ==> PassShape(passes[k], source, deadLetter, marker)
  }

  /** The targets of purges, in the order made. */
  ghost function TargetsOf(purges: seq<Event>): seq<Target> {
    seq(|purges|, i requires 0 <= i < |purges| =>
      if purges[i].Purged? then Target(purges[i].purgedQueue, purges[i].ref) else Target("", ""))
  }

  /** A peek that does not keep the pass from purging: it failed, or its page is neither malformed nor all strangers. */
  ghost predicate PeekUsable(e: Event, batch: nat, marker: string) {
    && e.Peeked?
    && MatchingMessages(PageOrEmpty(e.page), marker).Ok?
    && (e.page.Ok? && |e.page.value| >= batch ==> MatchingMessages(e.page.value, marker) != Ok([]))
  }

  /**
    What a pass purges follows from its pages: nothing unless both are usable; then
    the targets due, in order, and all of them unless a purge is refused.
   */
  ghost predicate PurgesFromPages(calls: seq<Event>, batch: nat, marker: string) {
    && |calls| >= 2 && calls[0].Peeked? && calls[1].Peeked?
    && if !PeekUsable(calls[0], batch, marker) || !PeekUsable(calls[1], batch, marker) then |calls| == 2
       else
         var due := Due(calls[0].queue, calls[1].queue, PageOrEmpty(calls[0].page), PageOrEmpty(calls[1].page), marker);
         && TargetsOf(calls[2..]) <= due
         && (forall i :: 2 <= i < |calls| - 1 ==> IsAcceptedPurge(calls[i]))
         && (|calls| - 2 == |due| || (|calls| > 2 && !IsAcceptedPurge(calls[|calls| - 1])))
  }

  ghost predicate AllFromPages(passes: seq<seq<Event>>, batch: nat, marker: string) {
    forall k :: 0 <= k < |passes| ==> PurgesFromPages(passes[k], batch, marker)
  }

  lemma FromPagesGrow(passes: seq<seq<Event>>, pass: seq<Event>, batch: nat, marker: string)
    requires AllFromPages(passes, batch, marker) && PurgesFromPages(pass, batch, marker)
    ensures AllFromPages(passes + [pass], batch, marker)
  {
    hide PurgesFromPages;
  }

  ghost predicate AllPurgesAccepted(passes: seq<seq<Event>>) {
    forall k :: 0 <= k < |passes| ==> AllAccepted(passes[k])
  }

  /** The last pass read both queues, found no marker, and purged nothing. */
  ghost predicate EndsClean(passes: seq<seq<Event>>, report: CleanupReport, batch: nat, marker: string) {
    && passes != []
    && var last := passes[|passes| - 1];
      && |last| == 2
      && PeekCounted(last[0], report.sourceMessages, 0, batch, marker)
      && PeekCounted(last[1], report.deadLetterMessages, 0, batch, marker)
  }

  lemma {:induction false} MarkerFreeStays(t: Topology, w: World, w': World)
    requires MarkerFree(t, w) && EnvStep(t, w, w')
    ensures MarkerFree(t, w')
  {
  }

  lemma {:induction false} NextPass(passes: seq<seq<Event>>, pass: seq<Event>, intervalMs: nat)
    ensures PurgesIn(passes + [pass]) == PurgesIn(passes) + PurgesOf(pass)
    ensures RunTrace(passes + [pass], intervalMs)
            == if passes == [] then pass else RunTrace(passes, intervalMs) + [Slept(intervalMs, None)] + pass
  {
    assert (passes + [pass])[..|passes|] == passes;
  }

  /** What a pass adds to a trace that ends where the pass begins. */
  lemma TraceGrows(base: seq<Event>, passes: seq<seq<Event>>, pass: seq<Event>, intervalMs: nat)
    ensures base + RunTrace(passes, intervalMs) + (if passes == [] then [] else [Slept(intervalMs, None)]) + pass
            == base + RunTrace(passes + [pass], intervalMs)
            == base + RunTrace(passes + [pass], intervalMs) + []
    ensures PurgesIn(passes + [pass]) == PurgesIn(passes) + PurgesOf(pass)
  {
    NextPass(passes, pass, intervalMs);
    var walked := RunTrace(passes, intervalMs);
    if passes != [] {
      assert base + walked + [Slept(intervalMs, None)] + pass == base + (walked + [Slept(intervalMs, None)] + pass);
    }
  }

  lemma PassesGrow(passes: seq<seq<Event>>, pass: seq<Event>, source: QueueId, deadLetter: QueueId, marker: string)
    requires AllPasses(passes, source, deadLetter, marker) && PassShape(pass, source, deadLetter, marker)
    ensures AllPasses(passes + [pass], source, deadLetter, marker)
    ensures (passes + [pass])[|passes + [pass]| - 1] == pass
  {
    hide PassShape;
  }

  ghost function SleptMs(calls: seq<Event>): nat {
    if calls == [] then 0
    else SleptMs(calls[..|calls| - 1]) + if calls[|calls| - 1].Slept? then calls[|calls| - 1].ms else 0
  }

  lemma {:induction false} SleptAppend(a: seq<Event>, b: seq<Event>)
    ensures SleptMs(a + b) == SleptMs(a) + SleptMs(b)
  {
    if b == [] {
      assert a + b == a;
    } else {
      SleptAppend(a, b[..|b| - 1]);
      assert (a + b)[..|a + b| - 1] == a + b[..|b| - 1];
    }
  }

  lemma {:induction false} NoSleep(calls: seq<Event>)
    requires forall e :: e in calls ==> !e.Slept?
    ensures SleptMs(calls) == 0
  {
    if calls != [] {
      NoSleep(calls[..|calls| - 1]);
    }
  }

  lemma {:induction false} RunSleeps(passes: seq<seq<Event>>, intervalMs: nat)
    requires forall k :: 0 <= k < |passes| ==> forall e :: e in passes[k] ==> !e.Slept?
    ensures SleptMs(RunTrace(passes, intervalMs)) == if passes == [] then 0 else (|passes| - 1) * intervalMs
  {
    var n := |passes|;
    if n > 0 {
      NoSleep(passes[n - 1]);
    }
    if n > 1 {
      var front := RunTrace(passes[..n - 1], intervalMs);
      assert RunTrace(passes, intervalMs) == front + [Slept(intervalMs, None)] + passes[n - 1];
      hide RunTrace;
      RunSleeps(passes[..n - 1], intervalMs);
      SleptAppend(front, [Slept(intervalMs, None)]);
      SleptAppend(front + [Slept(intervalMs, None)], passes[n - 1]);
      assert SleptMs([Slept(intervalMs, None)]) == intervalMs;
      assert (n - 1) * intervalMs == (n - 2) * intervalMs + intervalMs;
    }
  }

  /** A loop of at most maxPolls turns, sleeping between them, sleeps at most 300 seconds in all. */
  lemma {:induction false} RunSleepsWithinBound(runtime: Runtime, passes: seq<seq<Event>>, tail: seq<Event>)
    requires ValidRuntime(runtime) && |passes| <= runtime.maxPolls
    requires |tail| <= 1
    requires tail != [] ==>
               tail[0].Slept? && tail[0].ms == runtime.pollIntervalMs && |passes| < runtime.maxPolls
    requires forall k :: 0 <= k < |passes| ==> forall e :: e in passes[k] ==> !e.Slept?
    ensures SleptMs(RunTrace(passes, runtime.pollIntervalMs) + tail) <= 300_000
  {
    var interval := runtime.pollIntervalMs;
    var walked := RunTrace(passes, interval);
    var sleeps := if passes == [] then 0 else |passes| - 1;
    RunSleeps(passes, interval);
    assert SleptMs(tail) == |tail| * interval;
    hide RunTrace, SleptMs;
    SleptAppend(walked, tail);
    Distribute(sleeps, |tail|, interval);
    ScaledBound(sleeps + |tail|, runtime.maxPolls, interval);
  }

  /** A pause whose sleep threw. */
  ghost predicate FailedPause(tail: seq<Event>, intervalMs: nat) {
    |tail| == 1 && tail[0].Slept? && tail[0].ms == intervalMs && tail[0].sleepThrew.Some?
  }

  /** The passes of a cleanup do not sleep, so only the pauses between them count. */
  lemma {:induction false} PassesSleepWithinBound(
    runtime: Runtime, passes: seq<seq<Event>>, tail: seq<Event>,
    source: QueueId, deadLetter: QueueId, marker: string)
    requires ValidRuntime(runtime) && |passes| <= runtime.maxPolls && AllPasses(passes, source, deadLetter, marker)
    requires tail == [] || (FailedPause(tail, runtime.pollIntervalMs) && |passes| < runtime.maxPolls)
    ensures SleptMs(RunTrace(passes, runtime.pollIntervalMs) + tail) <= 300_000
  {
    forall k, e | 0 <= k < |passes| && e in passes[k] ensures !e.Slept? {
      assert PassShape(passes[k], source, deadLetter, marker);
      var i :| 0 <= i < |passes[k]| && passes[k][i] == e;
      assert i == 0 || i == 1 || passes[k][i].Purged?;
    }
    RunSleepsWithinBound(runtime, passes, tail);
  }

  lemma Distribute(a: nat, b: nat, k: nat)
    ensures (a + b) * k == a * k + b * k
  {
  }

  lemma ScaledBound(a: nat, b: nat, k: nat)
    requires a <= b
    ensures a * k <= b * k
  {
  }

  /** One pass and the look at the clock after it: is this the last turn? The last poll does not read the clock. */
  method TimedPass(p: Provider, source: QueueId, deadLetter: QueueId, batch: nat, lastPoll: bool, deadline: real)
    returns (r: Result<(PassCounts, bool), Error>, ghost calls: seq<Event>, ghost clock: seq<Reading>)
    requires p.Valid() && '\0' !in source && '\0' !in deadLetter
    modifies p
    ensures p.Valid() && EnvStep(p.topology, old(p.world), p.world) && old(p.moves) <= p.moves
    ensures p.trace == old(p.trace) + calls && PassShape(calls, source, deadLetter, p.topology.marker)
    ensures r.Ok? ==> PassCounted(calls, r.value.0, batch, p.topology.marker) && (lastPoll ==> r.value.1)
    ensures r.Ok? && r.value.0.purged == 0 && source == p.topology.source && deadLetter == p.topology.deadLetter
            ==> MarkerFree(p.topology, calls[1].world) && MarkerFree(p.topology, p.world)
    ensures r.Err? ==>
      r.error == if clock == [] then PassError(calls, batch, p.topology.marker) else Error(CleanupFailed, None)
    // One reading of the clock, unless the pass failed or the poll is the last.
    ensures p.readings == old(p.readings) + clock && |clock| <= 1
    ensures clock == [] <==> PassFailed(calls, batch, p.topology.marker) || lastPoll
    ensures r.Err? <==> PassFailed(calls, batch, p.topology.marker) || (clock != [] && clock[0].Err?)
    ensures PurgesFromPages(calls, batch, p.topology.marker)
    ensures r.Ok? && clock != [] ==> clock[0].Ok? && r.value.1 == AtOrAfter(clock[0].value, deadline)
  {
    hide Accounted, Leads, ClientMoves, Effects, EnvStep, PassShape, MarkerFree, PassFailed, PurgesFromPages;
    var counted, made := OnePass(p, source, deadLetter, batch);
    calls, clock := made, [];
    if counted.Err? {
      return Err(counted.error), calls, clock;
    }
    if lastPoll {
      return Ok((counted.value, true)), calls, clock;
    }
    ghost var start, afterPass := old(p.world), p.world;
    var now := p.Now();
    clock := [now];
    EnvTransitive(p.topology, start, afterPass, p.world);
    if now.Err? {
      return Err(Error(CleanupFailed, None)), calls, clock;
    }
    if counted.value.purged == 0 && source == p.topology.source && deadLetter == p.topology.deadLetter {
      MarkerFreeStays(p.topology, afterPass, p.world);
    }
    return Ok((counted.value, AtOrAfter(now.value, deadline))), calls, clock;
  }

  /** The first reading fixes a deadline; the last one, taken after this many passes, has reached it. */
  ghost predicate DeadlineReached(clock: seq<Reading>, passes: nat) {
    && |clock| == passes + 1 && passes >= 1
    && clock[0].Ok? && clock[0].value.Finite?
    && clock[passes].Ok? && AtOrAfter(clock[passes].value, clock[0].value.ms + MAX_POLL_MS as real)
  }

  ghost predicate BoundReached(passes: seq<seq<Event>>, clock: seq<Reading>, maxPolls: nat) {
    |passes| == maxPolls || DeadlineReached(clock, |passes|)
  }

  /** Every way a cleanup can fail: nothing else may end it without a report. */
  ghost predicate CleanupStopped(
    passes: seq<seq<Event>>, tail: seq<Event>, clock: seq<Reading>,
    runtime: Runtime, requireMarker: bool, marker: string)
  {
    if passes == [] then |clock| == 1 && (clock[0].Err? || !clock[0].value.Finite?)
    else
      var last := passes[|passes| - 1];
      || PassFailed(last, runtime.peekBatchSize, marker)
      || (|clock| == |passes| + 1 && clock[|passes|].Err?)
      || (BoundReached(passes, clock, runtime.maxPolls)
          && (|last| > 2 || (requireMarker && PurgesIn(passes) == 0)))
      || FailedPause(tail, runtime.pollIntervalMs)
  }

  /** The outcome of a cleanup, as a function of its passes and its readings of the clock. */
  ghost function CleanupVerdict(
    passes: seq<seq<Event>>, clock: seq<Reading>, runtime: Runtime, requireMarker: bool, marker: string)
    : Result<CleanupReport, Error>
    requires passes != [] ==> (var last := passes[|passes| - 1]; |last| >= 2 && last[0].Peeked? && last[1].Peeked?)
  {
    var failed: Result<CleanupReport, Error> := Err(Error(CleanupFailed, None));
    if passes == [] then failed
    else
      var last := passes[|passes| - 1];
      if PassFailed(last, runtime.peekBatchSize, marker) then Err(PassError(last, runtime.peekBatchSize, marker))
      else if |clock| == |passes| + 1 && clock[|passes|].Err? then failed
      else if |last| > 2 || last[0].page.Err? || last[1].page.Err? then failed
      else if PurgesIn(passes) > 0 || (!requireMarker && BoundReached(passes, clock, runtime.maxPolls)) then
        Ok(CleanupReport(PurgesIn(passes), |last[0].page.value|, |last[1].page.value|))
      else failed
  }

  /** A pass that leaves the loop running: it completed, it did not end a purge cleanly, and there was time left. */
  ghost predicate Undecided(
    passes: seq<seq<Event>>, clock: seq<Reading>, k: nat, runtime: Runtime, marker: string)
    requires k < |passes|
  {
    && !PassFailed(passes[k], runtime.peekBatchSize, marker)
    && (|passes[k]| == 2 ==> PurgesIn(passes[..k + 1]) == 0)
    && k + 1 < |clock| && clock[0].Ok? && clock[0].value.Finite? && clock[k + 1].Ok?
    && !AtOrAfter(clock[k + 1].value, clock[0].value.ms + MAX_POLL_MS as real)
  }

  lemma UndecidedStays(
    passes: seq<seq<Event>>, clock: seq<Reading>, pass: seq<Event>, reading: seq<Reading>,
    runtime: Runtime, marker: string)
    requires forall k :: 0 <= k < |passes| ==> Undecided(passes, clock, k, runtime, marker)
    ensures forall k :: 0 <= k < |passes| ==> Undecided(passes + [pass], clock + reading, k, runtime, marker)
  {
    hide PassFailed, PurgesIn, AtOrAfter;
    forall k | 0 <= k < |passes| ensures Undecided(passes + [pass], clock + reading, k, runtime, marker) {
      assert Undecided(passes, clock, k, runtime, marker);
      assert (passes + [pass])[..k + 1] == passes[..k + 1];
    }
  }

  /**
    What the calls of a whole cleanup look like and what it makes of them. Every
    pass purges markers only and all but the last left the loop running; a failed
    pause can follow. The outcome is the verdict on these calls. A failure has one of
    the known causes. A report follows a last pass that found no marker and
    purged nothing; its count is the number of purges, all accepted; without any
    it takes the bound, and is not given when a marker was required.
   */
  ghost predicate IsCleanupRun(
    r: Result<CleanupReport, Error>, passes: seq<seq<Event>>, tail: seq<Event>, clock: seq<Reading>,
    runtime: Runtime, source: QueueId, deadLetter: QueueId, requireMarker: bool, marker: string)
  {
    && |passes| <= runtime.maxPolls && 1 <= |clock| <= |passes| + 1
    && (passes != [] ==> clock[0].Ok? && clock[0].value.Finite?)
    && AllPasses(passes, source, deadLetter, marker) && AllFromPages(passes, runtime.peekBatchSize, marker)
    && (forall k :: 0 <= k < |passes| - 1 ==> Undecided(passes, clock, k, runtime, marker))
    && (tail == [] || (FailedPause(tail, runtime.pollIntervalMs) && r.Err? && |passes| < runtime.maxPolls))
    && r == CleanupVerdict(passes, clock, runtime, requireMarker, marker)
    && (r.Err? ==> CleanupStopped(passes, tail, clock, runtime, requireMarker, marker))
    && (r.Ok? ==>
          && EndsClean(passes, r.value, runtime.peekBatchSize, marker)
          && AllPurgesAccepted(passes) && r.value.purgedRefCount == PurgesIn(passes)
          && if r.value.purgedRefCount == 0 then !requireMarker && BoundReached(passes, clock, runtime.maxPolls)
             else |passes| >= 2)
  }

  /** Between two turns of the loop: every pass so far completed, each followed by a reading of the clock. */
  ghost predicate Underway(
    passes: seq<seq<Event>>, clock: seq<Reading>, runtime: Runtime,
    source: QueueId, deadLetter: QueueId, marker: string)
  {
    && |passes| < runtime.maxPolls && |clock| == |passes| + 1 && clock[0].Ok? && clock[0].value.Finite?
    && AllPasses(passes, source, deadLetter, marker) && AllPurgesAccepted(passes)
    && AllFromPages(passes, runtime.peekBatchSize, marker)
    && forall k :: 0 <= k < |passes| ==> Undecided(passes, clock, k, runtime, marker)
  }

  /** How a turn that made this pass and these readings leaves the run. */
  ghost predicate TurnDecides(
    r: Result<(PassCounts, bool), Error>, passes: seq<seq<Event>>, clock: seq<Reading>, runtime: Runtime,
    source: QueueId, deadLetter: QueueId, requireMarker: bool, marker: string)
    requires passes != []
  {
    match r
    case Err(e) => IsCleanupRun(Err(e), passes, [], clock, runtime, source, deadLetter, requireMarker, marker)
    case Ok((counts, boundReached)) =>
      var failed := Err(Error(CleanupFailed, None));
      if |passes[|passes| - 1]| == 2 && (PurgesIn(passes) > 0 || (!requireMarker && boundReached)) then
        var report := CleanupReport(PurgesIn(passes), counts.sourceMessages, counts.deadLetterMessages);
        IsCleanupRun(Ok(report), passes, [], clock, runtime, source, deadLetter, requireMarker, marker)
      else if boundReached then
        IsCleanupRun(failed, passes, [], clock, runtime, source, deadLetter, requireMarker, marker)
      else
        && Underway(passes, clock, runtime, source, deadLetter, marker)
        && forall thrown ::
          IsCleanupRun(failed, passes, [Slept(runtime.pollIntervalMs, Some(thrown))], clock, runtime,
                       source, deadLetter, requireMarker, marker)
  }

  /** A failed pass, or a clock that cannot be read after it, ends the run. */
  lemma FailedTurnDecides(
    e: Error, passes: seq<seq<Event>>, pass: seq<Event>, clock: seq<Reading>, reading: seq<Reading>,
    runtime: Runtime, source: QueueId, deadLetter: QueueId, requireMarker: bool, marker: string)
    requires Underway(passes, clock, runtime, source, deadLetter, marker)
    requires PassShape(pass, source, deadLetter, marker) && PurgesFromPages(pass, runtime.peekBatchSize, marker)
    requires if PassFailed(pass, runtime.peekBatchSize, marker)
             then reading == [] && e == PassError(pass, runtime.peekBatchSize, marker)
             else |reading| == 1 && reading[0].Err? && e == Error(CleanupFailed, None)
    ensures IsCleanupRun(
              Err(e), passes + [pass], [], clock + reading, runtime, source, deadLetter, requireMarker, marker)
  {
    hide PassFailed, PassError, BoundReached, AllPurgesAccepted, EndsClean, Undecided, AtOrAfter, AllFromPages,
         PurgesFromPages;
    FromPagesGrow(passes, pass, runtime.peekBatchSize, marker);
    PassesGrow(passes, pass, source, deadLetter, marker);
    UndecidedStays(passes, clock, pass, reading, runtime, marker);
    hide PassShape, AllPasses;
  }

  /** A completed pass decides together with the bound: a report, a failure, or another turn. */
  lemma CompletedTurnDecides(
    counts: PassCounts, boundReached: bool,
    passes: seq<seq<Event>>, pass: seq<Event>, clock: seq<Reading>, reading: seq<Reading>,
    runtime: Runtime, source: QueueId, deadLetter: QueueId, requireMarker: bool, marker: string)
    requires Underway(passes, clock, runtime, source, deadLetter, marker)
    requires PassShape(pass, source, deadLetter, marker) && PassCounted(pass, counts, runtime.peekBatchSize, marker)
    requires !PassFailed(pass, runtime.peekBatchSize, marker)
    requires PurgesFromPages(pass, runtime.peekBatchSize, marker)
    requires if |passes| + 1 == runtime.maxPolls then reading == [] && boundReached
             else |reading| == 1 && reading[0].Ok?
                  && boundReached == AtOrAfter(reading[0].value, clock[0].value.ms + MAX_POLL_MS as real)
    ensures TurnDecides(
              Ok((counts, boundReached)), passes + [pass], clock + reading, runtime,
              source, deadLetter, requireMarker, marker)
  {
    hide PassFailed, PassError, AllAccepted, AtOrAfter, PassShape, AllPasses, BoundReached, PurgesIn, EndsClean,
         AllPurgesAccepted, Undecided, PeekCounted, AllFromPages, PurgesFromPages;
    FromPagesGrow(passes, pass, runtime.peekBatchSize, marker);
    TwoPeeks(pass, counts, runtime.peekBatchSize, source, deadLetter, marker);
    PassesGrow(passes, pass, source, deadLetter, marker);
    PurgesGrow(passes, pass, runtime, counts, marker);
    UndecidedStays(passes, clock, pass, reading, runtime, marker);
    BoundOfTurn(boundReached, passes, pass, clock, reading, runtime);
    LastUndecided(boundReached, passes, pass, clock, reading, runtime, marker);
    CleanEnd(passes, pass, counts, runtime.peekBatchSize, marker);
  }

  /** What a completed pass starts with. */
  lemma TwoPeeks(
    pass: seq<Event>, counts: PassCounts, batch: nat, source: QueueId, deadLetter: QueueId, marker: string)
    requires PassShape(pass, source, deadLetter, marker) && PassCounted(pass, counts, batch, marker)
    ensures |pass| >= 2 && pass[0].Peeked? && pass[1].Peeked? && pass[0].page.Ok? && pass[1].page.Ok?
    ensures |pass[0].page.value| == counts.sourceMessages && |pass[1].page.value| == counts.deadLetterMessages
  {
  }

  lemma PurgesGrow(
    passes: seq<seq<Event>>, pass: seq<Event>, runtime: Runtime, counts: PassCounts, marker: string)
    requires AllPurgesAccepted(passes) && PassCounted(pass, counts, runtime.peekBatchSize, marker)
    ensures AllPurgesAccepted(passes + [pass])
    ensures PurgesIn(passes + [pass]) > 0 && |pass| == 2 ==> passes != []
  {
    hide AllAccepted;
    NextPass(passes, pass, runtime.pollIntervalMs);
    assert PurgesIn([]) == 0;
  }

  lemma BoundOfTurn(
    boundReached: bool, passes: seq<seq<Event>>, pass: seq<Event>, clock: seq<Reading>, reading: seq<Reading>,
    runtime: Runtime)
    requires |passes| < runtime.maxPolls && |clock| == |passes| + 1 && clock[0].Ok? && clock[0].value.Finite?
    requires if |passes| + 1 == runtime.maxPolls then reading == [] && boundReached
             else |reading| == 1 && reading[0].Ok?
                  && boundReached == AtOrAfter(reading[0].value, clock[0].value.ms + MAX_POLL_MS as real)
    ensures boundReached <==> BoundReached(passes + [pass], clock + reading, runtime.maxPolls)
  {
    hide AtOrAfter;
  }

  lemma LastUndecided(
    boundReached: bool, passes: seq<seq<Event>>, pass: seq<Event>, clock: seq<Reading>, reading: seq<Reading>,
    runtime: Runtime, marker: string)
    requires !PassFailed(pass, runtime.peekBatchSize, marker)
    requires |passes| < runtime.maxPolls && |clock| == |passes| + 1 && clock[0].Ok? && clock[0].value.Finite?
    requires if |passes| + 1 == runtime.maxPolls then reading == [] && boundReached
             else |reading| == 1 && reading[0].Ok?
                  && boundReached == AtOrAfter(reading[0].value, clock[0].value.ms + MAX_POLL_MS as real)
    ensures var grown := passes + [pass];
            !boundReached && !(|pass| == 2 && PurgesIn(grown) > 0)
            ==> Undecided(grown, clock + reading, |passes|, runtime, marker)
  {
    hide AtOrAfter, PassFailed, PurgesIn;
    assert (passes + [pass])[..|passes| + 1] == passes + [pass];
  }

  lemma CleanEnd(passes: seq<seq<Event>>, pass: seq<Event>, counts: PassCounts, batch: nat, marker: string)
    requires PassCounted(pass, counts, batch, marker)
    ensures |pass| == 2 ==> forall n ::
              EndsClean(passes + [pass], CleanupReport(n, counts.sourceMessages, counts.deadLetterMessages),
                        batch, marker)
  {
  }

  /** The trace of the passes so far, ready for the next one. */
  ghost function Walked(base: seq<Event>, passes: seq<seq<Event>>, intervalMs: nat): seq<Event> {
    base + RunTrace(passes, intervalMs) + if passes == [] then [] else [Slept(intervalMs, None)]
  }

  /** One turn of the loop up to its decision, and what it adds to the run. */
  method Turn(
    p: Provider, runtime: Runtime, source: QueueId, deadLetter: QueueId, lastPoll: bool, deadline: real,
    ghost requireMarker: bool, ghost base: seq<Event>, ghost baseReadings: seq<Reading>,
    ghost passes: seq<seq<Event>>, ghost clock: seq<Reading>)
    returns (r: Result<(PassCounts, bool), Error>, ghost grown: seq<seq<Event>>, ghost read: seq<Reading>)
    requires p.Valid() && '\0' !in source && '\0' !in deadLetter
    requires p.trace == Walked(base, passes, runtime.pollIntervalMs) && p.readings == baseReadings + clock
    requires Underway(passes, clock, runtime, source, deadLetter, p.topology.marker)
    requires lastPoll <==> |passes| + 1 == runtime.maxPolls
    requires deadline == clock[0].value.ms + MAX_POLL_MS as real
    modifies p
    ensures p.Valid() && EnvStep(p.topology, old(p.world), p.world) && old(p.moves) <= p.moves
    ensures p.trace == base + RunTrace(grown, runtime.pollIntervalMs) + [] && p.readings == baseReadings + read
    ensures |grown| == |passes| + 1 && |read| > 0 && read[0] == clock[0]
    ensures TurnDecides(r, grown, read, runtime, source, deadLetter, requireMarker, p.topology.marker)
    ensures r.Ok? ==> PurgesIn(grown) == PurgesIn(passes) + r.value.0.purged
    ensures r.Ok? ==> |grown[|passes|]| == r.value.0.purged + 2
    ensures r.Ok? && !r.value.1 ==> |grown| < runtime.maxPolls
    ensures r.Ok? ==> (r.value.0.purged == 0 <==> r.value.0.sourceMatches == 0 && r.value.0.deadLetterMatches == 0)
    ensures r.Ok? && r.value.0.purged == 0 && source == p.topology.source && deadLetter == p.topology.deadLetter
            ==> MarkerFree(p.topology, grown[|passes|][1].world) && MarkerFree(p.topology, p.world)
  {
    hide Accounted, Leads, ClientMoves, Effects, EnvStep, RefsRecorded, PassShape, MarkerFree, PassFailed, PassError,
         AllAccepted, PeekCounted, AllPasses, RunTrace, PurgesIn, AtOrAfter, TurnDecides, IsCleanupRun, PurgesFromPages,
         AllFromPages;
    var timed, calls, reading := TimedPass(p, source, deadLetter, runtime.peekBatchSize, lastPoll, deadline);
    TraceGrows(base, passes, calls, runtime.pollIntervalMs);
    Reassociate(baseReadings, clock, reading);
    grown, read := passes + [calls], clock + reading;
    if timed.Err? {
      FailedTurnDecides(timed.error, passes, calls, clock, reading, runtime, source, deadLetter, requireMarker,
                        p.topology.marker);
      TurnFails(timed, grown, read, runtime, source, deadLetter, requireMarker, p.topology.marker);
      return timed, grown, read;
    }
    CompletedTurnDecides(timed.value.0, timed.value.1, passes, calls, clock, reading, runtime, source, deadLetter,
                         requireMarker, p.topology.marker);
    return timed, grown, read;
  }

  lemma TurnFails(
    r: Result<(PassCounts, bool), Error>, passes: seq<seq<Event>>, clock: seq<Reading>, runtime: Runtime,
    source: QueueId, deadLetter: QueueId, requireMarker: bool, marker: string)
    requires r.Err? && passes != []
    requires IsCleanupRun(Err(r.error), passes, [], clock, runtime, source, deadLetter, requireMarker, marker)
    ensures TurnDecides(r, passes, clock, runtime, source, deadLetter, requireMarker, marker)
  {
    hide IsCleanupRun;
  }

  /** Before the first turn. A clock that cannot be read, or shows no finite time, is the end. */
  lemma NothingDone(
    started: Reading, runtime: Runtime, source: QueueId, deadLetter: QueueId, requireMarker: bool,
    marker: string)
    requires ValidRuntime(runtime)
    ensures runtime.maxPolls >= 1 && PurgesIn([]) == 0 && RunTrace([], runtime.pollIntervalMs) == []
    ensures if started.Ok? && started.value.Finite? then Underway([], [started], runtime, source, deadLetter, marker)
            else IsCleanupRun(Err(Error(CleanupFailed, None)), [], [], [started], runtime,
                              source, deadLetter, requireMarker, marker)
  {
  }

  /** The loop. */
  method CleanupLoop(p: Provider, runtime: Runtime, source: QueueId, deadLetter: QueueId, requireMarker: bool)
    returns (r: Result<CleanupReport, Error>, ghost passes: seq<seq<Event>>, ghost tail: seq<Event>,
             ghost clock: seq<Reading>)
    requires p.Valid() && ValidRuntime(runtime) && '\0' !in source && '\0' !in deadLetter
    modifies p
    ensures p.Valid() && EnvStep(p.topology, old(p.world), p.world) && old(p.moves) <= p.moves
    ensures p.trace == old(p.trace) + RunTrace(passes, runtime.pollIntervalMs) + tail
    ensures p.readings == old(p.readings) + clock
    ensures IsCleanupRun(r, passes, tail, clock, runtime, source, deadLetter, requireMarker, p.topology.marker)
    ensures r.Ok? && source == p.topology.source && deadLetter == p.topology.deadLetter
            ==> MarkerFree(p.topology, passes[|passes| - 1][1].world) && MarkerFree(p.topology, p.world)
  {
    hide Accounted, Leads, ClientMoves, Effects, EnvStep, RefsRecorded, MarkerFree, RunTrace, PurgesIn, Underway,
         IsCleanupRun, EndsClean, CleanupStopped, CleanupVerdict, AllPasses, PassShape, PassFailed, AllPurgesAccepted,
         BoundReached, ValidRuntime, AtOrAfter;
    passes, tail, clock := [], [], [];
    var started := p.Now();
    clock := [started];
    NothingDone(started, runtime, source, deadLetter, requireMarker, p.topology.marker);
    if started.Err? || !started.value.Finite? {
      return Err(Error(CleanupFailed, None)), passes, tail, clock;
    }
    var deadline := started.value.ms + MAX_POLL_MS as real;
    var markerWasObserved := false;
    var purgedRefCount: nat := 0;
    var pass := 0;
    while pass < runtime.maxPolls
      invariant 0 <= pass == |passes| < runtime.maxPolls && tail == []
      invariant p.Valid() && EnvStep(p.topology, old(p.world), p.world) && old(p.moves) <= p.moves
      invariant p.trace == Walked(old(p.trace), passes, runtime.pollIntervalMs) && p.readings == old(p.readings) + clock
      invariant |clock| > 0 && clock[0] == started
      invariant Underway(passes, clock, runtime, source, deadLetter, p.topology.marker)
      invariant purgedRefCount == PurgesIn(passes) && (markerWasObserved <==> purgedRefCount >= 1)
    {
      ghost var before := p.world;
      ghost var grown, read;
      var turned;
      turned, grown, read := Turn(p, runtime, source, deadLetter, pass + 1 == runtime.maxPolls, deadline,
                                  requireMarker, old(p.trace), old(p.readings), passes, clock);
      EnvTransitive(p.topology, old(p.world), before, p.world);
      passes, clock := grown, read;
      if turned.Err? {
        return Err(turned.error), passes, tail, clock;
      }
      var (counts, boundReached) := turned.value;
      if counts.sourceMatches > 0 || counts.deadLetterMatches > 0 {
        markerWasObserved := true;
      }
      purgedRefCount := purgedRefCount + counts.purged;
      var report := CleanupReport(purgedRefCount, counts.sourceMessages, counts.deadLetterMessages);
      if !markerWasObserved {
        if !requireMarker && boundReached {
          return Ok(report.(purgedRefCount := 0)), passes, tail, clock;
        }
      } else if counts.sourceMatches == 0 && counts.deadLetterMatches == 0 {
        return Ok(report), passes, tail, clock;
      }
      if boundReached {
        return Err(Error(CleanupFailed, None)), passes, tail, clock;
      }
      before := p.world;
      var slept := p.Sleep(runtime.pollIntervalMs);
      EnvTransitive(p.topology, old(p.world), before, p.world);
      if slept.Some? {
        tail := [Slept(runtime.pollIntervalMs, slept)];
        return Err(Error(CleanupFailed, None)), passes, tail, clock;
      }
      pass := pass + 1;
    }
    assert false;
  }

  // ---------- what a run says of its replies and its clock ----------

  /** A report means that every purge of the run was answered, and that no answer said anything. */
  lemma {:induction false} ReportMeansQuietReplies(
    r: Result<CleanupReport, Error>, passes: seq<seq<Event>>, tail: seq<Event>, clock: seq<Reading>,
    runtime: Runtime, source: QueueId, deadLetter: QueueId, requireMarker: bool, marker: string)
    requires IsCleanupRun(r, passes, tail, clock, runtime, source, deadLetter, requireMarker, marker) && r.Ok?
    ensures forall k, i | 0 <= k < |passes| && 2 <= i < |passes[k]| ::
              passes[k][i].Purged? && passes[k][i].reply.Ok? && SaysNothing(passes[k][i].reply.value)
  {
    hide CleanupVerdict, CleanupStopped, EndsClean, Undecided, PurgesFromPages, BoundReached, SaysNothing,
         PurgeAccepted;
    forall k, i | 0 <= k < |passes| && 2 <= i < |passes[k]|
      ensures passes[k][i].Purged? && passes[k][i].reply.Ok? && SaysNothing(passes[k][i].reply.value)
    {
      assert AllAccepted(passes[k]) && IsAcceptedPurge(passes[k][i]);
      PurgeAcceptedExactly(passes[k][i].reply.value);
    }
  }

  /** A pass whose pages are usable and whose purges are all answered with nothing to say completes. */
  lemma {:induction false} QuietPassCompletes(
    pass: seq<Event>, source: QueueId, deadLetter: QueueId, batch: nat, marker: string)
    requires PassShape(pass, source, deadLetter, marker)
    requires forall i | 0 <= i < 2 :: pass[i].page.Ok? && PeekUsable(pass[i], batch, marker)
    requires forall i | 2 <= i < |pass| :: pass[i].reply.Ok? && SaysNothing(pass[i].reply.value)
    ensures !PassFailed(pass, batch, marker)
  {
    assert PeekUsable(pass[0], batch, marker) && PeekUsable(pass[1], batch, marker);
    if |pass| > 2 {
      PurgeAcceptedExactly(pass[|pass| - 1].reply.value);
    }
  }

  /** A purge that is answered with anything to say ends the run, and the error says which boundary complained. */
  lemma {:induction false} ComplaintEndsRun(
    r: Result<CleanupReport, Error>, passes: seq<seq<Event>>, tail: seq<Event>, clock: seq<Reading>,
    runtime: Runtime, source: QueueId, deadLetter: QueueId, requireMarker: bool, marker: string, k: nat, i: nat)
    requires IsCleanupRun(r, passes, tail, clock, runtime, source, deadLetter, requireMarker, marker)
    requires k < |passes| && 2 <= i < |passes[k]| && passes[k][i].Purged? && passes[k][i].reply.Ok?
    requires !SaysNothing(passes[k][i].reply.value)
    ensures k == |passes| - 1 && i == |passes[k]| - 1
    ensures r == Err(Error(CleanupFailed, Some(Diagnostic(QueuePurge, ProviderResponseInvalid, None))))
  {
    hide CleanupStopped, EndsClean, BoundReached, SaysNothing, PurgeAccepted, Due;
    PurgeAcceptedExactly(passes[k][i].reply.value);
    assert PassShape(passes[k], source, deadLetter, marker);
    assert PurgesFromPages(passes[k], runtime.peekBatchSize, marker);
    assert r.Ok? ==> AllAccepted(passes[k]);
    assert k < |passes| - 1 ==> Undecided(passes, clock, k, runtime, marker);
  }

  /** The clock shows this time, or a later one. */
  ghost predicate ShowsFrom(reading: Reading, ms: real) {
    reading == Ok(PositiveInfinity) || exists now :: reading == Ok(Finite(now)) && now >= ms
  }

  /**
    The bound is 300000 ms after the first reading. While a run went on the clock
    had not shown it; a report without a purge takes the last poll or that time.
   */
  lemma {:induction false} ClockOfRun(
    r: Result<CleanupReport, Error>, passes: seq<seq<Event>>, tail: seq<Event>, clock: seq<Reading>,
    runtime: Runtime, source: QueueId, deadLetter: QueueId, requireMarker: bool, marker: string)
    requires IsCleanupRun(r, passes, tail, clock, runtime, source, deadLetter, requireMarker, marker)
    ensures passes == [] ==> r == Err(Error(CleanupFailed, None)) && forall ms :: clock[0] != Ok(Finite(ms))
    ensures passes != [] ==> exists start: real ::
      && clock[0] == Ok(Finite(start)) && |clock| >= |passes|
      && (forall k :: 0 < k < |passes| ==> clock[k].Ok? && !ShowsFrom(clock[k], start + 300_000.0))
      && (r.Ok? && r.value.purgedRefCount == 0 ==>
            |passes| == runtime.maxPolls || (|clock| > |passes| && ShowsFrom(clock[|passes|], start + 300_000.0)))
  {
    hide CleanupVerdict, EndsClean, PassFailed, PurgesIn, AllFromPages, AllPasses, AllPurgesAccepted;
    if passes == [] {
      assert r == Err(Error(CleanupFailed, None)) by { NothingVerdict(clock, runtime, requireMarker, marker); }
    } else {
      var start := clock[0].value.ms;
      if |passes| > 1 {
        assert Undecided(passes, clock, |passes| - 2, runtime, marker);
      }
      forall k | 0 < k < |passes| ensures clock[k].Ok? && !ShowsFrom(clock[k], start + 300_000.0) {
        assert Undecided(passes, clock, k - 1, runtime, marker);
      }
      assert clock[0] == Ok(Finite(start));
    }
  }

  lemma NothingVerdict(clock: seq<Reading>, runtime: Runtime, requireMarker: bool, marker: string)
    ensures CleanupVerdict([], clock, runtime, requireMarker, marker) == Err(Error(CleanupFailed, None))
  {
  }

  /** With usable pages and no purge refused the run ends with the diagnostic of the first peek that failed. */
  lemma {:induction false} ReadErrorEndsRun(
    r: Result<CleanupReport, Error>, passes: seq<seq<Event>>, tail: seq<Event>, clock: seq<Reading>,
    runtime: Runtime, source: QueueId, deadLetter: QueueId, requireMarker: bool, marker: string)
    requires IsCleanupRun(r, passes, tail, clock, runtime, source, deadLetter, requireMarker, marker) && passes != []
    requires var last := passes[|passes| - 1];
      && (forall i | 0 <= i < 2 && i < |last| :: PeekUsable(last[i], runtime.peekBatchSize, marker))
      && (|last| > 2 ==> IsAcceptedPurge(last[|last| - 1]))
    ensures var last := passes[|passes| - 1];
      && |last| >= 2 && last[0].Peeked? && last[1].Peeked?
      && (last[0].page.Err? ==> r == Err(Error(CleanupFailed, last[0].page.error.diagnostic)))
      && (last[0].page.Ok? && last[1].page.Err? ==> r == Err(Error(CleanupFailed, last[1].page.error.diagnostic)))
  {
    hide CleanupStopped, EndsClean, Undecided, AllFromPages, AllPurgesAccepted, BoundReached, PurgesIn;
    assert PassShape(passes[|passes| - 1], source, deadLetter, marker);
  }

  // ---------- what the calls changed ----------

  /** No effect of these calls reaches a bystander. */
  ghost predicate CallsSpare(calls: seq<Event>, marker: string) {
    forall e :: e in calls ==>
      && (e.Purged? ==> SparesBystanders(e.before, e.after, marker))
      && (e.Published? ==> SparesBystanders(e.worldBefore, e.worldAfter, marker))
  }

  lemma {:induction false} EffectsSpare(calls: seq<Event>, marker: string)
    requires CallsSpare(calls, marker)
    ensures AllSpare(Effects(calls), marker)
  {
    hide SparesBystanders;
    if calls != [] {
      EffectsSpare(calls[..|calls| - 1], marker);
      assert calls[|calls| - 1] in calls;
    }
  }

  lemma {:induction false} RunSpares(passes: seq<seq<Event>>, intervalMs: nat, marker: string)
    requires forall k :: 0 <= k < |passes| ==> CallsSpare(passes[k], marker)
    ensures CallsSpare(RunTrace(passes, intervalMs), marker)
  {
    hide SparesBystanders;
    if |passes| > 1 {
      RunSpares(passes[..|passes| - 1], intervalMs, marker);
    }
  }

  lemma {:induction false} PassesSpare(
    passes: seq<seq<Event>>, intervalMs: nat, source: QueueId, deadLetter: QueueId, marker: string)
    requires AllPasses(passes, source, deadLetter, marker)
    ensures CallsSpare(RunTrace(passes, intervalMs), marker)
  {
    forall k | 0 <= k < |passes| ensures CallsSpare(passes[k], marker) {
      assert PassShape(passes[k], source, deadLetter, marker);
      hide SparesBystanders;
      forall e | e in passes[k] ensures e.Purged? ==> SparesBystanders(e.before, e.after, marker) {
        var i :| 0 <= i < |passes[k]| && passes[k][i] == e;
        assert i >= 2 ==> BystandersKept(passes[k][i], marker);
      }
      forall e | e in passes[k] ensures !e.Published? {
        var i :| 0 <= i < |passes[k]| && passes[k][i] == e;
        assert i == 0 || i == 1 || passes[k][i].Purged?;
      }
    }
    RunSpares(passes, intervalMs, marker);
  }

  /**
    Between two states of the provider: the moves made lead from one to the other,
    the client's among them are exactly the effects of these calls, and whatever
    touched a bystander was a move of the environment, which was fixed in advance.
    So the copies of any bystander in any queue change by what the environment
    adds and takes, and by nothing else.
   */
  ghost predicate ChangedOnlyBy(
    t: Topology, env: Environment, w: World, moves: seq<Move>, w': World, moves': seq<Move>, calls: seq<Event>)
  {
    && moves <= moves'
    && var since := moves'[|moves|..];
      && Leads(t, env, w, |moves|, since, w')
      && ClientMoves(since) == Effects(calls)
      && OnlyEnvironmentTouchesBystanders(since, t.marker)
      && forall q, m ::
        Copies(w', q, m, t.marker) == Copies(w, q, m, t.marker) + EnvironmentNet(since, q, m, t.marker)
  }

  /** Calls that spare bystanders leave them to the environment over a whole run. */
  lemma {:induction false} SparingRun(
    t: Topology, env: Environment, origin: World,
    moves: seq<Move>, trace: seq<Event>, w: World,
    moves': seq<Move>, calls: seq<Event>, w': World)
    requires Accounted(t, env, origin, moves, trace, w) && Accounted(t, env, origin, moves', trace + calls, w')
    requires moves <= moves' && CallsSpare(calls, t.marker)
    ensures ChangedOnlyBy(t, env, w, moves, w', moves', calls)
  {
    var since := moves'[|moves|..];
    ChangesSince(t, env, origin, moves, trace, w, moves', calls, w');
    EffectsSpare(calls, t.marker);
    ClientMovesSpare(since, t.marker);
    hide Leads, ClientMoves, Effects, Accounted, Copies, EnvironmentNet, OnlyEnvironmentTouchesBystanders;
    forall q, m
      ensures Copies(w', q, m, t.marker) == Copies(w, q, m, t.marker) + EnvironmentNet(since, q, m, t.marker)
    {
      BystandersConserved(t, env, w, |moves|, since, w', q, m);
    }
  }

  // ---------- the cleanup ----------

  /** The purge-and-verify loop, for queues already resolved. */
  method CleanupResolved(p: Provider, runtime: Runtime, source: QueueId, deadLetter: QueueId, requireMarker: bool)
    returns (r: Result<CleanupReport, Error>, ghost passes: seq<seq<Event>>, ghost tail: seq<Event>,
             ghost clock: seq<Reading>)
    requires p.Valid() && ValidRuntime(runtime) && '\0' !in source && '\0' !in deadLetter
    modifies p
    ensures p.Valid() && EnvStep(p.topology, old(p.world), p.world) && old(p.moves) <= p.moves
    // The calls and readings of this cleanup are these and no others, and the outcome is the verdict on them.
    ensures p.trace == old(p.trace) + (RunTrace(passes, runtime.pollIntervalMs) + tail)
    ensures p.readings == old(p.readings) + clock
    ensures IsCleanupRun(r, passes, tail, clock, runtime, source, deadLetter, requireMarker, p.topology.marker)
    // It sleeps at most 300 seconds in all.
    ensures SleptMs(RunTrace(passes, runtime.pollIntervalMs) + tail) <= 300_000
    // Marker absence, at the last peek and still on return.
    ensures r.Ok? && source == p.topology.source && deadLetter == p.topology.deadLetter
            ==> MarkerFree(p.topology, passes[|passes| - 1][1].world) && MarkerFree(p.topology, p.world)
    // Bystander safety of the whole run.
    ensures ChangedOnlyBy(p.topology, p.env, old(p.world), old(p.moves), p.world, p.moves,
                          RunTrace(passes, runtime.pollIntervalMs) + tail)
  {
    hide EnvStep, RefsRecorded, RunTrace, Leads, ClientMoves, Effects, MarkerFree, PassShape, PassFailed, PassError,
         CleanupStopped, CleanupVerdict, EndsClean, AllPurgesAccepted, BoundReached, PurgesIn, SleptMs, ChangedOnlyBy,
         CallsSpare, ValidRuntime, AllPasses;
    r, passes, tail, clock := CleanupLoop(p, runtime, source, deadLetter, requireMarker);
    ghost var walked := RunTrace(passes, runtime.pollIntervalMs);
    Reassociate(old(p.trace), walked, tail);
    PassesSleepWithinBound(runtime, passes, tail, source, deadLetter, p.topology.marker);
    PassesSpare(passes, runtime.pollIntervalMs, source, deadLetter, p.topology.marker);
    PauseSpares(walked, tail, p.topology.marker);
    SparingRun(p.topology, p.env, p.origin, old(p.moves), old(p.trace), old(p.world), p.moves, walked + tail, p.world);
  }

  lemma BothSpare(a: seq<Event>, b: seq<Event>, marker: string)
    requires CallsSpare(a, marker) && CallsSpare(b, marker)
    ensures CallsSpare(a + b, marker)
  {
    hide SparesBystanders;
  }

  lemma PauseSpares(calls: seq<Event>, tail: seq<Event>, marker: string)
    requires CallsSpare(calls, marker) && |tail| <= 1 && (tail != [] ==> tail[0].Slept?)
    ensures CallsSpare(calls + tail, marker)
  {
    hide SparesBystanders;
  }
}
