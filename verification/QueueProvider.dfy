/**
  The queue provider as its client sees it. Every call first lets the environment
  move any number of messages, and every call may fail.
 */
module QueueProvider {
  import opened Outcomes
  import opened QueueModel

  // ---------- replies ----------

  /** One field of a reply, as far as the client's emptiness test looks into it. */
  datatype Extra = Absent | Array(length: nat) | Object(keys: nat) | Str(length: nat) | Scalar

  datatype PurgePayload = PurgePayload(
    errors: Extra,
    messages: Extra,
    warnings: Extra,
    resultErrors: Extra,
    resultWarnings: Extra)

  predicate HasEntries(e: Extra) {
    match e
    case Absent => false
    case Array(n) => n > 0
    case Object(n) => n > 0
    case Str(n) => n > 0
    case Scalar => true
  }

  predicate PurgeAccepted(p: PurgePayload) {
    !HasEntries(p.errors) && !HasEntries(p.messages) && !HasEntries(p.warnings)
    && !HasEntries(p.resultErrors) && !HasEntries(p.resultWarnings)
  }

  /** There is nothing in any of the five places where the reply may complain: no value, or an empty one. */
  ghost predicate SaysNothing(p: PurgePayload) {
    forall e | e in [p.errors, p.messages, p.warnings, p.resultErrors, p.resultWarnings] ::
      e in {Absent, Array(0), Object(0), Str(0)}
  }

  /** A purge reply is accepted exactly when it says nothing. */
  lemma PurgeAcceptedExactly(p: PurgePayload)
    ensures PurgeAccepted(p) <==> SaysNothing(p)
  {
    var places := [p.errors, p.messages, p.warnings, p.resultErrors, p.resultWarnings];
    assert places[0] in places && places[1] in places && places[2] in places && places[3] in places
        && places[4] in places;
  }

  datatype RawQueue = RawQueue(id: Option<string>, name: Option<string>)

  datatype QueueEntry = QueueEntry(id: QueueId, name: string)

  datatype PageInfo = PageInfo(page: Option<int>, totalPages: Option<int>, totalCount: Option<int>, count: Option<int>)

  /** A reply of the queue listing. None stands for a part of the wrong type. */
  datatype ListReply = ListReply(result: Option<seq<RawQueue>>, info: Option<PageInfo>)

  datatype Consumer = Consumer(
    kind: Option<Json>,
    queueName: Option<Json>,
    scriptName: Option<Json>,
    script: Option<Json>,
    deadLetterQueue: Option<Json>,
    settings: Option<Json>)

  // ---------- the trace ----------

  datatype Event =
    | Listed(number: nat, listing: Result<ListReply, Error>)
    | ListedConsumers(consumersOf: QueueId, consumers: Result<seq<Consumer>, Error>)
    | Peeked(queue: QueueId, page: Result<seq<Message>, Error>, world: World)
    | Purged(purgedQueue: QueueId, ref: string, reply: Result<PurgePayload, Error>, before: World, after: World)
    | Published(publishedTo: QueueId, body: Body, accepted: Result<(), Error>, worldBefore: World, worldAfter: World)
    | Slept(ms: nat, sleepThrew: Option<Thrown>)
    | Worked(workThrew: Option<Thrown>)

  predicate IsAcceptedPurge(e: Event) {
    e.Purged? && e.reply.Ok? && PurgeAccepted(e.reply.value)
  }

  predicate IsCallError(e: Error, b: Boundary) {
    && e.code in {ProviderRequestFailed, ProviderResponseInvalid}
    && e.diagnostic.Some? && e.diagnostic.value.boundary == b
  }

  /** A marker ref: the pair is on record as having named a marker message. */
  predicate KnownMarkerRef(w: World, q: QueueId, ref: string) {
    (q, ref) in w.refKinds && w.refKinds[(q, ref)]
  }

  function AfterPurge(w: World, q: QueueId, ref: string): World {
    World(w.queues[q := WithoutRef(Queue(w, q), ref)], w.refKinds)
  }

  function Enqueued(w: World, q: QueueId, m: Message, marker: string): World {
    World(
      w.queues[q := Queue(w, q) + [m]],
      if m.ref.Some? then w.refKinds[(q, m.ref.value) := IsMarker(m, marker)] else w.refKinds)
  }

  /** Purging a known marker ref touches no bystander of any queue and adds no marker. */
  lemma {:induction false} PurgeOfMarkerRef(t: Topology, w: World, q: QueueId, ref: string)
    requires RefsRecorded(w, t.marker)
    ensures EnvStep(t, w, AfterPurge(w, q, ref))
    ensures KnownMarkerRef(w, q, ref)
            ==> forall p :: Bystanders(Queue(AfterPurge(w, q, ref), p), t.marker) == Bystanders(Queue(w, p), t.marker)
  {
    var w' := AfterPurge(w, q, ref);
    WithoutRefEffect(Queue(w, q), ref, t.marker);
    forall p ensures Queue(w', p) == if p == q then WithoutRef(Queue(w, q), ref) else Queue(w, p) {
    }
    forall p, m | p in w'.queues && m in w'.queues[p] ensures RefRecorded(w', p, m, t.marker) {
      assert m in Queue(w, p);
      assert p in w.queues && RefRecorded(w, p, m, t.marker);
    }
    if KnownMarkerRef(w, q, ref) {
      forall m | m in Queue(w, q) && m.ref == Some(ref) ensures IsMarker(m, t.marker) {
        assert q in w.queues && RefRecorded(w, q, m, t.marker);
      }
    }
  }

  lemma {:induction false} EnvReflexive(t: Topology, w: World)
    requires RefsRecorded(w, t.marker)
    ensures EnvStep(t, w, w)
  {
  }

  lemma {:induction false} EnvTransitive(t: Topology, a: World, b: World, c: World)
    requires EnvStep(t, a, b) && EnvStep(t, b, c)
    ensures EnvStep(t, a, c)
  {
  }

  /** A marker message read in a page of a queue has a known marker ref there. */
  lemma {:induction false} PageRefsAreKnown(
    t: Topology, w: World, q: QueueId, page: seq<Message>, batch: nat, ref: string)
    requires RefsRecorded(w, t.marker) && IsPage(page, Queue(w, q), batch) && NamesMarker(page, ref, t.marker)
    ensures KnownMarkerRef(w, q, ref)
  {
    var m :| m in page && IsMarker(m, t.marker) && m.ref == Some(ref);
    assert m in multiset(page);
    assert m in Queue(w, q);
    assert q in w.queues && RefRecorded(w, q, m, t.marker);
  }

  // ---------- the ledger of changes ----------

  /** One change of the hidden state: a move of the environment, or what one call of the client did. */
  datatype Move =
    | Interference(before: World, after: World)
    | Removal(queue: QueueId, ref: string, before: World, after: World)
    | Addition(queue: QueueId, body: Body, before: World, after: World)

  /** What the environment will do, fixed in advance: its n-th move from any state. */
  type Environment = (nat, World) -> World

  /** The n-th move of the environment, if it is one that the assumption allows. */
  function EnvMove(t: Topology, env: Environment, n: nat, w: World): World {
    if EnvStep(t, w, env(n, w)) then env(n, w) else w
  }

  /** A move is the environment's own, or has an effect the call it stands for can have. */
  ghost predicate IsLegal(t: Topology, env: Environment, n: nat, m: Move) {
    match m
    case Interference(before, after) => after == EnvMove(t, env, n, before)
    case Removal(q, ref, before, after) => after == before || after == AfterPurge(before, q, ref)
    case Addition(q, body, before, after) =>
      after == before || exists x: Message :: x.body == body && after == Enqueued(before, q, x, t.marker)
  }

  /** These moves, each legal and starting where the one before it ended, lead from one state to the other. */
  ghost predicate Leads(t: Topology, env: Environment, start: World, first: nat, moves: seq<Move>, end: World) {
    if moves == [] then start == end
    else
      var n := |moves| - 1;
      moves[n].after == end && IsLegal(t, env, first + n, moves[n])
      && Leads(t, env, start, first, moves[..n], moves[n].before)
  }

  /** The moves that are not the environment's. */
  ghost function ClientMoves(moves: seq<Move>): seq<Move> {
    if moves == [] then []
    else
      var n := |moves| - 1;
      ClientMoves(moves[..n]) + if moves[n].Interference? then [] else [moves[n]]
  }

  /** The changes that the recorded calls account for. */
  ghost function Effects(calls: seq<Event>): seq<Move> {
    if calls == [] then []
    else
      var e := calls[|calls| - 1];
      Effects(calls[..|calls| - 1])
      + (if e.Purged? then [Removal(e.purgedQueue, e.ref, e.before, e.after)]
         else if e.Published? then [Addition(e.publishedTo, e.body, e.worldBefore, e.worldAfter)]
         else [])
  }

  /** The state is what the moves make of the first one, and the client's moves are those of its recorded calls. */
  ghost predicate Accounted(
    t: Topology, env: Environment, origin: World, moves: seq<Move>, trace: seq<Event>, w: World)
  {
    Leads(t, env, origin, 0, moves, w) && ClientMoves(moves) == Effects(trace)
  }

  lemma SoleEffect(e: Event)
    ensures Effects([e]) == if e.Purged? then [Removal(e.purgedQueue, e.ref, e.before, e.after)]
                            else if e.Published? then [Addition(e.publishedTo, e.body, e.worldBefore, e.worldAfter)]
                            else []
  {
    assert [e][..0] == [];
  }

  lemma NothingMoved(t: Topology, env: Environment, w: World)
    ensures Accounted(t, env, w, [], [], w)
  {
  }

  lemma EnvironmentMoves(
    t: Topology, env: Environment, origin: World, moves: seq<Move>, trace: seq<Event>, w: World)
    requires Accounted(t, env, origin, moves, trace, w)
    ensures var next := EnvMove(t, env, |moves|, w);
            Accounted(t, env, origin, moves + [Interference(w, next)], trace, next)
  {
    hide EnvMove;
    assert (moves + [Interference(w, EnvMove(t, env, |moves|, w))])[..|moves|] == moves;
  }

  /** A call that changes nothing adds no move. */
  lemma QuietCall(
    t: Topology, env: Environment, origin: World, moves: seq<Move>, trace: seq<Event>, w: World, e: Event)
    requires Accounted(t, env, origin, moves, trace, w) && !e.Purged? && !e.Published?
    ensures Accounted(t, env, origin, moves, trace + [e], w)
  {
    hide Leads, ClientMoves;
    assert (trace + [e])[..|trace|] == trace;
  }

  lemma EffectiveCall(
    t: Topology, env: Environment, origin: World, moves: seq<Move>, trace: seq<Event>, w: World, e: Event, m: Move)
    requires Accounted(t, env, origin, moves, trace, w)
    requires m.before == w && IsLegal(t, env, |moves|, m) && Effects([e]) == [m] && !m.Interference?
    ensures Accounted(t, env, origin, moves + [m], trace + [e], m.after)
  {
    hide IsLegal;
    assert (trace + [e])[..|trace|] == trace && (moves + [m])[..|moves|] == moves;
    assert [e][..0] == [];
  }

  lemma {:induction false} LeadsSplit(
    t: Topology, env: Environment, start: World, first: nat, moves: seq<Move>, end: World, k: nat, mid: World)
    requires k <= |moves| && Leads(t, env, start, first, moves, end) && Leads(t, env, start, first, moves[..k], mid)
    ensures Leads(t, env, mid, first + k, moves[k..], end)
  {
    hide IsLegal;
    if k == |moves| {
      assert moves[..k] == moves;
      LeadsUnique(t, env, start, first, moves, end, mid);
    } else {
      var n := |moves| - 1;
      assert moves[..n][..k] == moves[..k];
      LeadsSplit(t, env, start, first, moves[..n], moves[n].before, k, mid);
      assert moves[k..][..n - k] == moves[..n][k..];
    }
  }

  lemma {:induction false} LeadsUnique(
    t: Topology, env: Environment, start: World, first: nat, moves: seq<Move>, a: World, b: World)
    requires Leads(t, env, start, first, moves, a) && Leads(t, env, start, first, moves, b)
    ensures a == b
  {
  }

  lemma {:induction false} ClientMovesAppend(a: seq<Move>, b: seq<Move>)
    ensures ClientMoves(a + b) == ClientMoves(a) + ClientMoves(b)
  {
    if b == [] {
      assert a + b == a;
    } else {
      var n := |b| - 1;
      ClientMovesAppend(a, b[..n]);
      assert (a + b)[..|a + b| - 1] == a + b[..n];
    }
  }

  lemma {:induction false} EffectsAppend(a: seq<Event>, b: seq<Event>)
    ensures Effects(a + b) == Effects(a) + Effects(b)
  {
    if b == [] {
      assert a + b == a;
    } else {
      var n := |b| - 1;
      EffectsAppend(a, b[..n]);
      assert (a + b)[..|a + b| - 1] == a + b[..n];
    }
  }

  /** Of everything that changed since an earlier state, exactly the calls made since then are the client's doing. */
  lemma {:induction false} ChangesSince(
    t: Topology, env: Environment, origin: World,
    moves: seq<Move>, trace: seq<Event>, w: World,
    moves': seq<Move>, calls: seq<Event>, w': World)
    requires Accounted(t, env, origin, moves, trace, w) && Accounted(t, env, origin, moves', trace + calls, w')
    requires moves <= moves'
    ensures Leads(t, env, w, |moves|, moves'[|moves|..], w')
    ensures ClientMoves(moves'[|moves|..]) == Effects(calls)
  {
    var since := moves'[|moves|..];
    assert moves'[..|moves|] == moves && moves' == moves + since;
    LeadsSplit(t, env, origin, 0, moves', w', |moves|, w);
    ClientMovesAppend(moves, since);
    EffectsAppend(trace, calls);
    assert ClientMoves(since) == (ClientMoves(moves) + ClientMoves(since))[|ClientMoves(moves)|..];
    assert Effects(calls) == (Effects(trace) + Effects(calls))[|Effects(trace)|..];
  }

  // ---------- bystanders ----------

  /** The change left every message that is not a marker, in every queue, where it was. */
  ghost predicate SparesBystanders(before: World, after: World, marker: string) {
    forall q :: Bystanders(Queue(after, q), marker) == Bystanders(Queue(before, q), marker)
  }

  /** Whatever among these changes touched a bystander was a move of the environment. */
  ghost predicate OnlyEnvironmentTouchesBystanders(moves: seq<Move>, marker: string) {
    forall i :: 0 <= i < |moves| && !moves[i].Interference? ==>
      SparesBystanders(moves[i].before, moves[i].after, marker)
  }

  ghost predicate AllSpare(moves: seq<Move>, marker: string) {
    forall i :: 0 <= i < |moves| ==> SparesBystanders(moves[i].before, moves[i].after, marker)
  }

  lemma {:induction false} ClientMovesSpare(moves: seq<Move>, marker: string)
    requires AllSpare(ClientMoves(moves), marker)
    ensures OnlyEnvironmentTouchesBystanders(moves, marker)
  {
    hide SparesBystanders;
    if moves != [] {
      var n := |moves| - 1;
      var front := ClientMoves(moves[..n]);
      assert forall i :: 0 <= i < |front| ==> front[i] == ClientMoves(moves)[i];
      ClientMovesSpare(moves[..n], marker);
      assert !moves[n].Interference? ==> ClientMoves(moves)[|front|] == moves[n];
      assert forall i :: 0 <= i < n ==> moves[..n][i] == moves[i];
    }
  }

  /** How many copies of a bystander a queue holds. */
  ghost function Copies(w: World, q: QueueId, m: Message, marker: string): int {
    multiset(Bystanders(Queue(w, q), marker))[m]
  }

  /** What the environment alone added to (or, if negative, took from) them. */
  ghost function EnvironmentNet(moves: seq<Move>, q: QueueId, m: Message, marker: string): int {
    if moves == [] then 0
    else
      var n := |moves| - 1;
      EnvironmentNet(moves[..n], q, m, marker)
      + if moves[n].Interference? then Copies(moves[n].after, q, m, marker) - Copies(moves[n].before, q, m, marker)
        else 0
  }

  /** Conservation: a queue's bystanders change by exactly what the environment adds and takes. */
  lemma {:induction false} BystandersConserved(
    t: Topology, env: Environment, start: World, first: nat, moves: seq<Move>, end: World, q: QueueId, m: Message)
    requires Leads(t, env, start, first, moves, end) && OnlyEnvironmentTouchesBystanders(moves, t.marker)
    ensures Copies(end, q, m, t.marker) == Copies(start, q, m, t.marker) + EnvironmentNet(moves, q, m, t.marker)
  {
    if moves != [] {
      var n := |moves| - 1;
      assert forall i :: 0 <= i < n ==> moves[..n][i] == moves[i];
      BystandersConserved(t, env, start, first, moves[..n], moves[n].before, q, m);
      assert !moves[n].Interference? ==> SparesBystanders(moves[n].before, moves[n].after, t.marker);
    }
  }

  /** Publishing a marker adds no bystander. */
  lemma {:induction false} EnqueuedMarkerSpares(w: World, q: QueueId, m: Message, marker: string)
    requires IsMarker(m, marker)
    ensures SparesBystanders(w, Enqueued(w, q, m, marker), marker)
  {
    BystandersAppend(Queue(w, q), m, marker);
    forall p ensures Queue(Enqueued(w, q, m, marker), p) == if p == q then Queue(w, q) + [m] else Queue(w, p) {
    }
  }

  lemma {:induction false} BystandersAppend(ms: seq<Message>, m: Message, marker: string)
    ensures Bystanders(ms + [m], marker) == Bystanders(ms, marker) + if IsMarker(m, marker) then [] else [m]
  {
    if ms == [] {
      assert ms + [m] == [m];
    } else {
      BystandersAppend(ms[1..], m, marker);
      assert (ms + [m])[1..] == ms[1..] + [m];
    }
  }

  /** A message whose reference is new, or that has none, keeps the record of references right. */
  lemma EnqueuedIsRecorded(w: World, q: QueueId, m: Message, marker: string)
    requires RefsRecorded(w, marker) && (m.ref.Some? ==> (q, m.ref.value) !in w.refKinds)
    ensures RefsRecorded(Enqueued(w, q, m, marker), marker)
  {
  }

  class Provider {
    const topology: Topology
    const env: Environment
    const origin: World
    var world: World
    ghost var trace: seq<Event>
    ghost var readings: seq<Reading>
    var moves: seq<Move>

    ghost predicate Valid()
      reads this
    {
      RefsRecorded(world, topology.marker) && Accounted(topology, env, origin, moves, trace, world)
    }

    constructor (t: Topology, e: Environment, w: World)
      requires RefsRecorded(w, t.marker)
      ensures Valid() && topology == t && env == e && world == origin == w
      ensures trace == [] && readings == [] && moves == []
    {
      topology, env, origin, world, trace, readings, moves := t, e, w, w, [], [], [];
      new;
      NothingMoved(t, e, w);
    }

    /** The environment makes its next move. */
    method Interfere()
      requires Valid()
      modifies this`world, this`moves
      ensures Valid() && EnvStep(topology, old(world), world) && old(moves) <= moves
      ensures moves == old(moves) + [Interference(old(world), world)]
      ensures world == EnvMove(topology, env, |old(moves)|, old(world))
    {
      EnvReflexive(topology, world);
      EnvironmentMoves(topology, env, origin, moves, trace, world);
      var next := EnvMove(topology, env, |moves|, world);
      moves, world := moves + [Interference(world, next)], next;
    }
    method AnyCallError(b: Boundary) returns (e: Error)
      ensures IsCallError(e, b)
    {
      var status: Option<int> := *;
      var invalid: bool := *;
      var code := if invalid then ProviderResponseInvalid else ProviderRequestFailed;
      e := Error(code, Some(Diagnostic(b, code, status)));
    }

    method ListPage(page: nat) returns (r: Result<ListReply, Error>)
      requires Valid()
      modifies this`world, this`trace, this`moves
      ensures Valid() && EnvStep(topology, old(world), world) && old(moves) <= moves
      ensures moves == old(moves) + [Interference(old(world), world)]
      ensures trace == old(trace) + [Listed(page, r)]
      ensures r.Err? ==> IsCallError(r.error, QueueList)
    {
      Interfere();
      var answered: bool := *;
      if answered {
        var reply: ListReply := *;
        r := Ok(reply);
      } else {
        var e := AnyCallError(QueueList);
        r := Err(e);
      }
      QuietCall(topology, env, origin, moves, trace, world, Listed(page, r));
      trace := trace + [Listed(page, r)];
    }

    method ListConsumers(q: QueueId) returns (r: Result<seq<Consumer>, Error>)
      requires Valid()
      modifies this`world, this`trace, this`moves
      ensures Valid() && EnvStep(topology, old(world), world) && old(moves) <= moves
      ensures moves == old(moves) + [Interference(old(world), world)]
      ensures trace == old(trace) + [ListedConsumers(q, r)]
      ensures r.Err? ==> IsCallError(r.error, QueueConsumerList)
    {
      Interfere();
      var consumers: seq<Consumer> := *;
      if |consumers| <= LIST_PAGE_SIZE {
        r := Ok(consumers);
      } else {
        var e := AnyCallError(QueueConsumerList);
        r := Err(e);
      }
      QuietCall(topology, env, origin, moves, trace, world, ListedConsumers(q, r));
      trace := trace + [ListedConsumers(q, r)];
    }

    method Peek(q: QueueId, batch: nat) returns (r: Result<seq<Message>, Error>)
      requires Valid()
      modifies this`world, this`trace, this`moves
      ensures Valid() && EnvStep(topology, old(world), world) && old(moves) <= moves
      ensures moves == old(moves) + [Interference(old(world), world)]
      ensures trace == old(trace) + [Peeked(q, r, world)]
      ensures r.Ok? ==> IsPage(r.value, Queue(world, q), batch)
      ensures r.Err? ==> IsCallError(r.error, QueuePeek)
    {
      Interfere();
      var page: seq<Message> := *;
      if IsPage(page, Queue(world, q), batch) {
        r := Ok(page);
      } else {
        var e := AnyCallError(QueuePeek);
        r := Err(e);
      }
      QuietCall(topology, env, origin, moves, trace, world, Peeked(q, r, world));
      trace := trace + [Peeked(q, r, world)];
    }

    /** A call takes its effect on the state and is recorded. */
    method Apply(move: Move, ghost call: Event)
      requires Valid() && move.before == world && RefsRecorded(move.after, topology.marker)
      requires IsLegal(topology, env, |moves|, move) && Effects([call]) == [move] && !move.Interference?
      modifies this`world, this`trace, this`moves
      ensures Valid() && world == move.after && trace == old(trace) + [call] && old(moves) <= moves
    {
      EffectiveCall(topology, env, origin, moves, trace, world, call, move);
      hide Accounted;
      world, trace, moves := move.after, trace + [call], moves + [move];
    }

    /** Whatever the reply says, the purge may or may not have taken effect. */
    method Purge(q: QueueId, ref: string) returns (r: Result<PurgePayload, Error>)
      requires Valid()
      modifies this`world, this`trace, this`moves
      ensures Valid() && old(moves) <= moves
      ensures exists before ::
        && EnvStep(topology, old(world), before) && RefsRecorded(before, topology.marker)
        && (world == before || world == AfterPurge(before, q, ref))
        && trace == old(trace) + [Purged(q, ref, r, before, world)]
      ensures r.Err? ==> IsCallError(r.error, QueuePurge)
    {
      hide Accounted, AfterPurge;
      Interfere();
      var before := world;
      var effective: bool := *;
      PurgeOfMarkerRef(topology, before, q, ref);
      var after := if effective then AfterPurge(before, q, ref) else before;
      var answered: bool := *;
      if answered {
        var payload: PurgePayload := *;
        r := Ok(payload);
      } else {
        var e := AnyCallError(QueuePurge);
        r := Err(e);
      }
      ghost var call := Purged(q, ref, r, before, after);
      SoleEffect(call);
      hide Accounted, EnvStep, RefsRecorded, AfterPurge, Effects;
      Apply(Removal(q, ref, before, after), call);
    }

    /** A failed publish may still have enqueued the message; nothing arrives later. */
    method Publish(q: QueueId, body: Body) returns (r: Result<(), Error>)
      requires Valid()
      modifies this`world, this`trace, this`moves
      ensures Valid() && old(moves) <= moves
      ensures r.Err? ==> IsCallError(r.error, QueuePublish)
      ensures exists before ::
        && EnvStep(topology, old(world), before)
        && trace == old(trace) + [Published(q, body, r, before, world)]
        && ((world == before && r.Err?)
            || exists m: Message :: m.body == body && world == Enqueued(before, q, m, topology.marker))
    {
      hide Accounted, EnvStep, RefsRecorded, Enqueued, Effects;
      Interfere();
      var before := world;
      var m: Message := *;
      m := m.(body := body);
      if m.ref.Some? && (q, m.ref.value) in world.refKinds {
        m := m.(ref := None);
      }
      var enqueued: bool := *;
      var after := if enqueued then Enqueued(before, q, m, topology.marker) else before;
      var accepted: bool := *;
      if enqueued && accepted {
        r := Ok(());
      } else {
        var e := AnyCallError(QueuePublish);
        r := Err(e);
      }
      ghost var call := Published(q, body, r, before, after);
      EnqueuedIsRecorded(before, q, m, topology.marker);
      SoleEffect(call);
      Apply(Addition(q, body, before, after), call);
    }

    /** Reads the clock. */
    method Now() returns (r: Reading)
      requires Valid()
      modifies this`world, this`readings, this`moves
      ensures Valid() && EnvStep(topology, old(world), world) && old(moves) <= moves
      ensures moves == old(moves) + [Interference(old(world), world)]
      ensures readings == old(readings) + [r]
    {
      Interfere();
      r := *;
      readings := readings + [r];
    }

    /** Runs the caller's own work while the message sits in the dead-letter queue, and says what it throws. */
    method RunWhileMessagePresent() returns (thrown: Option<Thrown>)
      requires Valid()
      modifies this`world, this`trace, this`moves
      ensures Valid() && EnvStep(topology, old(world), world) && old(moves) <= moves
      ensures moves == old(moves) + [Interference(old(world), world)]
      ensures trace == old(trace) + [Worked(thrown)]
    {
      Interfere();
      thrown := *;
      QuietCall(topology, env, origin, moves, trace, world, Worked(thrown));
      trace := trace + [Worked(thrown)];
    }

    /** Sleeps, and says what that throws. */
    method Sleep(ms: nat) returns (thrown: Option<Thrown>)
      requires Valid()
      modifies this`world, this`trace, this`moves
      ensures Valid() && EnvStep(topology, old(world), world) && old(moves) <= moves
      ensures moves == old(moves) + [Interference(old(world), world)]
      ensures trace == old(trace) + [Slept(ms, thrown)]
    {
      Interfere();
      thrown := *;
      QuietCall(topology, env, origin, moves, trace, world, Slept(ms, thrown));
      trace := trace + [Slept(ms, thrown)];
    }
  }
}
