/** The staging-deployment timeline: which deployment was live, from unordered lists of status events. */
module DeploymentTimeline {
  import opened Outcomes
  import opened Sequences
  import Sorting

  type DeploymentId = nat

  datatype State = Error | Failure | Inactive | InProgress | Pending | Queued | Success | Waiting

  datatype Deployment = Deployment(id: DeploymentId, sha: string, createdAt: int)

  /** A status as the API returns it, its shape already checked. */
  datatype RawStatus = RawStatus(state: State, environmentUrl: string, createdAt: int)

  datatype Status = Status(deploymentId: DeploymentId, state: State, createdAt: int)

  datatype Window = Window(startedAt: int, completedAt: int)

  datatype Request = Request(
    deploymentId: DeploymentId,
    sourceSha: string,
    origin: string,
    run: Window,
    first: Window,
    second: Window)

  /** The collected pages: every deployment, and for each its statuses (None: collecting them failed). */
  datatype Listing = Listing(deployments: seq<Deployment>, statuses: map<DeploymentId, seq<RawStatus>>)

  predicate IsInert(s: State) {
    s.Queued? || s.Waiting?
  }

  function Max(a: int, b: int): int {
    if a < b then b else a
  }

  function Min(a: int, b: int): int {
    if a < b then a else b
  }

  function LatestCompletion(q: Request): int {
    Max(q.first.completedAt, q.second.completedAt)
  }

  function EarliestStart(q: Request): int {
    Min(q.first.startedAt, q.second.startedAt)
  }

  /** The four instants at which the selected deployment must be live. */
  function Bounds(q: Request): seq<int> {
    [q.first.startedAt, q.first.completedAt, q.second.startedAt, q.second.completedAt]
  }

  // ---------- parsing ----------

  predicate StatusParses(raw: RawStatus, deployment: Deployment, origin: string, evidenceCutoff: int) {
    && raw.createdAt >= deployment.createdAt
    && !(raw.state.Success? && raw.createdAt <= evidenceCutoff && raw.environmentUrl != origin)
  }

  function ParseStatuses(raws: seq<RawStatus>, d: Deployment, origin: string, cutoff: int): Option<seq<Status>> {
    if raws == [] then Some([])
    else if !StatusParses(raws[0], d, origin, cutoff) then None
    else
      var others := ParseStatuses(raws[1..], d, origin, cutoff);
      if others.None? then None else Some([Status(d.id, raws[0].state, raws[0].createdAt)] + others.value)
  }

  // ---------- the latest status ----------

  function Counts(cutoff: int, wanted: Option<State>): Status -> bool {
    (s: Status) => s.createdAt <= cutoff && (wanted.None? || s.state == wanted.value)
  }

  function Events(statuses: seq<Status>, cutoff: int, wanted: Option<State>): seq<Status> {
    Kept(statuses, Counts(cutoff, wanted))
  }

  function LatestTime(events: seq<Status>): int
    requires events != []
  {
    if |events| == 1 then events[0].createdAt else Max(events[0].createdAt, LatestTime(events[1..]))
  }

  function At(events: seq<Status>, time: int): seq<Status> {
    Kept(events, (e: Status) => e.createdAt == time)
  }

  /** The latest event, none yet, or a contradiction between simultaneous latest events (the code throws). */
  datatype Latest = Nothing | Event(status: Status) | Contradiction

  function LatestAt(statuses: seq<Status>, cutoff: int, wanted: Option<State>): Latest {
    var events := Events(statuses, cutoff, wanted);
    if events == [] then Nothing
    else
      LatestNonEmpty(events);
      var latest := At(events, LatestTime(events));
      if exists e | e in latest :: e.deploymentId != latest[0].deploymentId || e.state != latest[0].state
      then Contradiction
      else Event(latest[0])
  }

  lemma {:induction false} LatestNonEmpty(events: seq<Status>)
    requires events != []
    ensures At(events, LatestTime(events)) != []
  {
    LatestTimeBounds(events);
    AtSelects(events, LatestTime(events));
  }

  predicate HasNewerActivity(statuses: seq<Status>, selected: DeploymentId, cutoff: int) {
    exists s | s in statuses :: s.deploymentId != selected && s.createdAt <= cutoff && !IsInert(s.state)
  }

  // ---------- what the latest status means ----------

  /** An independent reading: no event that counts is later, and every event at that instant says the same. */
  ghost predicate IsLatest(statuses: seq<Status>, cutoff: int, wanted: Option<State>, s: Status) {
    && s in statuses && s.createdAt <= cutoff && (wanted.None? || s.state == wanted.value)
    && forall e | e in statuses && e.createdAt <= cutoff && (wanted.None? || e.state == wanted.value) ::
         e.createdAt < s.createdAt || e == s
  }

  lemma {:induction false} EventsSelect(statuses: seq<Status>, cutoff: int, wanted: Option<State>)
    ensures forall e :: e in Events(statuses, cutoff, wanted)
                        <==> e in statuses && e.createdAt <= cutoff && (wanted.None? || e.state == wanted.value)
  {
    KeptMeaning(statuses, Counts(cutoff, wanted));
  }

  lemma {:induction false} LatestTimeBounds(events: seq<Status>)
    requires events != []
    ensures exists e :: e in events && e.createdAt == LatestTime(events)
    ensures forall e :: e in events ==> e.createdAt <= LatestTime(events)
  {
    assert events[0] in events;
    if |events| > 1 {
      LatestTimeBounds(events[1..]);
      assert events == [events[0]] + events[1..];
      var e :| e in events[1..] && e.createdAt == LatestTime(events[1..]);
      assert e in events;
    }
  }

  lemma {:induction false} AtSelects(events: seq<Status>, time: int)
    ensures forall e :: e in At(events, time) <==> e in events && e.createdAt == time
  {
    KeptMeaning(events, (e: Status) => e.createdAt == time);
  }

  /** latestAt finds the unique latest event, whatever order the events come in. */
  lemma {:induction false} LatestAtMeaning(statuses: seq<Status>, cutoff: int, wanted: Option<State>, s: Status)
    ensures LatestAt(statuses, cutoff, wanted) == Event(s) <==> IsLatest(statuses, cutoff, wanted, s)
    ensures LatestAt(statuses, cutoff, wanted) == Nothing
            <==> forall e | e in statuses && e.createdAt <= cutoff :: wanted.Some? && e.state != wanted.value
  {
    var events := Events(statuses, cutoff, wanted);
    EventsSelect(statuses, cutoff, wanted);
    assert events != [] ==> events[0] in events;
    if events != [] {
      var time := LatestTime(events);
      LatestTimeBounds(events);
      AtSelects(events, time);
      var latest := At(events, time);
      var last :| last in events && last.createdAt == time;
      assert last in latest && latest[0] in latest;
      assert IsLatest(statuses, cutoff, wanted, s) ==> s in latest;
    }
  }

  // ---------- the verifier ----------

  function Find(ds: seq<Deployment>, id: DeploymentId): Option<Deployment> {
    if ds == [] then None else if ds[0].id == id then Some(ds[0]) else Find(ds[1..], id)
  }

  predicate DistinctIds(ds: seq<Deployment>) {
    forall i, j | 0 <= i < j < |ds| :: ds[i].id != ds[j].id
  }

  /** Deployments the verifier does not ask about. */
  predicate Skipped(d: Deployment, selected: Deployment, q: Request, prune: bool) {
    (prune && d.createdAt > LatestCompletion(q)) || (d.id != selected.id && d.createdAt < selected.createdAt)
  }

  /** All statuses of the deployments that are not skipped, in listing order. */
  function Timeline(l: Listing, ds: seq<Deployment>, selected: Deployment, q: Request, prune: bool)
    : Option<seq<Status>>
  {
    if ds == [] then Some([])
    else if Skipped(ds[0], selected, q, prune) then Timeline(l, ds[1..], selected, q, prune)
    else if ds[0].id !in l.statuses then None
    else
      var parsed := ParseStatuses(l.statuses[ds[0].id], ds[0], q.origin, LatestCompletion(q));
      var others := Timeline(l, ds[1..], selected, q, prune);
      if parsed.None? || others.None? then None else Some(parsed.value + others.value)
  }

  function Of(statuses: seq<Status>, id: DeploymentId): seq<Status> {
    Kept(statuses, (s: Status) => s.deploymentId == id)
  }

  predicate LiveAt(timeline: seq<Status>, selected: Deployment, cutoff: int) {
    var selectedLatest := LatestAt(Of(timeline, selected.id), cutoff, None);
    var latestSuccess := LatestAt(timeline, cutoff, Some(Success));
    && !HasNewerActivity(timeline, selected.id, cutoff)
    && selectedLatest.Event? && selectedLatest.status.state == Success
    && latestSuccess.Event? && latestSuccess.status.deploymentId == selected.id
  }

  /** The instant of the deployed status, when it is early enough. */
  function DeployedAt(timeline: seq<Status>, selected: Deployment, q: Request): Option<int> {
    var own := Of(timeline, selected.id);
    var atStart := LatestAt(own, EarliestStart(q), None);
    var deployed := LatestAt(own, EarliestStart(q), Some(Success));
    if !atStart.Event? || atStart.status.state != Success then None
    else if !deployed.Event? || deployed.status.createdAt > q.run.completedAt then None
    else Some(deployed.status.createdAt)
  }

  predicate Selectable(d: Option<Deployment>, q: Request) {
    && d.Some? && d.value.sha == q.sourceSha
    && q.run.startedAt <= d.value.createdAt <= q.run.completedAt
  }

  /** The verdict: the deployment instant, or None when the evidence is rejected. */
  function Verdict(l: Listing, q: Request, prune: bool): Option<int> {
    var selected := Find(l.deployments, q.deploymentId);
    if !DistinctIds(l.deployments) || !Selectable(selected, q) then None
    else
      var timeline := Timeline(l, l.deployments, selected.value, q, prune);
      if timeline.None? then None
      else
        var deployed := DeployedAt(timeline.value, selected.value, q);
        if deployed.None? then None
        else if forall k | 0 <= k < 4 :: LiveAt(timeline.value, selected.value, Bounds(q)[k]) then deployed
        else None
  }

  // ---------- the code ----------

  function Appended(a: seq<Status>, b: Option<seq<Status>>): Option<seq<Status>> {
    if b.None? then None else Some(a + b.value)
  }

  method CollectTimeline(l: Listing, selected: Deployment, q: Request) returns (r: Option<seq<Status>>)
    ensures r == Timeline(l, l.deployments, selected, q, true)
  {
    hide ParseStatuses, Skipped;
    var ds := l.deployments;
    var timeline: seq<Status> := [];
    var k := 0;
    assert ds[0..] == ds;
    assert forall t: seq<Status> :: [] + t == t;
    while k < |ds|
      invariant 0 <= k <= |ds|
      invariant Timeline(l, ds, selected, q, true) == Appended(timeline, Timeline(l, ds[k..], selected, q, true))
    {
      assert ds[k..][1..] == ds[k + 1..];
      if !Skipped(ds[k], selected, q, true) {
        if ds[k].id !in l.statuses {
          return None;
        }
        var statuses := ParseStatuses(l.statuses[ds[k].id], ds[k], q.origin, LatestCompletion(q));
        if statuses.None? {
          return None;
        }
        ghost var rest := Timeline(l, ds[k + 1..], selected, q, true);
        assert rest.Some? ==> timeline + (statuses.value + rest.value) == timeline + statuses.value + rest.value;
        timeline := timeline + statuses.value;
      }
      k := k + 1;
    }
    assert timeline + [] == timeline;
    return Some(timeline);
  }

  method CheckDistinctIds(ds: seq<Deployment>) returns (ok: bool)
    ensures ok == DistinctIds(ds)
  {
    var seen: set<DeploymentId> := {};
    var k := 0;
    while k < |ds|
      invariant 0 <= k <= |ds|
      invariant forall i | 0 <= i < k :: ds[i].id in seen
      invariant forall id | id in seen :: exists i | 0 <= i < k :: ds[i].id == id
      invariant forall i, j | 0 <= i < j < k :: ds[i].id != ds[j].id
    {
      if ds[k].id in seen {
        return false;
      }
      seen := seen + {ds[k].id};
      k := k + 1;
    }
    return true;
  }

  method VerifyTimeline(l: Listing, q: Request) returns (r: Option<int>)
    ensures r == Verdict(l, q, true)
    ensures forall instant :: r == Some(instant) <==> exists selected :: Established(l, q, selected, instant)
  {
    r := ComputeVerdict(l, q);
    hide Verdict, Established;
    forall instant ensures r == Some(instant) <==> exists selected :: Established(l, q, selected, instant) {
      VerdictExact(l, q, instant);
    }
  }

  method ComputeVerdict(l: Listing, q: Request) returns (r: Option<int>)
    ensures r == Verdict(l, q, true)
  {
    hide DistinctIds, LiveAt, DeployedAt, Timeline, Find;
    var distinct := CheckDistinctIds(l.deployments);
    if !distinct {
      return None;
    }
    var selected := Find(l.deployments, q.deploymentId);
    if !Selectable(selected, q) {
      return None;
    }
    var timeline := CollectTimeline(l, selected.value, q);
    if timeline.None? {
      return None;
    }
    var deployed := DeployedAt(timeline.value, selected.value, q);
    if deployed.None? {
      return None;
    }
    var k := 0;
    while k < 4
      invariant 0 <= k <= 4
      invariant forall i | 0 <= i < k :: LiveAt(timeline.value, selected.value, Bounds(q)[i])
    {
      if !LiveAt(timeline.value, selected.value, Bounds(q)[k]) {
        return None;
      }
      k := k + 1;
    }
    return deployed;
  }

  // ---------- the timeline as a set of events ----------

  lemma {:induction false} ParsedMeaning(raws: seq<RawStatus>, d: Deployment, origin: string, cutoff: int)
    ensures ParseStatuses(raws, d, origin, cutoff).Some?
       <==> forall raw | raw in raws :: StatusParses(raw, d, origin, cutoff)
    ensures ParseStatuses(raws, d, origin, cutoff).Some? ==> forall s ::
              s in ParseStatuses(raws, d, origin, cutoff).value
              <==> && s.deploymentId == d.id
                   && exists raw | raw in raws :: raw.state == s.state && raw.createdAt == s.createdAt
  {
    if raws != [] {
      ParsedMeaning(raws[1..], d, origin, cutoff);
      assert raws == [raws[0]] + raws[1..];
      if ParseStatuses(raws, d, origin, cutoff).Some? {
        var rest := ParseStatuses(raws[1..], d, origin, cutoff).value;
        forall s: Status | s.deploymentId == d.id
                           && (exists raw | raw in raws :: raw.state == s.state && raw.createdAt == s.createdAt)
          ensures s in ParseStatuses(raws, d, origin, cutoff).value
        {
          var raw :| raw in raws && raw.state == s.state && raw.createdAt == s.createdAt;
          assert raw == raws[0] || raw in raws[1..];
          assert raw in raws[1..] ==> s in rest;
        }
        forall s | s in ParseStatuses(raws, d, origin, cutoff).value
          ensures exists raw | raw in raws :: raw.state == s.state && raw.createdAt == s.createdAt
        {
          if s in rest {
            var raw :| raw in raws[1..] && raw.state == s.state && raw.createdAt == s.createdAt;
            assert raw in raws;
          } else {
            assert raws[0] in raws;
          }
        }
      }
    }
  }

  /** The statuses of d can be collected and all of them parse. */
  ghost predicate Readable(l: Listing, d: Deployment, q: Request) {
    d.id in l.statuses && forall raw | raw in l.statuses[d.id] :: StatusParses(raw, d, q.origin, LatestCompletion(q))
  }

  /** The API reported this status for one of these deployments, and the verifier asked about it. */
  ghost predicate Reported(l: Listing, ds: seq<Deployment>, selected: Deployment, q: Request, prune: bool, s: Status) {
    exists d | d in ds ::
      && !Skipped(d, selected, q, prune) && d.id == s.deploymentId && d.id in l.statuses
      && exists raw | raw in l.statuses[d.id] :: raw.state == s.state && raw.createdAt == s.createdAt
  }

  lemma {:induction false} TimelineMeaning(
    l: Listing, ds: seq<Deployment>, selected: Deployment, q: Request, prune: bool)
    ensures Timeline(l, ds, selected, q, prune).Some?
            <==> forall d | d in ds :: !Skipped(d, selected, q, prune) ==> Readable(l, d, q)
    ensures Timeline(l, ds, selected, q, prune).Some? ==> forall s ::
              s in Timeline(l, ds, selected, q, prune).value <==> Reported(l, ds, selected, q, prune, s)
  {
    hide Skipped, StatusParses, ParseStatuses;
    if ds != [] {
      var d := ds[0];
      TimelineMeaning(l, ds[1..], selected, q, prune);
      assert ds == [d] + ds[1..];
      assert forall s :: Reported(l, ds[1..], selected, q, prune, s) ==> Reported(l, ds, selected, q, prune, s);
      if !Skipped(d, selected, q, prune) && d.id in l.statuses {
        ParsedMeaning(l.statuses[d.id], d, q.origin, LatestCompletion(q));
        assert d in ds;
      }
    }
  }

  lemma {:induction false} OfSelects(statuses: seq<Status>, id: DeploymentId)
    ensures forall s :: s in Of(statuses, id) <==> s in statuses && s.deploymentId == id
  {
    KeptMeaning(statuses, (s: Status) => s.deploymentId == id);
  }

  /** latestAt looks only at which events there are up to the cutoff. */
  lemma {:induction false} LatestAtExtensional(a: seq<Status>, b: seq<Status>, cutoff: int, wanted: Option<State>)
    requires forall s: Status | s.createdAt <= cutoff :: s in a <==> s in b
    ensures LatestAt(a, cutoff, wanted) == LatestAt(b, cutoff, wanted)
  {
    var ra, rb := LatestAt(a, cutoff, wanted), LatestAt(b, cutoff, wanted);
    hide LatestAt;
    LatestAtMeaning(a, cutoff, wanted, Status(0, Success, 0));
    LatestAtMeaning(b, cutoff, wanted, Status(0, Success, 0));
    if ra.Event? {
      LatestAtMeaning(a, cutoff, wanted, ra.status);
      LatestAtMeaning(b, cutoff, wanted, ra.status);
    }
    if rb.Event? {
      LatestAtMeaning(a, cutoff, wanted, rb.status);
      LatestAtMeaning(b, cutoff, wanted, rb.status);
    }
  }

  /** So do the two questions asked of a timeline. */
  lemma {:induction false} JudgementExtensional(
    a: seq<Status>, b: seq<Status>, selected: Deployment, q: Request, horizon: int)
    requires forall s: Status | s.createdAt <= horizon :: s in a <==> s in b
    requires EarliestStart(q) <= horizon && forall k | 0 <= k < 4 :: Bounds(q)[k] <= horizon
    ensures DeployedAt(a, selected, q) == DeployedAt(b, selected, q)
    ensures forall k | 0 <= k < 4 :: LiveAt(a, selected, Bounds(q)[k]) == LiveAt(b, selected, Bounds(q)[k])
  {
    hide LatestAt;
    OfSelects(a, selected.id);
    OfSelects(b, selected.id);
    var own, other := Of(a, selected.id), Of(b, selected.id);
    LatestAtExtensional(own, other, EarliestStart(q), None);
    LatestAtExtensional(own, other, EarliestStart(q), Some(Success));
    forall k | 0 <= k < 4 ensures LiveAt(a, selected, Bounds(q)[k]) == LiveAt(b, selected, Bounds(q)[k]) {
      var cutoff := Bounds(q)[k];
      LatestAtExtensional(own, other, cutoff, None);
      LatestAtExtensional(a, b, cutoff, Some(Success));
      assert HasNewerActivity(a, selected.id, cutoff) == HasNewerActivity(b, selected.id, cutoff);
    }
  }

  function Horizon(q: Request): int {
    Max(Max(q.first.startedAt, q.first.completedAt), Max(q.second.startedAt, q.second.completedAt))
  }

  lemma HorizonIsBound(q: Request) returns (k: nat)
    ensures k < 4 && Bounds(q)[k] == Horizon(q)
  {
    k := if Horizon(q) == q.first.startedAt then 0
         else if Horizon(q) == q.first.completedAt then 1
         else if Horizon(q) == q.second.startedAt then 2 else 3;
  }

  // ---------- soundness ----------

  /** Among these statuses one success is the latest up to the cutoff; simultaneous ones are successes too. */
  ghost predicate SuccessIsLatest(raws: seq<RawStatus>, cutoff: int) {
    exists r | r in raws ::
      && r.state.Success? && r.createdAt <= cutoff
      && forall o | o in raws && o.createdAt <= cutoff ::
           o.createdAt < r.createdAt || (o.createdAt == r.createdAt && o.state.Success?)
  }

  /** No later than the later of the two completions. */
  ghost predicate ByLastCompletion(q: Request, time: int) {
    time <= q.first.completedAt || time <= q.second.completedAt
  }

  /** No later than the last of the four instants. */
  ghost predicate ByLastInstant(q: Request, time: int) {
    ByLastCompletion(q, time) || time <= q.first.startedAt || time <= q.second.startedAt
  }

  /** Every status of this deployment is plausible, and a success that counts names the origin. */
  ghost predicate Plausible(raws: seq<RawStatus>, d: Deployment, q: Request) {
    forall r | r in raws ::
      && d.createdAt <= r.createdAt
      && (r.state == Success && ByLastCompletion(q, r.createdAt) ==> r.environmentUrl == q.origin)
  }

  /**
    The whole content of an accepted verdict, in terms of what the API reported and
    of the fields of the request: the selected deployment is the only one of its id
    and a success is its latest status at all four instants; the instant is that of
    its latest status before both reports start, which is a success; and no other
    deployment created since then shows more than a queued or waiting status.
   */
  ghost predicate Established(l: Listing, q: Request, selected: Deployment, instant: int) {
    && (forall i, j | 0 <= i < j < |l.deployments| :: l.deployments[i].id != l.deployments[j].id)
    && selected in l.deployments && selected.id == q.deploymentId && selected.sha == q.sourceSha
    && q.run.startedAt <= selected.createdAt <= instant <= q.run.completedAt
    && selected.id in l.statuses
    && var own := l.statuses[selected.id];
      && Plausible(own, selected, q)
      && SuccessIsLatest(own, q.first.startedAt) && SuccessIsLatest(own, q.first.completedAt)
      && SuccessIsLatest(own, q.second.startedAt) && SuccessIsLatest(own, q.second.completedAt)
      && instant <= q.first.startedAt && instant <= q.second.startedAt
      && (exists r | r in own :: r.state == Success && r.createdAt == instant)
      && (forall r | r in own && r.createdAt <= q.first.startedAt && r.createdAt <= q.second.startedAt ::
            r.createdAt <= instant)
      && forall d | d in l.deployments && d != selected && selected.createdAt <= d.createdAt
                    && ByLastCompletion(q, d.createdAt) ::
        && d.id in l.statuses && Plausible(l.statuses[d.id], d, q)
        && forall r | r in l.statuses[d.id] && ByLastInstant(q, r.createdAt) :: r.state == Queued || r.state == Waiting
  }

  /** The same in the verifier's own terms. */
  ghost predicate Shows(l: Listing, q: Request, selected: Deployment, instant: int) {
    && selected in l.deployments && selected.id == q.deploymentId && selected.sha == q.sourceSha
    && (forall d | d in l.deployments && d.id == selected.id :: d == selected)
    && q.run.startedAt <= selected.createdAt <= instant
    && instant <= Min(q.run.completedAt, EarliestStart(q)) && selected.createdAt <= LatestCompletion(q)
    && selected.id in l.statuses
    && (forall r | r in l.statuses[selected.id] && r.createdAt <= EarliestStart(q) :: r.createdAt <= instant)
    && (exists r | r in l.statuses[selected.id] :: r.state.Success? && r.createdAt == instant)
    && (forall k | 0 <= k < 4 :: SuccessIsLatest(l.statuses[selected.id], Bounds(q)[k]))
    && (forall d | d in l.deployments && d != selected && selected.createdAt <= d.createdAt <= LatestCompletion(q) ::
          && d.id in l.statuses
          && forall r | r in l.statuses[d.id] && r.createdAt <= Horizon(q) :: IsInert(r.state))
  }

  lemma {:induction false} FindMeaning(ds: seq<Deployment>, id: DeploymentId)
    ensures Find(ds, id).Some? ==> Find(ds, id).value in ds && Find(ds, id).value.id == id
    ensures Find(ds, id).None? ==> forall d :: d in ds ==> d.id != id
  {
    if ds != [] {
      FindMeaning(ds[1..], id);
      assert ds == [ds[0]] + ds[1..];
    }
  }

  lemma {:induction false} IdDecides(ds: seq<Deployment>, d: Deployment, e: Deployment)
    requires DistinctIds(ds) && d in ds && e in ds && d.id == e.id
    ensures d == e
  {
  }

  lemma {:induction false} LiveMeansSuccessIsLatest(
      l: Listing, q: Request, selected: Deployment, timeline: seq<Status>, cutoff: int)
    requires Timeline(l, l.deployments, selected, q, true) == Some(timeline) && DistinctIds(l.deployments)
    requires selected in l.deployments && LiveAt(timeline, selected, cutoff)
    ensures selected.id in l.statuses && SuccessIsLatest(l.statuses[selected.id], cutoff)
    ensures !Skipped(selected, selected, q, true)
  {
    hide LatestAt, Timeline, Skipped, HasNewerActivity;
    TimelineMeaning(l, l.deployments, selected, q, true);
    OfSelects(timeline, selected.id);
    var own := Of(timeline, selected.id);
    var s := LatestAt(own, cutoff, None).status;
    LatestAtMeaning(own, cutoff, None, s);
    assert Reported(l, l.deployments, selected, q, true, s);
    var d :| d in l.deployments && !Skipped(d, selected, q, true) && d.id == s.deploymentId && d.id in l.statuses
             && exists raw | raw in l.statuses[d.id] :: raw.state == s.state && raw.createdAt == s.createdAt;
    IdDecides(l.deployments, d, selected);
    var r :| r in l.statuses[d.id] && r.state == s.state && r.createdAt == s.createdAt;
    forall o | o in l.statuses[d.id] && o.createdAt <= cutoff
      ensures o.createdAt < r.createdAt || (o.createdAt == r.createdAt && o.state.Success?)
    {
      assert Reported(l, l.deployments, selected, q, true, Status(d.id, o.state, o.createdAt));
      assert Status(d.id, o.state, o.createdAt) in own;
    }
  }

  lemma {:induction false} DeployedMeaning(
    l: Listing, q: Request, selected: Deployment, timeline: seq<Status>, instant: int)
    requires Timeline(l, l.deployments, selected, q, true) == Some(timeline) && DistinctIds(l.deployments)
    requires selected in l.deployments && DeployedAt(timeline, selected, q) == Some(instant)
    ensures selected.id in l.statuses
    ensures exists r | r in l.statuses[selected.id] :: r.state.Success? && r.createdAt == instant
    ensures forall r | r in l.statuses[selected.id] && r.createdAt <= EarliestStart(q) :: r.createdAt <= instant
    ensures selected.createdAt <= instant <= Min(q.run.completedAt, EarliestStart(q))
  {
    hide LatestAt, Timeline, Skipped;
    TimelineMeaning(l, l.deployments, selected, q, true);
    OfSelects(timeline, selected.id);
    var own := Of(timeline, selected.id);
    var s := LatestAt(own, EarliestStart(q), Some(Success)).status;
    LatestAtMeaning(own, EarliestStart(q), Some(Success), s);
    assert Reported(l, l.deployments, selected, q, true, s);
    var d :| d in l.deployments && !Skipped(d, selected, q, true) && d.id == s.deploymentId && d.id in l.statuses
             && exists raw | raw in l.statuses[d.id] :: raw.state == s.state && raw.createdAt == s.createdAt;
    IdDecides(l.deployments, d, selected);
    assert Readable(l, d, q);
    var top := LatestAt(own, EarliestStart(q), None).status;
    LatestAtMeaning(own, EarliestStart(q), None, top);
    forall r | r in l.statuses[selected.id] && r.createdAt <= EarliestStart(q) ensures r.createdAt <= instant {
      assert Reported(l, l.deployments, selected, q, true, Status(selected.id, r.state, r.createdAt));
      assert Status(selected.id, r.state, r.createdAt) in own;
    }
  }

  lemma {:induction false} NoActivityMeaning(
      l: Listing, q: Request, selected: Deployment, timeline: seq<Status>, d: Deployment, r: RawStatus)
    requires Timeline(l, l.deployments, selected, q, true) == Some(timeline)
    requires forall k | 0 <= k < 4 :: !HasNewerActivity(timeline, selected.id, Bounds(q)[k])
    requires d in l.deployments && d.id != selected.id && selected.createdAt <= d.createdAt <= LatestCompletion(q)
    ensures d.id in l.statuses
    ensures r in l.statuses[d.id] && r.createdAt <= Horizon(q) ==> IsInert(r.state)
  {
    hide Timeline;
    TimelineMeaning(l, l.deployments, selected, q, true);
    assert Readable(l, d, q);
    if r in l.statuses[d.id] && r.createdAt <= Horizon(q) {
      var s := Status(d.id, r.state, r.createdAt);
      assert Reported(l, l.deployments, selected, q, true, s);
      var k := HorizonIsBound(q);
      assert !HasNewerActivity(timeline, selected.id, Bounds(q)[k]);
    }
  }

  /** Every deployment the verifier asks about has statuses, and all of them parse. */
  ghost predicate AllReadable(l: Listing, selected: Deployment, q: Request) {
    forall d | d in l.deployments :: !Skipped(d, selected, q, true) ==> Readable(l, d, q)
  }

  /** An accepted timeline shows everything it is accepted for. */
  lemma {:induction false} VerdictShows(l: Listing, q: Request, instant: int) returns (selected: Deployment)
    requires Verdict(l, q, true) == Some(instant)
    ensures Shows(l, q, selected, instant) && AllReadable(l, selected, q) && DistinctIds(l.deployments)
  {
    hide LatestAt, Timeline, HasNewerActivity, DeployedAt, Find, DistinctIds, Readable;
    FindMeaning(l.deployments, q.deploymentId);
    selected := Find(l.deployments, q.deploymentId).value;
    var timeline := Timeline(l, l.deployments, selected, q, true).value;
    TimelineMeaning(l, l.deployments, selected, q, true);
    DeployedMeaning(l, q, selected, timeline, instant);
    forall d | d in l.deployments && d.id == selected.id ensures d == selected {
      IdDecides(l.deployments, d, selected);
    }
    forall k | 0 <= k < 4
      ensures SuccessIsLatest(l.statuses[selected.id], Bounds(q)[k]) && !Skipped(selected, selected, q, true)
      ensures !HasNewerActivity(timeline, selected.id, Bounds(q)[k])
    {
      assert LiveAt(timeline, selected, Bounds(q)[k]);
      LiveMeansSuccessIsLatest(l, q, selected, timeline, Bounds(q)[k]);
    }
    assert Bounds(q)[0] == q.first.startedAt;
    forall d | d in l.deployments && d != selected && selected.createdAt <= d.createdAt <= LatestCompletion(q)
      ensures d.id in l.statuses
      ensures forall r | r in l.statuses[d.id] && r.createdAt <= Horizon(q) :: IsInert(r.state)
    {
      NoActivityMeaning(l, q, selected, timeline, d, RawStatus(Success, "", 0));
      forall r | r in l.statuses[d.id] && r.createdAt <= Horizon(q) ensures IsInert(r.state) {
        NoActivityMeaning(l, q, selected, timeline, d, r);
      }
    }
  }

  /** The latest success of the selected deployment, as the verifier finds it. */
  lemma {:induction false} SuccessIsFound(
      l: Listing, q: Request, selected: Deployment, timeline: seq<Status>, cutoff: int) returns (s: Status)
    requires Timeline(l, l.deployments, selected, q, true) == Some(timeline) && DistinctIds(l.deployments)
    requires selected in l.deployments && !Skipped(selected, selected, q, true) && selected.id in l.statuses
    requires SuccessIsLatest(l.statuses[selected.id], cutoff)
    ensures LatestAt(Of(timeline, selected.id), cutoff, None) == Event(s)
    ensures s.deploymentId == selected.id && s.state == Success && s.createdAt <= cutoff
    ensures exists r | r in l.statuses[selected.id] :: r.state.Success? && r.createdAt == s.createdAt
    ensures forall r | r in l.statuses[selected.id] && r.createdAt <= cutoff :: r.createdAt <= s.createdAt
  {
    hide LatestAt, Timeline;
    var raws := l.statuses[selected.id];
    var r :| r in raws && r.state.Success? && r.createdAt <= cutoff
             && forall o | o in raws && o.createdAt <= cutoff ::
                  o.createdAt < r.createdAt || (o.createdAt == r.createdAt && o.state.Success?);
    s := Status(selected.id, Success, r.createdAt);
    TimelineMeaning(l, l.deployments, selected, q, true);
    OfSelects(timeline, selected.id);
    assert Reported(l, l.deployments, selected, q, true, s);
    var own := Of(timeline, selected.id);
    forall e | e in own && e.createdAt <= cutoff ensures e.createdAt < s.createdAt || e == s {
      assert Reported(l, l.deployments, selected, q, true, e);
      var d :| d in l.deployments && !Skipped(d, selected, q, true) && d.id == e.deploymentId && d.id in l.statuses
               && exists raw | raw in l.statuses[d.id] :: raw.state == e.state && raw.createdAt == e.createdAt;
      IdDecides(l.deployments, d, selected);
      var raw :| raw in l.statuses[d.id] && raw.state == e.state && raw.createdAt == e.createdAt;
    }
    LatestAtMeaning(own, cutoff, None, s);
  }

  lemma {:induction false} ShownIsQuiet(
      l: Listing, q: Request, selected: Deployment, timeline: seq<Status>, instant: int, cutoff: int)
    requires Timeline(l, l.deployments, selected, q, true) == Some(timeline)
    requires Shows(l, q, selected, instant) && cutoff <= Horizon(q)
    ensures !HasNewerActivity(timeline, selected.id, cutoff)
  {
    hide Timeline, SuccessIsLatest;
    TimelineMeaning(l, l.deployments, selected, q, true);
    forall s | s in timeline && s.deploymentId != selected.id && s.createdAt <= cutoff ensures IsInert(s.state) {
      assert Reported(l, l.deployments, selected, q, true, s);
    }
  }

  lemma {:induction false} ShownIsLive(
      l: Listing, q: Request, selected: Deployment, timeline: seq<Status>, instant: int, cutoff: int)
    requires Timeline(l, l.deployments, selected, q, true) == Some(timeline) && DistinctIds(l.deployments)
    requires Shows(l, q, selected, instant) && cutoff in Bounds(q)
    ensures LiveAt(timeline, selected, cutoff)
  {
    hide LatestAt, Timeline, HasNewerActivity, DistinctIds, SuccessIsLatest;
    var k :| 0 <= k < 4 && Bounds(q)[k] == cutoff;
    assert SuccessIsLatest(l.statuses[selected.id], Bounds(q)[k]);
    var s := SuccessIsFound(l, q, selected, timeline, cutoff);
    ShownIsQuiet(l, q, selected, timeline, instant, cutoff);
    LatestSuccessImplied(timeline, selected.id, cutoff, s);
  }

  lemma {:induction false} ShownIsDeployed(
      l: Listing, q: Request, selected: Deployment, timeline: seq<Status>, instant: int)
    requires Timeline(l, l.deployments, selected, q, true) == Some(timeline) && DistinctIds(l.deployments)
    requires Shows(l, q, selected, instant)
    ensures DeployedAt(timeline, selected, q) == Some(instant)
  {
    hide LatestAt, Timeline, HasNewerActivity, DistinctIds, SuccessIsLatest;
    assert EarliestStart(q) == Bounds(q)[0] || EarliestStart(q) == Bounds(q)[2];
    var s := SuccessIsFound(l, q, selected, timeline, EarliestStart(q));
    LatestAtMeaning(Of(timeline, selected.id), EarliestStart(q), None, s);
    LatestAtMeaning(Of(timeline, selected.id), EarliestStart(q), Some(Success), s);
  }

  lemma {:induction false} VerdictComplete(l: Listing, q: Request, selected: Deployment, instant: int)
    requires DistinctIds(l.deployments) && Shows(l, q, selected, instant) && AllReadable(l, selected, q)
    ensures Verdict(l, q, true) == Some(instant)
  {
    hide LatestAt, Timeline, LiveAt, DeployedAt, DistinctIds, Find, SuccessIsLatest;
    FindMeaning(l.deployments, q.deploymentId);
    TimelineMeaning(l, l.deployments, selected, q, true);
    var timeline := Timeline(l, l.deployments, selected, q, true).value;
    ShownIsDeployed(l, q, selected, timeline, instant);
    forall k | 0 <= k < 4 ensures LiveAt(timeline, selected, Bounds(q)[k]) {
      ShownIsLive(l, q, selected, timeline, instant, Bounds(q)[k]);
    }
  }

  lemma ShownPlausible(l: Listing, q: Request, d: Deployment)
    requires d.id in l.statuses
    ensures Readable(l, d, q) <==> Plausible(l.statuses[d.id], d, q)
  {
  }

  lemma {:induction false} EstablishedIsShown(l: Listing, q: Request, selected: Deployment, instant: int)
    requires Established(l, q, selected, instant)
    ensures DistinctIds(l.deployments) && Shows(l, q, selected, instant) && AllReadable(l, selected, q)
  {
    hide Plausible, Readable;
    forall d | d in l.deployments && d.id in l.statuses
      ensures Readable(l, d, q) <==> Plausible(l.statuses[d.id], d, q)
    {
      ShownPlausible(l, q, d);
    }
    forall d | d in l.deployments && d.id == selected.id ensures d == selected {
      IdDecides(l.deployments, d, selected);
    }
    SelectedIsOld(l, q, selected);
    hide SuccessIsLatest;
    forall k | 0 <= k < 4 ensures SuccessIsLatest(l.statuses[selected.id], Bounds(q)[k]) {
      assert k == 0 || k == 1 || k == 2 || k == 3;
    }
  }

  /** A deployment with a success by the last completion was created by then. */
  lemma SelectedIsOld(l: Listing, q: Request, selected: Deployment)
    requires selected.id in l.statuses && Plausible(l.statuses[selected.id], selected, q)
    requires SuccessIsLatest(l.statuses[selected.id], q.first.completedAt)
    ensures selected.createdAt <= LatestCompletion(q)
  {
  }

  lemma {:induction false} ShownIsEstablished(l: Listing, q: Request, selected: Deployment, instant: int)
    requires DistinctIds(l.deployments) && Shows(l, q, selected, instant) && AllReadable(l, selected, q)
    ensures Established(l, q, selected, instant)
  {
    hide SuccessIsLatest, Plausible, Readable;
    forall d | d in l.deployments && d.id in l.statuses
      ensures Readable(l, d, q) <==> Plausible(l.statuses[d.id], d, q)
    {
      ShownPlausible(l, q, d);
    }
    var raws := l.statuses[selected.id];
    assert SuccessIsLatest(raws, Bounds(q)[0]) && SuccessIsLatest(raws, Bounds(q)[1]);
    assert SuccessIsLatest(raws, Bounds(q)[2]) && SuccessIsLatest(raws, Bounds(q)[3]);
    assert !Skipped(selected, selected, q, true);
    forall d | d in l.deployments && d != selected && selected.createdAt <= d.createdAt
               && ByLastCompletion(q, d.createdAt)
      ensures d.id in l.statuses && Plausible(l.statuses[d.id], d, q)
    {
      assert !Skipped(d, selected, q, true);
    }
  }

  /** An accepted timeline establishes everything it is accepted for. */
  lemma {:induction false} VerdictSound(l: Listing, q: Request, instant: int) returns (selected: Deployment)
    requires Verdict(l, q, true) == Some(instant)
    ensures Established(l, q, selected, instant)
  {
    selected := VerdictShows(l, q, instant);
    ShownIsEstablished(l, q, selected, instant);
  }

  /** The verdict, exactly: accepted with an instant if and only if that instant is established. */
  lemma {:induction false} VerdictExact(l: Listing, q: Request, instant: int)
    ensures Verdict(l, q, true) == Some(instant) <==> exists selected :: Established(l, q, selected, instant)
  {
    hide Verdict, Established, Shows, AllReadable, DistinctIds;
    if Verdict(l, q, true) == Some(instant) {
      var selected := VerdictSound(l, q, instant);
    }
    if selected :| Established(l, q, selected, instant) {
      EstablishedIsShown(l, q, selected, instant);
      VerdictComplete(l, q, selected, instant);
    }
  }

  /** The third test of each bound follows from the other two. */
  lemma {:induction false} LatestSuccessImplied(timeline: seq<Status>, selected: DeploymentId, cutoff: int, s: Status)
    requires !HasNewerActivity(timeline, selected, cutoff)
    requires LatestAt(Of(timeline, selected), cutoff, None) == Event(s) && s.state == Success
    ensures LatestAt(timeline, cutoff, Some(Success)) == Event(s) && s.deploymentId == selected
  {
    hide LatestAt;
    OfSelects(timeline, selected);
    LatestAtMeaning(Of(timeline, selected), cutoff, None, s);
    LatestAtMeaning(timeline, cutoff, Some(Success), s);
  }

  // ---------- order does not matter ----------

  /** The same deployments and, for each, the same statuses, listed in any order. */
  ghost predicate SameReports(l: Listing, m: Listing) {
    && multiset(l.deployments) == multiset(m.deployments)
    && l.statuses.Keys == m.statuses.Keys
    && forall id | id in l.statuses :: multiset(l.statuses[id]) == multiset(m.statuses[id])
  }

  lemma {:induction false} DistinctIdsPermute(a: seq<Deployment>, b: seq<Deployment>)
    requires multiset(a) == multiset(b) && DistinctIds(a)
    ensures DistinctIds(b)
  {
    PermutationKeeps(a, b);
    assert NoRepeats(a);
    forall i, j | 0 <= i < j < |b| ensures b[i].id != b[j].id {
      assert b[i] in b && b[j] in b;
      if b[i].id == b[j].id {
        IdDecides(a, b[i], b[j]);
      }
    }
  }

  /** The verdict is the same for every order in which the API may list deployments and statuses. */
  lemma {:induction false} VerdictOrderInsensitive(l: Listing, m: Listing, q: Request, prune: bool)
    requires SameReports(l, m)
    ensures Verdict(l, q, prune) == Verdict(m, q, prune)
  {
    hide DistinctIds, Timeline, LiveAt, DeployedAt, Find, Skipped, StatusParses;
    if DistinctIds(l.deployments) { DistinctIdsPermute(l.deployments, m.deployments); }
    if DistinctIds(m.deployments) { DistinctIdsPermute(m.deployments, l.deployments); }
    if DistinctIds(l.deployments) {
      PermutationKeeps(l.deployments, m.deployments);
      FindMeaning(l.deployments, q.deploymentId);
      FindMeaning(m.deployments, q.deploymentId);
      var found := Find(l.deployments, q.deploymentId);
      if found.Some? {
        var twin := Find(m.deployments, q.deploymentId);
        assert found.value in m.deployments;
        IdDecides(m.deployments, found.value, twin.value);
        SameTimeline(l, m, found.value, q, prune);
      }
    }
  }

  lemma {:induction false} SameTimeline(l: Listing, m: Listing, selected: Deployment, q: Request, prune: bool)
    requires SameReports(l, m)
    ensures var a, b := Timeline(l, l.deployments, selected, q, prune), Timeline(m, m.deployments, selected, q, prune);
            && (a.Some? <==> b.Some?)
            && (a.Some? ==>
                  && DeployedAt(a.value, selected, q) == DeployedAt(b.value, selected, q)
                  && forall k | 0 <= k < 4 ::
                       LiveAt(a.value, selected, Bounds(q)[k]) == LiveAt(b.value, selected, Bounds(q)[k]))
  {
    hide Timeline, LiveAt, DeployedAt, Skipped, StatusParses;
    PermutationKeeps(l.deployments, m.deployments);
    forall id | id in l.statuses ensures SameElements(l.statuses[id], m.statuses[id]) {
      PermutationKeeps(l.statuses[id], m.statuses[id]);
    }
    TimelineMeaning(l, l.deployments, selected, q, prune);
    TimelineMeaning(m, m.deployments, selected, q, prune);
    forall d ensures Readable(l, d, q) <==> Readable(m, d, q) {
      assert d.id in l.statuses ==> SameElements(l.statuses[d.id], m.statuses[d.id]);
    }
    forall s
      ensures Reported(l, l.deployments, selected, q, prune, s) <==> Reported(m, m.deployments, selected, q, prune, s)
    {
      assert s.deploymentId in l.statuses ==> SameElements(l.statuses[s.deploymentId], m.statuses[s.deploymentId]);
    }
    if Timeline(l, l.deployments, selected, q, prune).Some? {
      JudgementExtensional(
        Timeline(l, l.deployments, selected, q, prune).value,
        Timeline(m, m.deployments, selected, q, prune).value, selected, q, Horizon(q));
    }
  }

  // ---------- pruning ----------

  /** A deployment that only pruning keeps from being asked about. */
  predicate Pruned(d: Deployment, selected: Deployment, q: Request) {
    Skipped(d, selected, q, true) && !Skipped(d, selected, q, false)
  }

  /** The statuses of every pruned deployment can be collected and parse. */
  ghost predicate PrunedAreReadable(l: Listing, q: Request) {
    var selected := Find(l.deployments, q.deploymentId);
    selected.Some? ==> forall d | d in l.deployments && Pruned(d, selected.value, q) :: Readable(l, d, q)
  }

  /** No pruned deployment shows activity up to the last bound. */
  ghost predicate PrunedAreQuiet(l: Listing, q: Request) {
    var selected := Find(l.deployments, q.deploymentId);
    selected.Some? ==> forall d | d in l.deployments && Pruned(d, selected.value, q) && d.id in l.statuses ::
      forall r | r in l.statuses[d.id] && r.createdAt <= Horizon(q) :: IsInert(r.state)
  }

  /**
    What pruning decides, exactly: without it the verdict is the same instant when
    the pruned deployments are readable and quiet, and a rejection otherwise.
   */
  lemma {:induction false} PruningExact(l: Listing, q: Request)
    ensures Verdict(l, q, false)
         == if PrunedAreReadable(l, q) && PrunedAreQuiet(l, q) then Verdict(l, q, true) else None
  {
    hide PrunedAreReadable, PrunedAreQuiet, Verdict;
    if Verdict(l, q, true).Some? && PrunedAreReadable(l, q) && PrunedAreQuiet(l, q) {
      PrunedAccepts(l, q);
    }
    if Verdict(l, q, false).Some? {
      FullAccepts(l, q);
    }
  }

  /** When no report starts after the last completion, unreadable statuses are all that pruning can hide. */
  lemma {:induction false} PruningSound(l: Listing, q: Request)
    requires Horizon(q) <= LatestCompletion(q)
    ensures Verdict(l, q, false) == if PrunedAreReadable(l, q) then Verdict(l, q, true) else None
  {
    hide Verdict;
    PruningExact(l, q);
    var selected := Find(l.deployments, q.deploymentId);
    if selected.Some? && PrunedAreReadable(l, q) {
      forall d, r | d in l.deployments && Pruned(d, selected.value, q) && d.id in l.statuses
                    && r in l.statuses[d.id] && r.createdAt <= Horizon(q)
        ensures IsInert(r.state)
      {
        assert Readable(l, d, q) && StatusParses(r, d, q.origin, LatestCompletion(q));
      }
    }
  }

  /**
    The verifier's caller passes parsed reports only, and their schema refuses one that
    does not complete after it started. Then no instant is after the last completion.
   */
  lemma {:induction false} PruningSoundOnReports(l: Listing, q: Request)
    requires q.first.startedAt < q.first.completedAt && q.second.startedAt < q.second.completedAt
    ensures Horizon(q) == LatestCompletion(q)
    ensures Verdict(l, q, false) == if PrunedAreReadable(l, q) then Verdict(l, q, true) else None
  {
    hide Verdict, PrunedAreReadable;
    PruningSound(l, q);
  }

  /** Being live at a bound needs only two of its three tests. */
  lemma {:induction false} LiveAtMeaning(timeline: seq<Status>, selected: Deployment, cutoff: int)
    ensures LiveAt(timeline, selected, cutoff)
       <==> && !HasNewerActivity(timeline, selected.id, cutoff)
            && LatestAt(Of(timeline, selected.id), cutoff, None).Event?
            && LatestAt(Of(timeline, selected.id), cutoff, None).status.state == Success
  {
    hide LatestAt;
    var latest := LatestAt(Of(timeline, selected.id), cutoff, None);
    if !HasNewerActivity(timeline, selected.id, cutoff) && latest.Event? && latest.status.state == Success {
      LatestSuccessImplied(timeline, selected.id, cutoff, latest.status);
    }
  }

  /** What the two timelines have in common: the selected deployment's own statuses, unless it is pruned itself. */
  lemma {:induction false} OwnStatusesShared(
    l: Listing, q: Request, selected: Deployment, a: seq<Status>, b: seq<Status>)
    requires Timeline(l, l.deployments, selected, q, true) == Some(a)
    requires Timeline(l, l.deployments, selected, q, false) == Some(b)
    requires DistinctIds(l.deployments) && Find(l.deployments, q.deploymentId) == Some(selected)
    requires selected.createdAt <= LatestCompletion(q)
    ensures forall s :: s in a ==> s in b
    ensures forall s :: s in Of(a, selected.id) <==> s in Of(b, selected.id)
    ensures DeployedAt(a, selected, q) == DeployedAt(b, selected, q)
    ensures forall cutoff :: LatestAt(Of(a, selected.id), cutoff, None) == LatestAt(Of(b, selected.id), cutoff, None)
  {
    hide LatestAt, Timeline, StatusParses, DistinctIds;
    FindMeaning(l.deployments, q.deploymentId);
    TimelineMeaning(l, l.deployments, selected, q, true);
    TimelineMeaning(l, l.deployments, selected, q, false);
    OfSelects(a, selected.id);
    OfSelects(b, selected.id);
    forall s | s in a ensures s in b {
      assert Reported(l, l.deployments, selected, q, true, s);
      assert Reported(l, l.deployments, selected, q, false, s);
    }
    forall s | s in b && s.deploymentId == selected.id ensures s in a {
      assert Reported(l, l.deployments, selected, q, false, s);
      var d :| d in l.deployments && !Skipped(d, selected, q, false) && d.id == s.deploymentId && d.id in l.statuses
               && exists raw | raw in l.statuses[d.id] :: raw.state == s.state && raw.createdAt == s.createdAt;
      IdDecides(l.deployments, d, selected);
      assert Reported(l, l.deployments, selected, q, true, s);
    }
    var own, other := Of(a, selected.id), Of(b, selected.id);
    LatestAtExtensional(own, other, EarliestStart(q), Some(Success));
    forall cutoff ensures LatestAt(own, cutoff, None) == LatestAt(other, cutoff, None) {
      LatestAtExtensional(own, other, cutoff, None);
    }
  }

  /** Acceptance with pruning survives without it when the pruned deployments are readable and quiet. */
  lemma {:induction false} PrunedAccepts(l: Listing, q: Request)
    requires Verdict(l, q, true).Some? && PrunedAreReadable(l, q) && PrunedAreQuiet(l, q)
    ensures Verdict(l, q, false) == Verdict(l, q, true)
  {
    hide LatestAt, Timeline, DeployedAt, LiveAt, DistinctIds;
    var selected := VerdictShows(l, q, Verdict(l, q, true).value);
    FindMeaning(l.deployments, q.deploymentId);
    var found := Find(l.deployments, q.deploymentId).value;
    IdDecides(l.deployments, found, selected);
    TimelineMeaning(l, l.deployments, selected, q, true);
    TimelineMeaning(l, l.deployments, selected, q, false);
    assert forall d | d in l.deployments && !Skipped(d, selected, q, false) :: Readable(l, d, q) by {
      hide Readable;
      assert forall d | d in l.deployments && !Skipped(d, selected, q, false) ::
          !Skipped(d, selected, q, true) || Pruned(d, selected, q);
    }
    var a := Timeline(l, l.deployments, selected, q, true).value;
    var b := Timeline(l, l.deployments, selected, q, false).value;
    OwnStatusesShared(l, q, selected, a, b);
    forall k | 0 <= k < 4 ensures LiveAt(b, selected, Bounds(q)[k]) {
      assert LiveAt(a, selected, Bounds(q)[k]);
      LiveAtMeaning(a, selected, Bounds(q)[k]);
      LiveAtMeaning(b, selected, Bounds(q)[k]);
      PrunedAddNoActivity(l, q, selected, a, b, Bounds(q)[k]);
    }
  }

  lemma {:induction false} PrunedAddNoActivity(
    l: Listing, q: Request, selected: Deployment, a: seq<Status>, b: seq<Status>, cutoff: int)
    requires Timeline(l, l.deployments, selected, q, true) == Some(a)
    requires Timeline(l, l.deployments, selected, q, false) == Some(b)
    requires Find(l.deployments, q.deploymentId) == Some(selected) && PrunedAreQuiet(l, q) && cutoff <= Horizon(q)
    ensures HasNewerActivity(b, selected.id, cutoff) ==> HasNewerActivity(a, selected.id, cutoff)
  {
    hide Timeline, StatusParses;
    TimelineMeaning(l, l.deployments, selected, q, true);
    TimelineMeaning(l, l.deployments, selected, q, false);
    if HasNewerActivity(b, selected.id, cutoff) {
      var s :| s in b && s.deploymentId != selected.id && s.createdAt <= cutoff && !IsInert(s.state);
      assert Reported(l, l.deployments, selected, q, false, s);
      var d :| d in l.deployments && !Skipped(d, selected, q, false) && d.id == s.deploymentId && d.id in l.statuses
               && exists raw | raw in l.statuses[d.id] :: raw.state == s.state && raw.createdAt == s.createdAt;
      assert !Pruned(d, selected, q);
      assert Reported(l, l.deployments, selected, q, true, s);
    }
  }

  /** Acceptance without pruning shows the pruned deployments readable and quiet, and holds with pruning too. */
  lemma {:induction false} FullAccepts(l: Listing, q: Request)
    requires Verdict(l, q, false).Some?
    ensures PrunedAreReadable(l, q) && PrunedAreQuiet(l, q) && Verdict(l, q, true) == Verdict(l, q, false)
  {
    hide LatestAt, Timeline, DeployedAt, LiveAt, DistinctIds, StatusParses;
    var selected := Find(l.deployments, q.deploymentId).value;
    FindMeaning(l.deployments, q.deploymentId);
    TimelineMeaning(l, l.deployments, selected, q, true);
    TimelineMeaning(l, l.deployments, selected, q, false);
    assert forall d | d in l.deployments && !Skipped(d, selected, q, true) :: Readable(l, d, q);
    var a := Timeline(l, l.deployments, selected, q, true).value;
    var b := Timeline(l, l.deployments, selected, q, false).value;
    SelectedIsNotLate(l, q, selected, b);
    OwnStatusesShared(l, q, selected, a, b);
    forall k | 0 <= k < 4 ensures LiveAt(a, selected, Bounds(q)[k]) {
      var cutoff := Bounds(q)[k];
      assert LiveAt(b, selected, cutoff);
      LiveAtMeaning(a, selected, cutoff);
      LiveAtMeaning(b, selected, cutoff);
      assert HasNewerActivity(a, selected.id, cutoff) ==> HasNewerActivity(b, selected.id, cutoff);
    }
    var k := HorizonIsBound(q);
    LiveAtMeaning(b, selected, Bounds(q)[k]);
    forall d, r | d in l.deployments && Pruned(d, selected, q) && d.id in l.statuses
                  && r in l.statuses[d.id] && r.createdAt <= Horizon(q)
      ensures IsInert(r.state)
    {
      var s := Status(d.id, r.state, r.createdAt);
      assert Reported(l, l.deployments, selected, q, false, s);
      PrunedIsAnother(l, q, selected, d);
    }
  }

  /** A deployment created after the last completion has no status by then, so it is never the live one. */
  lemma {:induction false} SelectedIsNotLate(l: Listing, q: Request, selected: Deployment, b: seq<Status>)
    requires Timeline(l, l.deployments, selected, q, false) == Some(b)
    requires DistinctIds(l.deployments) && Find(l.deployments, q.deploymentId) == Some(selected)
    requires forall k | 0 <= k < 4 :: LiveAt(b, selected, Bounds(q)[k])
    ensures selected.createdAt <= LatestCompletion(q)
  {
    hide Timeline, LatestAt, DistinctIds;
    var k := if q.first.completedAt < q.second.completedAt then 3 else 1;
    assert LiveAt(b, selected, Bounds(q)[k]) && Bounds(q)[k] == LatestCompletion(q);
    OfSelects(b, selected.id);
    var s := LatestAt(Of(b, selected.id), LatestCompletion(q), None).status;
    LatestAtMeaning(Of(b, selected.id), LatestCompletion(q), None, s);
    FindMeaning(l.deployments, q.deploymentId);
    TimelineMeaning(l, l.deployments, selected, q, false);
    assert Reported(l, l.deployments, selected, q, false, s);
    var d :| d in l.deployments && !Skipped(d, selected, q, false) && d.id == s.deploymentId && d.id in l.statuses
             && exists raw | raw in l.statuses[d.id] :: raw.state == s.state && raw.createdAt == s.createdAt;
    IdDecides(l.deployments, d, selected);
    assert Readable(l, d, q);
  }

  lemma PrunedIsAnother(l: Listing, q: Request, selected: Deployment, d: Deployment)
    requires selected.createdAt <= LatestCompletion(q) && d in l.deployments && selected in l.deployments
    requires DistinctIds(l.deployments) && Pruned(d, selected, q)
    ensures d.id != selected.id
  {
    if d.id == selected.id {
      IdDecides(l.deployments, d, selected);
    }
  }

  /**
    Both ways of hiding something occur. For all report windows in which one starts
    after the last completion, a listing whose late deployment is readable but
    active: accepted because of the pruning.
   */
  lemma {:induction false} PruningUnsoundBeyond(
    first: Window, second: Window, sha: string, otherSha: string, origin: string)
    returns (l: Listing, q: Request)
    requires Max(first.startedAt, second.startedAt) > Max(first.completedAt, second.completedAt)
    ensures q.first == first && q.second == second && q.sourceSha == sha && q.origin == origin
    ensures PrunedAreReadable(l, q) && Verdict(l, q, true).Some? && Verdict(l, q, false).None?
  {
    hide LatestAt, ParseStatuses, Of;
    var early := Min(Min(first.startedAt, first.completedAt), Min(second.startedAt, second.completedAt));
    var late := Max(first.completedAt, second.completedAt) + 1;
    var live, next := Deployment(1, sha, early), Deployment(2, otherSha, late);
    var success, failure := RawStatus(Success, origin, early), RawStatus(Failure, origin, late);
    l := Listing([live, next], map[1 := [success], 2 := [failure]]);
    q := Request(1, sha, origin, Window(early, early), first, second);
    var own, other := Status(1, Success, early), Status(2, Failure, late);
    SingleParse(success, live, origin, LatestCompletion(q));
    SingleParse(failure, next, origin, LatestCompletion(q));
    SingleTimeline(l, next, live, q);
    assert l.deployments[1..] == [next];
    assert [own] + [] == [own] && [own] + [other] == [own, other];
    assert Timeline(l, l.deployments, live, q, true) == Some([own]);
    assert Timeline(l, l.deployments, live, q, false) == Some([own, other]);
    SingleSuccess(own, q);
    var k := HorizonIsBound(q);
    assert other in [own, other] && HasNewerActivity([own, other], 1, Bounds(q)[k]);
    assert !LiveAt([own, other], live, Bounds(q)[k]);
  }

  /** And for all report windows, one whose late deployment has no readable statuses. */
  lemma {:induction false} PruningHidesUnreadable(
    first: Window, second: Window, sha: string, otherSha: string, origin: string)
    returns (l: Listing, q: Request)
    ensures q.first == first && q.second == second && q.sourceSha == sha && q.origin == origin
    ensures !PrunedAreReadable(l, q) && Verdict(l, q, true).Some? && Verdict(l, q, false).None?
  {
    var early := Min(Min(first.startedAt, first.completedAt), Min(second.startedAt, second.completedAt));
    var late := Max(first.completedAt, second.completedAt) + 1;
    var live, next := Deployment(1, sha, early), Deployment(2, otherSha, late);
    var success := RawStatus(Success, origin, early);
    l := Listing([live, next], map[1 := [success]]);
    q := Request(1, sha, origin, Window(early, early), first, second);
    var own := Status(1, Success, early);
    SingleParse(success, live, origin, LatestCompletion(q));
    assert l.deployments[1..] == [next] && [next][1..] == [];
    assert [own] + [] == [own];
    assert Timeline(l, [next], live, q, true) == Some([]);
    assert Timeline(l, l.deployments, live, q, true) == Some([own]);
    SingleSuccess(own, q);
    assert Pruned(next, live, q) && !Readable(l, next, q);
    PruningExact(l, q);
  }

  lemma {:induction false} SingleParse(raw: RawStatus, d: Deployment, origin: string, cutoff: int)
    requires StatusParses(raw, d, origin, cutoff)
    ensures ParseStatuses([raw], d, origin, cutoff) == Some([Status(d.id, raw.state, raw.createdAt)])
  {
    var parsed := Status(d.id, raw.state, raw.createdAt);
    assert [raw][1..] == [] && [parsed] + [] == [parsed];
  }

  lemma {:induction false} SingleTimeline(l: Listing, d: Deployment, selected: Deployment, q: Request)
    requires d.createdAt > LatestCompletion(q) && !(d.id != selected.id && d.createdAt < selected.createdAt)
    requires d.id in l.statuses && ParseStatuses(l.statuses[d.id], d, q.origin, LatestCompletion(q)).Some?
    ensures Timeline(l, [d], selected, q, true) == Some([])
    ensures Timeline(l, [d], selected, q, false) == ParseStatuses(l.statuses[d.id], d, q.origin, LatestCompletion(q))
  {
    hide ParseStatuses;
    assert [d][1..] == [];
    var parsed := ParseStatuses(l.statuses[d.id], d, q.origin, LatestCompletion(q)).value;
    assert parsed + [] == parsed;
  }

  lemma {:induction false} SingleSuccess(own: Status, q: Request)
    requires own.state == Success && own.createdAt <= q.run.completedAt
    requires own.createdAt <= EarliestStart(q) && forall k | 0 <= k < 4 :: own.createdAt <= Bounds(q)[k]
    ensures forall d: Deployment | d.id == own.deploymentId ::
              && DeployedAt([own], d, q) == Some(own.createdAt)
              && forall k | 0 <= k < 4 :: LiveAt([own], d, Bounds(q)[k])
  {
    hide LatestAt;
    forall cutoff, wanted: Option<State> | own.createdAt <= cutoff && (wanted.None? || wanted.value == Success)
      ensures LatestAt([own], cutoff, wanted) == Event(own)
    {
      LatestAtMeaning([own], cutoff, wanted, own);
    }
    KeptCons(own, [], (s: Status) => s.deploymentId == own.deploymentId);
    assert [own] + [] == [own];
    assert Of([own], own.deploymentId) == [own];
  }

  // ---------- the uniquely latest status ----------

  datatype IdentifiedStatus = IdentifiedStatus(id: nat, state: State, createdAt: int)

  function Newer(): (IdentifiedStatus, IdentifiedStatus) -> bool {
    (a: IdentifiedStatus, b: IdentifiedStatus) => a.createdAt > b.createdAt
  }

  /** The stable sort by descending creation time. */
  function NewestFirst(ss: seq<IdentifiedStatus>): seq<IdentifiedStatus> {
    Sorting.Sort(Newer(), ss)
  }

  function CreatedAt(ss: seq<IdentifiedStatus>, time: int): seq<IdentifiedStatus> {
    Kept(ss, (s: IdentifiedStatus) => s.createdAt == time)
  }

  /** selectAc265DeploymentStatus on parsed statuses; None: it rejects. */
  function SelectStatus(ss: seq<IdentifiedStatus>): Option<nat> {
    var sorted := NewestFirst(ss);
    if sorted == [] then None
    else if sorted[0].state != Success || |CreatedAt(sorted, sorted[0].createdAt)| != 1 then None
    else Some(sorted[0].id)
  }

  lemma {:induction false} CreatedAtCounts(ss: seq<IdentifiedStatus>, time: int)
    ensures |CreatedAt(ss, time)| == 0 <==> forall s | s in ss :: s.createdAt != time
  {
    KeptMeaning(ss, (s: IdentifiedStatus) => s.createdAt == time);
    assert CreatedAt(ss, time) != [] ==> CreatedAt(ss, time)[0] in CreatedAt(ss, time);
  }

  /** A success strictly later than every other report. */
  ghost predicate UniquelyLatest(ss: seq<IdentifiedStatus>, s: IdentifiedStatus) {
    s in ss && s.state == Success && forall o | o in multiset(ss) - multiset{s} :: o.createdAt < s.createdAt
  }

  lemma {:induction false} SortedHead(ss: seq<IdentifiedStatus>)
    requires ss != []
    ensures var sorted := NewestFirst(ss);
            && sorted != [] && sorted[0] in ss
            && multiset(ss) - multiset{sorted[0]} == multiset(sorted[1..])
            && (forall o | o in sorted[1..] :: o.createdAt <= sorted[0].createdAt)
            && (|CreatedAt(sorted, sorted[0].createdAt)| == 1
                <==> forall o | o in sorted[1..] :: o.createdAt != sorted[0].createdAt)
  {
    var sorted := NewestFirst(ss);
    Sorting.SortOrders(Newer(), ss);
    assert ss[0] in multiset(sorted);
    var s, rest := sorted[0], sorted[1..];
    assert sorted == [s] + rest;
    assert s in multiset(ss);
    CreatedAtCounts(rest, s.createdAt);
    assert |CreatedAt(sorted, s.createdAt)| == 1 + |CreatedAt(rest, s.createdAt)|;
  }

  /** A status is selected exactly when it is a success and strictly later than every other report. */
  lemma {:induction false} SelectsUniquelyLatestSuccess(ss: seq<IdentifiedStatus>, id: nat)
    ensures SelectStatus(ss) == Some(id) <==> exists s :: UniquelyLatest(ss, s) && s.id == id
  {
    if ss != [] {
      hide NewestFirst, CreatedAt;
      SortedHead(ss);
      var sorted := NewestFirst(ss);
      var s, rest := sorted[0], sorted[1..];
      assert forall o :: o in rest <==> o in multiset(rest);
      if x :| UniquelyLatest(ss, x) && x.id == id {
        assert x != s ==> s in multiset(ss) - multiset{x};
        assert x != s ==> x in multiset(ss) - multiset{s};
        assert x == s;
      }
      if SelectStatus(ss) == Some(id) {
        assert UniquelyLatest(ss, s);
      }
    }
  }
}
