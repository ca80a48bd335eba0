/** The composer that derives a hosted runner contract from authenticated sources, and the gate that judges it. */
module RunnerContract {
  import opened Outcomes
  import opened HostedHandles

  // ---------- sources ----------

  datatype Identity = Identity(
    environment: string, hostingProjectId: string, supabaseProjectRef: string, deploymentId: string, rest: string)

  datatype Route = Route(operationId: string, verb: string, path: string)

  datatype Mapping = Mapping(
    mappingId: string,
    approvedAt: int,
    runId: string,
    identity: Identity,
    roleResourceBindings: Bindings,
    scenarioRoleBindings: map<string, seq<Role>>)

  datatype MappingAttestation = MappingAttestation(
    mappingId: string, runId: string, mappingSha256: string, issuedAt: int, expiresAt: int, signature: string)

  datatype Scope = Scope(
    runId: string,
    hostingProjectId: string,
    supabaseProjectRef: string,
    deploymentId: string,
    dependencyId: string,
    route: Route)

  datatype Target = Target(targetId: string, targetRef: string, approvedAt: int, expiresAt: int, scope: Scope)

  datatype TargetAttestation = TargetAttestation(
    targetRef: string, runId: string, targetSha256: string, issuedAt: int, expiresAt: int, signature: string)

  datatype Authorization = Authorization(
    authorizationRef: string,
    runId: string,
    identitySha256: string,
    environment: string,
    hostingProjectId: string,
    handles: seq<Handle>)

  datatype Acquisition = Acquisition(
    authorizationRef: string,
    targetRef: string,
    leaseRef: string,
    leaseSha256: string,
    environment: string,
    state: string,
    leaseDurationSeconds: int,
    requestLimit: int,
    redacted: bool,
    acquiredAt: int,
    expiresAt: int)

  /** The parsed request. A field is None when its bytes or its schema were refused. */
  datatype Request = Request(
    mapping: Option<Mapping>,
    mappingAttestation: Option<MappingAttestation>,
    target: Option<Target>,
    targetAttestation: Option<TargetAttestation>,
    authorization: Option<Authorization>,
    acquisition: Option<Acquisition>,
    startedAt: Option<int>,
    cutoffAt: Option<int>)

  /** Digests and signatures, and the two placeholder patterns. */
  datatype Oracle = Oracle(
    shapes: Shapes,
    identityDigest: Identity -> string,
    mappingDigest: Mapping -> string,
    targetDigest: Target -> string,
    mappingSigned: MappingAttestation -> bool,
    targetSigned: TargetAttestation -> bool,
    targetPlaceholder: string -> bool,
    mappingPlaceholder: string -> bool)

  /** The pairs authenticated so far; the code keeps them in two weak maps. */
  datatype Registry = Registry(
    mappings: set<(Mapping, MappingAttestation)>,
    targets: set<(Target, TargetAttestation)>)

  predicate Extends(later: Registry, earlier: Registry) {
    earlier.mappings <= later.mappings && earlier.targets <= later.targets
  }

  // ---------- the contract ----------

  datatype Viewports = Viewports(mobile: int, tablet: int, desktop: int)

  datatype RateLimit = RateLimit(
    operationId: string, verb: string, path: string, rateClass: string, perUserPerMinute: int, maxRequests: int)

  datatype OutageLease = OutageLease(ref: string, sha256: string, acquiredAt: int, expiresAt: int)

  datatype Parameters = Parameters(
    viewports: Viewports,
    rateLimit: RateLimit,
    dependencyId: string,
    route: Route,
    leaseSeconds: int,
    maxRequests: int,
    outageLease: Option<OutageLease>)

  datatype Controls = Controls(rateLimitMaxRequests: int, leaseSeconds: int, maxRequests: int)

  datatype Contract = Contract(
    runId: string,
    identity: Identity,
    sessionHandles: map<Role, Reference>,
    resourceRefs: seq<Resource>,
    controls: Controls,
    parameters: Parameters,
    roleResourceBindings: Bindings,
    scenarioRoleBindings: map<string, seq<Role>>)

  const LEASE_PREFIX := "ac265-lease://staging/"
  const LEASE_SECONDS := 60
  const MAX_REQUESTS := 1
  const RATE_LIMIT := RateLimit("CMS-03A-06", "GET", "/api/v1/cms/content-types", "cms-definition-read", 120, 121)
  const VIEWPORTS := Viewports(320, 769, 1025)

  // ---------- schemas: what they say across fields ----------

  /** A mapping's own schema: every role is bound, to distinct well-formed references. */
  predicate MappingSchema(o: Oracle, m: Mapping) {
    forall role | role in ROLES ::
      && role in m.roleResourceBindings
      && BindingSchema(o, m.roleResourceBindings[role])
  }

  predicate BindingSchema(o: Oracle, refs: seq<string>) {
    && 1 <= |refs| <= |KINDS|
    && (forall i, j | 0 <= i < j < |refs| :: refs[i] != refs[j])
    && (forall ref | ref in refs :: ResourceKind(o.shapes, ref).Some?)
  }

  predicate SessionSchema(o: Oracle, handles: map<Role, Reference>) {
    && (forall role | role in ROLES ::
          role in handles && SessionRole(o.shapes, handles[role].ref).Some? && SessionPrefix(role) <= handles[role].ref)
    && (forall a, b | a in ROLES && b in ROLES && a != b :: handles[a].ref != handles[b].ref)
  }

  predicate ResourceSchema(o: Oracle, resources: seq<Resource>) {
    && |resources| == |KINDS|
    && (forall r | r in resources :: ResourceKind(o.shapes, r.ref).Some? && ResourcePrefix(r.kind) <= r.ref)
    && (forall kind | kind in KINDS :: exists r | r in resources :: r.kind == kind)
    && (forall i, j | 0 <= i < j < |resources| :: resources[i].ref != resources[j].ref)
  }

  predicate ParametersSchema(o: Oracle, p: Parameters) {
    && 320 <= p.viewports.mobile <= 768
    && 769 <= p.viewports.tablet <= 1024
    && 1025 <= p.viewports.desktop <= 7680
    && p.rateLimit == RATE_LIMIT
    && 0 < p.leaseSeconds <= 60
    && p.maxRequests == 1
    && p.outageLease.Some? && HasShape(o.shapes, LEASE_PREFIX, p.outageLease.value.ref)
  }

  predicate ControlsSchema(c: Controls, p: Parameters) {
    && 0 < c.rateLimitMaxRequests <= 1000
    && 0 < c.leaseSeconds <= 60
    && c.maxRequests == 1
    && c.rateLimitMaxRequests == p.rateLimit.maxRequests
    && c.leaseSeconds == p.leaseSeconds
  }

  predicate ContractSchema(o: Oracle, c: Contract) {
    && SessionSchema(o, c.sessionHandles)
    && ResourceSchema(o, c.resourceRefs)
    && ParametersSchema(o, c.parameters)
    && ControlsSchema(c.controls, c.parameters)
    && (forall role | role in ROLES ::
          && role in c.roleResourceBindings
          && BindingSchema(o, c.roleResourceBindings[role])
          && forall ref | ref in c.roleResourceBindings[role] :: Lists(c.resourceRefs, ref))
  }

  // ---------- attestations ----------

  predicate AuthenticatesMapping(o: Oracle, m: Mapping, a: MappingAttestation) {
    && a.mappingSha256 == o.mappingDigest(m)
    && a.mappingId == m.mappingId
    && a.runId == m.runId
    && a.issuedAt >= m.approvedAt
    && o.mappingSigned(a)
  }

  predicate AuthenticatesTarget(o: Oracle, t: Target, a: TargetAttestation) {
    && a.targetSha256 == o.targetDigest(t)
    && a.targetRef == t.targetRef
    && a.runId == t.scope.runId
    && a.issuedAt >= t.approvedAt
    && a.expiresAt <= t.expiresAt
    && o.targetSigned(a)
  }

  predicate MappingWindow(r: Registry, m: Mapping, a: MappingAttestation, startedAt: int, cutoffAt: int) {
    && (m, a) in r.mappings
    && !(|| a.mappingId != m.mappingId
         || a.runId != m.runId
         || a.issuedAt < m.approvedAt
         || startedAt < a.issuedAt
         || startedAt >= a.expiresAt
         || cutoffAt < a.expiresAt
         || startedAt > cutoffAt)
  }

  predicate TargetWindow(r: Registry, t: Target, a: TargetAttestation, startedAt: int, cutoffAt: int) {
    && (t, a) in r.targets
    && !(|| a.targetRef != t.targetRef
         || a.runId != t.scope.runId
         || a.issuedAt < t.approvedAt
         || a.expiresAt > t.expiresAt
         || startedAt < a.issuedAt
         || startedAt >= a.expiresAt
         || cutoffAt < a.expiresAt
         || startedAt > cutoffAt)
  }

  // ---------- derivations ----------

  function DeriveOutageLease(o: Oracle, q: Acquisition, startedAt: int, cutoffAt: int): Option<OutageLease> {
    if !HasShape(o.shapes, LEASE_PREFIX, q.leaseRef) then None
    else if q.leaseSha256 != o.shapes.sha(q.leaseRef) then None
    else if q.leaseDurationSeconds != LEASE_SECONDS || q.requestLimit != 1 || q.state != "acquired"
         || q.environment != "staging" || !q.redacted then None
    else if q.expiresAt - q.acquiredAt != LEASE_SECONDS * 1000 || q.acquiredAt > startedAt
         || startedAt >= q.expiresAt || q.expiresAt > cutoffAt then None
    else Some(OutageLease(q.leaseRef, q.leaseSha256, q.acquiredAt, q.expiresAt))
  }

  function DeriveControls(): Option<Controls> {
    if LEASE_SECONDS > 60 then None else Some(Controls(RATE_LIMIT.maxRequests, LEASE_SECONDS, MAX_REQUESTS))
  }

  // ---------- the composer ----------

  datatype Composition = Composition(contract: Contract, registry: Registry)

  predicate SourcesDescribeOneAttempt(o: Oracle, m: Mapping, t: Target, z: Authorization, q: Acquisition) {
    && m.runId == t.scope.runId
    && t.scope.hostingProjectId == m.identity.hostingProjectId
    && t.scope.supabaseProjectRef == m.identity.supabaseProjectRef
    && t.scope.deploymentId == m.identity.deploymentId
    && z.runId == m.runId
    && z.identitySha256 == o.identityDigest(m.identity)
    && z.environment == m.identity.environment
    && z.hostingProjectId == m.identity.hostingProjectId
    && q.authorizationRef == z.authorizationRef
    && q.targetRef == t.targetRef
  }

  function AssembleParameters(t: Target, lease: OutageLease): Parameters {
    Parameters(VIEWPORTS, RATE_LIMIT, t.scope.dependencyId, t.scope.route, LEASE_SECONDS, MAX_REQUESTS, Some(lease))
  }

  function Compose(o: Oracle, known: Registry, q: Request): Option<Composition> {
    if q.startedAt.None? || q.cutoffAt.None? || q.startedAt.value > q.cutoffAt.value then None
    else if q.mapping.None? || q.mappingAttestation.None?
         || !AuthenticatesMapping(o, q.mapping.value, q.mappingAttestation.value) then None
    else if q.target.None? || q.targetAttestation.None?
         || !AuthenticatesTarget(o, q.target.value, q.targetAttestation.value) then None
    else if q.authorization.None? || q.acquisition.None? then None
    else
      var m, t := q.mapping.value, q.target.value;
      var registry := Registry(
        known.mappings + {(m, q.mappingAttestation.value)}, known.targets + {(t, q.targetAttestation.value)});
      if !SourcesDescribeOneAttempt(o, m, t, q.authorization.value, q.acquisition.value) then None
      else if !MappingWindow(registry, m, q.mappingAttestation.value, q.startedAt.value, q.cutoffAt.value)
           || !TargetWindow(registry, t, q.targetAttestation.value, q.startedAt.value, q.cutoffAt.value) then None
      else
        var lease := DeriveOutageLease(o, q.acquisition.value, q.startedAt.value, q.cutoffAt.value);
        var sessions := SessionHandles(o.shapes, q.authorization.value.handles);
        var resources := ResourceRefs(o.shapes, m.roleResourceBindings);
        var controls := DeriveControls();
        if lease.None? || sessions.None? || resources.None? || controls.None? then None
        else
          var contract := Contract(
            m.runId, m.identity, sessions.value, resources.value, controls.value,
            AssembleParameters(t, lease.value), m.roleResourceBindings, m.scenarioRoleBindings);
          if !ContractSchema(o, contract) then None
          else if || contract.identity != m.identity
                  || contract.roleResourceBindings != m.roleResourceBindings
                  || contract.scenarioRoleBindings != m.scenarioRoleBindings then None
          else Some(Composition(contract, registry))
  }

  // ---------- the policy gate ----------

  datatype Verdict =
    | Accepted
    | OutsideTargetWindow | PlaceholderTarget | OutsideMappingWindow | PlaceholderMapping
    | IdentityMismatch | MappingApprovalLate | TargetMismatch
    | ResourceMappingMismatch | ScenarioMappingMismatch | ParameterMismatch | LeaseViolation

  predicate HasTargetPlaceholder(o: Oracle, t: Target) {
    || o.targetPlaceholder(t.targetId)
    || o.targetPlaceholder(t.scope.dependencyId)
    || o.targetPlaceholder(t.scope.route.operationId)
    || o.targetPlaceholder(t.scope.route.path)
  }

  function AssertPolicy(
    o: Oracle, r: Registry, c: Contract, t: Target, ta: TargetAttestation,
    m: Mapping, ma: MappingAttestation, startedAt: int, cutoffAt: int): Verdict
  {
    if !TargetWindow(r, t, ta, startedAt, cutoffAt) then OutsideTargetWindow
    else if HasTargetPlaceholder(o, t) then PlaceholderTarget
    else if !MappingWindow(r, m, ma, startedAt, cutoffAt) then OutsideMappingWindow
    else if o.mappingPlaceholder(m.mappingId) then PlaceholderMapping
    else if m.runId != c.runId || m.identity != c.identity then IdentityMismatch
    else if m.approvedAt > startedAt || m.approvedAt > cutoffAt then MappingApprovalLate
    else if t.scope.runId != c.runId || t.scope.hostingProjectId != c.identity.hostingProjectId
         || t.scope.supabaseProjectRef != c.identity.supabaseProjectRef
         || t.scope.deploymentId != c.identity.deploymentId
         || t.approvedAt > startedAt || t.approvedAt > cutoffAt then TargetMismatch
    else if c.roleResourceBindings != m.roleResourceBindings then ResourceMappingMismatch
    else if c.scenarioRoleBindings != m.scenarioRoleBindings then ScenarioMappingMismatch
    else AssertScenarioParameters(o, c, t)
  }

  function AssertScenarioParameters(o: Oracle, c: Contract, t: Target): Verdict {
    var p := c.parameters;
    if p.viewports != VIEWPORTS || p.rateLimit != RATE_LIMIT || p.dependencyId != t.scope.dependencyId
      || p.route != t.scope.route || p.leaseSeconds != LEASE_SECONDS || p.maxRequests != MAX_REQUESTS
    then ParameterMismatch
    else if p.outageLease.None? || !(LEASE_PREFIX <= p.outageLease.value.ref)
      || p.outageLease.value.sha256 != o.shapes.sha(p.outageLease.value.ref) then LeaseViolation
    else Accepted
  }

  // ---------- what the gate decides ----------

  /** Both attested sources are authenticated, belong together, and are in their windows at the start. */
  ghost predicate InWindows(
    r: Registry, t: Target, ta: TargetAttestation, m: Mapping, ma: MappingAttestation, startedAt: int, cutoffAt: int)
  {
    && (t, ta) in r.targets && ta.targetRef == t.targetRef && ta.runId == t.scope.runId
    && InOrder(t.approvedAt, ta.issuedAt, startedAt, ta.expiresAt, cutoffAt) && ta.expiresAt <= t.expiresAt
    && (m, ma) in r.mappings && ma.mappingId == m.mappingId && ma.runId == m.runId
    && InOrder(m.approvedAt, ma.issuedAt, startedAt, ma.expiresAt, cutoffAt)
  }

  /** One of the target's names, or the mapping's, is a placeholder. */
  ghost predicate NamesPlaceholder(o: Oracle, t: Target, m: Mapping) {
    || o.mappingPlaceholder(m.mappingId)
    || exists name | name in [t.targetId, t.scope.dependencyId, t.scope.route.operationId, t.scope.route.path] ::
      o.targetPlaceholder(name)
  }

  /** The contract is for the mapping's run and identity, and for the target's scope. */
  ghost predicate IsFor(c: Contract, t: Target, m: Mapping) {
    && c.runId == m.runId && c.identity == m.identity
    && t.scope == t.scope.(
         runId := c.runId,
         hostingProjectId := c.identity.hostingProjectId,
         supabaseProjectRef := c.identity.supabaseProjectRef,
         deploymentId := c.identity.deploymentId)
  }

  ghost function LockedParameters(scope: Scope): Parameters {
    Parameters(
      Viewports(320, 769, 1025),
      RateLimit("CMS-03A-06", "GET", "/api/v1/cms/content-types", "cms-definition-read", 120, 121),
      scope.dependencyId, scope.route, 60, 1, None)
  }

  ghost predicate HasDigestedLease(o: Oracle, c: Contract) {
    exists lease, rest ::
      && c.parameters.outageLease == Some(lease)
      && lease.ref == "ac265-lease://staging/" + rest
      && lease.sha256 == o.shapes.sha(lease.ref)
  }

  /** The gate accepts exactly on all of this, said of the fields of the sources and of the contract. */
  lemma {:induction false} GateExactly(
    o: Oracle, r: Registry, c: Contract, t: Target, ta: TargetAttestation,
    m: Mapping, ma: MappingAttestation, startedAt: int, cutoffAt: int)
    ensures AssertPolicy(o, r, c, t, ta, m, ma, startedAt, cutoffAt) == Accepted
       <==> && InWindows(r, t, ta, m, ma, startedAt, cutoffAt)
            && !NamesPlaceholder(o, t, m)
            && IsFor(c, t, m)
            && c.roleResourceBindings == m.roleResourceBindings
            && c.scenarioRoleBindings == m.scenarioRoleBindings
            && c.parameters.(outageLease := None) == LockedParameters(t.scope)
            && HasDigestedLease(o, c)
  {
    PlaceholdersNamed(o, t);
    LeaseDigested(o, c);
    hide HasTargetPlaceholder, NamesPlaceholder, HasDigestedLease;
    assert NamesPlaceholder(o, t, m) <==> HasTargetPlaceholder(o, t) || o.mappingPlaceholder(m.mappingId) by {
      PlaceholdersOfBoth(o, t, m);
    }
  }

  lemma PlaceholdersNamed(o: Oracle, t: Target)
    ensures HasTargetPlaceholder(o, t)
       <==> exists name | name in [t.targetId, t.scope.dependencyId, t.scope.route.operationId, t.scope.route.path] ::
              o.targetPlaceholder(name)
  {
    var names := [t.targetId, t.scope.dependencyId, t.scope.route.operationId, t.scope.route.path];
    assert names[0] in names && names[1] in names && names[2] in names && names[3] in names;
  }

  lemma PlaceholdersOfBoth(o: Oracle, t: Target, m: Mapping)
    ensures NamesPlaceholder(o, t, m) <==> HasTargetPlaceholder(o, t) || o.mappingPlaceholder(m.mappingId)
  {
    PlaceholdersNamed(o, t);
    hide HasTargetPlaceholder;
  }

  lemma LeaseDigested(o: Oracle, c: Contract)
    ensures HasDigestedLease(o, c)
       <==> && c.parameters.outageLease.Some?
            && LEASE_PREFIX <= c.parameters.outageLease.value.ref
            && c.parameters.outageLease.value.sha256 == o.shapes.sha(c.parameters.outageLease.value.ref)
  {
    if c.parameters.outageLease.Some? && LEASE_PREFIX <= c.parameters.outageLease.value.ref {
      var lease := c.parameters.outageLease.value;
      assert lease.ref == "ac265-lease://staging/" + lease.ref[|LEASE_PREFIX|..];
    }
  }

  /** A refusal says what is wrong: the verdict names a group of fields in which there is a defect. */
  lemma {:induction false} GateNamesDefect(
    o: Oracle, r: Registry, c: Contract, t: Target, ta: TargetAttestation,
    m: Mapping, ma: MappingAttestation, startedAt: int, cutoffAt: int)
    ensures match AssertPolicy(o, r, c, t, ta, m, ma, startedAt, cutoffAt)
            case Accepted => true
            case OutsideTargetWindow => !InWindows(r, t, ta, m, ma, startedAt, cutoffAt)
            case OutsideMappingWindow => !InWindows(r, t, ta, m, ma, startedAt, cutoffAt)
            case PlaceholderTarget => NamesPlaceholder(o, t, m) && HasTargetPlaceholder(o, t)
            case PlaceholderMapping => o.mappingPlaceholder(m.mappingId)
            case IdentityMismatch => !(c.runId == m.runId && c.identity == m.identity)
            case MappingApprovalLate => false
            case TargetMismatch => !IsFor(c, t, m)
            case ResourceMappingMismatch => c.roleResourceBindings != m.roleResourceBindings
            case ScenarioMappingMismatch => c.scenarioRoleBindings != m.scenarioRoleBindings
            case ParameterMismatch => c.parameters.(outageLease := None) != LockedParameters(t.scope)
            case LeaseViolation => !HasDigestedLease(o, c)
  {
    PlaceholdersOfBoth(o, t, m);
    LeaseDigested(o, c);
    hide HasTargetPlaceholder, NamesPlaceholder, HasDigestedLease;
  }

  // ---------- what composition guarantees ----------

  lemma {:induction false} ComposedVerdict(o: Oracle, known: Registry, q: Request, later: Registry)
    ensures var composed := Compose(o, known, q);
            composed.Some? && Extends(later, composed.value.registry) ==>
              AssertPolicy(o, later, composed.value.contract,
                           q.target.value, q.targetAttestation.value, q.mapping.value, q.mappingAttestation.value,
                           q.startedAt.value, q.cutoffAt.value)
              == if HasTargetPlaceholder(o, q.target.value) then PlaceholderTarget
                 else if o.mappingPlaceholder(q.mapping.value.mappingId) then PlaceholderMapping
                 else Accepted
  {
    hide ContractSchema, SessionHandles, ResourceRefs;
  }

  /** The gate's verdict on a composed contract is decided by placeholder names alone, now and after more sources. */
  lemma {:induction false} ComposedPassesGate(o: Oracle, known: Registry, q: Request, later: Registry)
    ensures var composed := Compose(o, known, q);
            composed.Some? && Extends(later, composed.value.registry) ==>
              var verdict := AssertPolicy(
                o, later, composed.value.contract, q.target.value, q.targetAttestation.value, q.mapping.value,
                q.mappingAttestation.value, q.startedAt.value, q.cutoffAt.value);
              && (verdict == Accepted <==> !NamesPlaceholder(o, q.target.value, q.mapping.value))
              && (verdict != Accepted ==> verdict == PlaceholderTarget || verdict == PlaceholderMapping)
  {
    hide AssertPolicy, HasTargetPlaceholder, NamesPlaceholder, ContractSchema, SessionHandles, ResourceRefs;
    ComposedVerdict(o, known, q, later);
    if Compose(o, known, q).Some? {
      PlaceholdersOfBoth(o, q.target.value, q.mapping.value);
    }
  }

  /** A contract differs from the composed one only where the gate does not look. */
  predicate SameToTheGate(o: Oracle, c: Contract, composed: Contract) {
    && c.runId == composed.runId
    && c.identity == composed.identity
    && c.roleResourceBindings == composed.roleResourceBindings
    && c.scenarioRoleBindings == composed.scenarioRoleBindings
    && c.parameters.(outageLease := None) == composed.parameters.(outageLease := None)
    && c.parameters.outageLease.Some?
    && LEASE_PREFIX <= c.parameters.outageLease.value.ref
    && c.parameters.outageLease.value.sha256 == o.shapes.sha(c.parameters.outageLease.value.ref)
  }

  /**
    Of all contracts, the gate accepts for composable sources exactly those that agree with the composed one,
    session handles, resource references, controls and the choice of a digest-bound lease left open.
   */
  lemma {:induction false} GateAcceptsExactly(o: Oracle, known: Registry, q: Request, c: Contract)
    ensures var composed := Compose(o, known, q);
            && composed.Some?
            && !HasTargetPlaceholder(o, q.target.value) && !o.mappingPlaceholder(q.mapping.value.mappingId)
            ==> (AssertPolicy(o, composed.value.registry, c,
                              q.target.value, q.targetAttestation.value, q.mapping.value, q.mappingAttestation.value,
                              q.startedAt.value, q.cutoffAt.value) == Accepted
                 <==> SameToTheGate(o, c, composed.value.contract))
  {
    hide ContractSchema, SessionHandles, ResourceRefs;
  }

  /**
    The contract schema's cross-field rules never reject what was derived: once the derivations succeed on a mapping
    that meets its own schema, the composer's final checks cannot fail.
   */
  lemma {:induction false} FinalChecksNeverReject(
    o: Oracle, m: Mapping, t: Target, q: Acquisition, handles: seq<Handle>, startedAt: int, cutoffAt: int)
    requires MappingSchema(o, m)
    requires SessionHandles(o.shapes, handles).Some? && ResourceRefs(o.shapes, m.roleResourceBindings).Some?
    requires DeriveOutageLease(o, q, startedAt, cutoffAt).Some?
    ensures DeriveControls().Some?
    ensures ContractSchema(o, Contract(
              m.runId, m.identity, SessionHandles(o.shapes, handles).value,
              ResourceRefs(o.shapes, m.roleResourceBindings).value, DeriveControls().value,
              AssembleParameters(t, DeriveOutageLease(o, q, startedAt, cutoffAt).value),
              m.roleResourceBindings, m.scenarioRoleBindings))
  {
    DerivedSessionsFit(o, handles);
    DerivedResourcesFit(o, m);
    FixedParametersFit(o, t, DeriveOutageLease(o, q, startedAt, cutoffAt).value);
    hide SessionHandles, ResourceRefs, SessionSchema, ResourceSchema, BindingSchema, Lists,
         ParametersSchema, ControlsSchema, DeriveOutageLease, AssembleParameters;
  }

  lemma FixedParametersFit(o: Oracle, t: Target, lease: OutageLease)
    requires HasShape(o.shapes, LEASE_PREFIX, lease.ref)
    ensures ParametersSchema(o, AssembleParameters(t, lease))
    ensures DeriveControls().Some? && ControlsSchema(DeriveControls().value, AssembleParameters(t, lease))
  {
    hide HasShape;
  }

  lemma {:induction false} DerivedSessionsFit(o: Oracle, handles: seq<Handle>)
    requires SessionHandles(o.shapes, handles).Some?
    ensures SessionSchema(o, SessionHandles(o.shapes, handles).value)
  {
    SessionHandlesBijective(o.shapes, handles);
    var sessions := SessionHandles(o.shapes, handles).value;
    hide SessionHandles, ROLES;
    forall role: Role
      ensures SessionRole(o.shapes, sessions[role].ref).Some? && SessionPrefix(role) <= sessions[role].ref
    {
      assert SessionRole(o.shapes, sessions[role].ref) == Some(role);
      hide SessionRole;
    }
    hide SessionRole;
  }

  lemma {:induction false} DerivedResourcesFit(o: Oracle, m: Mapping)
    requires ResourceRefs(o.shapes, m.roleResourceBindings).Some?
    ensures ResourceSchema(o, ResourceRefs(o.shapes, m.roleResourceBindings).value)
    ensures forall role | role in ROLES :: role in m.roleResourceBindings
              && forall ref | ref in m.roleResourceBindings[role] ::
                Lists(ResourceRefs(o.shapes, m.roleResourceBindings).value, ref)
  {
    ManifestIsExactlyTheBindings(o.shapes, m.roleResourceBindings);
    var resources := ResourceRefs(o.shapes, m.roleResourceBindings).value;
    hide ResourceRefs, ROLES, ResourceKind;
    forall r | r in resources ensures ResourceKind(o.shapes, r.ref).Some? && ResourcePrefix(r.kind) <= r.ref {
      var i :| 0 <= i < |resources| && resources[i] == r;
    }
    forall kind | kind in KINDS ensures exists r | r in resources :: r.kind == kind {
      var i :| 0 <= i < |KINDS| && KINDS[i] == kind;
      assert resources[i] in resources;
    }
  }

  /** An instant order that one attestation and the run must follow. */
  predicate InOrder(approvedAt: int, issuedAt: int, startedAt: int, expiresAt: int, cutoffAt: int) {
    approvedAt <= issuedAt <= startedAt < expiresAt <= cutoffAt
  }

  /** A one-request lease of exactly 60 s that is live at the start. */
  ghost predicate IsLiveLease(o: Oracle, a: Acquisition, startedAt: int, cutoffAt: int) {
    && Names(o.shapes, "ac265-lease://staging/", a.leaseRef) && a.leaseSha256 == o.shapes.sha(a.leaseRef)
    && a.state == "acquired" && a.environment == "staging" && a.redacted
    && a.leaseDurationSeconds == 60 && a.requestLimit == 1
    && a.acquiredAt <= startedAt < a.acquiredAt + 60_000 == a.expiresAt <= cutoffAt
  }

  lemma LiveLeaseDerives(o: Oracle, a: Acquisition, startedAt: int, cutoffAt: int)
    ensures DeriveOutageLease(o, a, startedAt, cutoffAt).Some? <==> IsLiveLease(o, a, startedAt, cutoffAt)
  {
    ShapeNames(o.shapes, LEASE_PREFIX, a.leaseRef);
    hide HasShape, Names;
  }

  /** Both sources, the authorization and the lease are for the run and the identity that the mapping names. */
  ghost predicate IsOneAttempt(o: Oracle, m: Mapping, t: Target, z: Authorization, a: Acquisition) {
    var who := m.identity;
    && t.scope == t.scope.(
         runId := m.runId,
         hostingProjectId := who.hostingProjectId,
         supabaseProjectRef := who.supabaseProjectRef,
         deploymentId := who.deploymentId)
    && z == z.(
         runId := m.runId,
         identitySha256 := o.identityDigest(who),
         environment := who.environment,
         hostingProjectId := who.hostingProjectId)
    && a == a.(authorizationRef := z.authorizationRef, targetRef := t.targetRef)
  }

  lemma OneAttemptIsDescribed(o: Oracle, m: Mapping, t: Target, z: Authorization, a: Acquisition)
    ensures SourcesDescribeOneAttempt(o, m, t, z, a) <==> IsOneAttempt(o, m, t, z, a)
  {
  }

  lemma MappingInOrder(o: Oracle, r: Registry, m: Mapping, a: MappingAttestation, startedAt: int, cutoffAt: int)
    requires AuthenticatesMapping(o, m, a) && (m, a) in r.mappings
    ensures MappingWindow(r, m, a, startedAt, cutoffAt)
       <==> InOrder(m.approvedAt, a.issuedAt, startedAt, a.expiresAt, cutoffAt)
  {
  }

  lemma TargetInOrder(o: Oracle, r: Registry, t: Target, a: TargetAttestation, startedAt: int, cutoffAt: int)
    requires AuthenticatesTarget(o, t, a) && (t, a) in r.targets
    ensures TargetWindow(r, t, a, startedAt, cutoffAt)
       <==> InOrder(t.approvedAt, a.issuedAt, startedAt, a.expiresAt, cutoffAt)
  {
  }

  /** Every part of the request was readable. */
  predicate IsComplete(q: Request) {
    && q.mapping.Some? && q.mappingAttestation.Some? && q.target.Some? && q.targetAttestation.Some?
    && q.authorization.Some? && q.acquisition.Some? && q.startedAt.Some? && q.cutoffAt.Some?
  }

  /** What sources must satisfy to be composed, with every check that another one implies removed. */
  ghost predicate Composable(o: Oracle, q: Request)
    requires IsComplete(q)
  {
    var m, ma, t, ta := q.mapping.value, q.mappingAttestation.value, q.target.value, q.targetAttestation.value;
    var z, a, startedAt, cutoffAt := q.authorization.value, q.acquisition.value, q.startedAt.value, q.cutoffAt.value;
    && o.mappingSigned(ma) && ma.mappingSha256 == o.mappingDigest(m)
    && ma.mappingId == m.mappingId && ma.runId == m.runId
    && o.targetSigned(ta) && ta.targetSha256 == o.targetDigest(t)
    && ta.targetRef == t.targetRef && ta.runId == t.scope.runId
    && InOrder(m.approvedAt, ma.issuedAt, startedAt, ma.expiresAt, cutoffAt)
    && InOrder(t.approvedAt, ta.issuedAt, startedAt, ta.expiresAt, cutoffAt) && ta.expiresAt <= t.expiresAt
    && IsOneAttempt(o, m, t, z, a)
    && IsLiveLease(o, a, startedAt, cutoffAt)
    && AreSessions(o.shapes, z.handles)
    && AreResources(o.shapes, m.roleResourceBindings)
  }

  /**
    Composition succeeds exactly on composable sources: neither the schema of the result, nor the comparisons with the
    mapping, nor the registry, nor the order of start and cutoff ever decides. A mapping that meets its own schema is
    needed in one direction only.
   */
  lemma {:induction false} ComposesExactly(o: Oracle, known: Registry, q: Request)
    ensures Compose(o, known, q).Some? ==> IsComplete(q) && Composable(o, q)
    ensures IsComplete(q) && MappingSchema(o, q.mapping.value) && Composable(o, q) ==> Compose(o, known, q).Some?
  {
    if IsComplete(q) {
      ComposesCompleteExactly(o, known, q);
    }
    hide Composable, MappingSchema, ContractSchema, SessionHandles, ResourceRefs;
  }

  lemma {:induction false} ComposesCompleteExactly(o: Oracle, known: Registry, q: Request)
    requires IsComplete(q)
    ensures Compose(o, known, q).Some? ==> Composable(o, q)
    ensures MappingSchema(o, q.mapping.value) && Composable(o, q) ==> Compose(o, known, q).Some?
  {
    hide ContractSchema, SessionHandles, ResourceRefs, MappingSchema, SourcesDescribeOneAttempt, HasShape,
         DeriveOutageLease, IsLiveLease, MappingWindow, TargetWindow, DeriveControls, AssembleParameters, IsOneAttempt,
         AreSessions, AreResources;
    var m, ma, t, ta := q.mapping.value, q.mappingAttestation.value, q.target.value, q.targetAttestation.value;
    var z, a, startedAt, cutoffAt := q.authorization.value, q.acquisition.value, q.startedAt.value, q.cutoffAt.value;
    var registry := Registry(known.mappings + {(m, ma)}, known.targets + {(t, ta)});
    LiveLeaseDerives(o, a, startedAt, cutoffAt);
    OneAttemptIsDescribed(o, m, t, z, a);
    SessionHandlesExactly(o.shapes, z.handles);
    ResourceRefsExactly(o.shapes, m.roleResourceBindings);
    if AuthenticatesMapping(o, m, ma) {
      MappingInOrder(o, registry, m, ma, startedAt, cutoffAt);
    }
    if AuthenticatesTarget(o, t, ta) {
      TargetInOrder(o, registry, t, ta, startedAt, cutoffAt);
    }
    if MappingSchema(o, m) && DeriveOutageLease(o, a, startedAt, cutoffAt).Some?
      && SessionHandles(o.shapes, z.handles).Some? && ResourceRefs(o.shapes, m.roleResourceBindings).Some? {
      FinalChecksNeverReject(o, m, t, a, z.handles, startedAt, cutoffAt);
    }
  }

  // ---------- what a contract says about its sources ----------

  /** The part of the sources that a contract carries. Session handles count as a set: their order is not part of it. */
  ghost predicate SameSubstance(q: Request, r: Request)
    requires IsComplete(q) && IsComplete(r)
  {
    && q.mapping.value.runId == r.mapping.value.runId
    && q.mapping.value.identity == r.mapping.value.identity
    && q.mapping.value.roleResourceBindings == r.mapping.value.roleResourceBindings
    && q.mapping.value.scenarioRoleBindings == r.mapping.value.scenarioRoleBindings
    && q.target.value.scope == r.target.value.scope
    && q.acquisition.value.leaseRef == r.acquisition.value.leaseRef
    && q.acquisition.value.acquiredAt == r.acquisition.value.acquiredAt
    && multiset(q.authorization.value.handles) == multiset(r.authorization.value.handles)
  }

  /**
    Two requests compose to the same contract exactly when they agree on that part. So a contract fixes the run, the
    identity, both bindings, the whole target scope, every session handle and the lease with its two instants; and it
    leaves open the order of the handles, the names and approval instants of mapping and target, both attestations,
    the start and the cutoff.
   */
  lemma {:induction false} ContractFixesSubstance(o: Oracle, known: Registry, q: Request, known': Registry, r: Request)
    ensures var a, b := Compose(o, known, q), Compose(o, known', r);
            a.Some? && b.Some? ==>
              IsComplete(q) && IsComplete(r) && (a.value.contract == b.value.contract <==> SameSubstance(q, r))
  {
    hide Compose, SessionHandles, ResourceRefs, HasShape, AreSessions, AreResources, Names;
    var a, b := Compose(o, known, q), Compose(o, known', r);
    if a.Some? && b.Some? {
      ComposesExactly(o, known, q);
      ComposesExactly(o, known', r);
      ComposedOf(o, known, q);
      ComposedOf(o, known', r);
      SessionHandlesForgetOrder(o.shapes, q.authorization.value.handles, r.authorization.value.handles);
      ScopesAgree(o, q);
      ScopesAgree(o, r);
    }
  }

  lemma ScopesAgree(o: Oracle, q: Request)
    requires IsComplete(q) && Composable(o, q)
    ensures var m, scope := q.mapping.value, q.target.value.scope;
            && scope.runId == m.runId && scope.hostingProjectId == m.identity.hostingProjectId
            && scope.supabaseProjectRef == m.identity.supabaseProjectRef
            && scope.deploymentId == m.identity.deploymentId
  {
    hide AreSessions, AreResources, IsLiveLease;
  }

  /** The composed contract, part by part; what is not from the sources is fixed. */
  lemma ComposedOf(o: Oracle, known: Registry, q: Request)
    requires Compose(o, known, q).Some?
    ensures IsComplete(q) && SessionHandles(o.shapes, q.authorization.value.handles).Some?
    ensures ResourceRefs(o.shapes, q.mapping.value.roleResourceBindings).Some?
    ensures var m, t, a := q.mapping.value, q.target.value, q.acquisition.value;
            Compose(o, known, q).value.contract == Contract(
              m.runId, m.identity, SessionHandles(o.shapes, q.authorization.value.handles).value,
              ResourceRefs(o.shapes, m.roleResourceBindings).value, Controls(121, 60, 1),
              Parameters(
                Viewports(320, 769, 1025),
                RateLimit("CMS-03A-06", "GET", "/api/v1/cms/content-types", "cms-definition-read", 120, 121),
                t.scope.dependencyId, t.scope.route, 60, 1,
                Some(OutageLease(a.leaseRef, a.leaseSha256, a.acquiredAt, a.expiresAt))),
              m.roleResourceBindings, m.scenarioRoleBindings)
    ensures Compose(o, known, q).value.registry == Registry(
              known.mappings + {(q.mapping.value, q.mappingAttestation.value)},
              known.targets + {(q.target.value, q.targetAttestation.value)})
  {
    hide ContractSchema, SessionHandles, ResourceRefs, MappingWindow, TargetWindow, HasShape;
  }
}
