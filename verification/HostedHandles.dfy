/** Session handles, resource references and their locked order, derived from authenticated sources. */
module HostedHandles {
  import opened Outcomes
  import opened Sequences
  import opened LockedOrder

  datatype Role =
    | EntitledRead | OwnerFull | GuardianMandate | JuniorRestricted | BusinessMandate
    | StaffCaseScoped | AdminStepUp | ForbiddenHidden | DisabledPrerequisite

  datatype Kind = ContentSchema | StaffCase | Organization | Prerequisite

  const ROLES: seq<Role> :=
    [EntitledRead, OwnerFull, GuardianMandate, JuniorRestricted, BusinessMandate,
     StaffCaseScoped, AdminStepUp, ForbiddenHidden, DisabledPrerequisite]

  const KINDS: seq<Kind> := [ContentSchema, StaffCase, Organization, Prerequisite]

  /** What is not computed here: the shape of a version 4 UUID, and the digest of a reference. */
  datatype Shapes = Shapes(isUuid: string -> bool, sha: string -> string)

  datatype Reference = Reference(ref: string, sha256: string)

  datatype Handle = Handle(role: Role, handleRef: string, handleSha256: string)

  datatype Resource = Resource(kind: Kind, ref: string, sha256: string)

  function RoleName(role: Role): string {
    match role
    case EntitledRead => "entitled_read"
    case OwnerFull => "owner_full"
    case GuardianMandate => "guardian_mandate"
    case JuniorRestricted => "junior_restricted"
    case BusinessMandate => "business_mandate"
    case StaffCaseScoped => "staff_case_scoped"
    case AdminStepUp => "admin_step_up"
    case ForbiddenHidden => "forbidden_hidden"
    case DisabledPrerequisite => "disabled_prerequisite"
  }

  function KindName(kind: Kind): string {
    match kind
    case ContentSchema => "content_schema"
    case StaffCase => "staff_case"
    case Organization => "organization"
    case Prerequisite => "prerequisite"
  }

  function SessionPrefix(role: Role): string {
    "ac265-session://" + RoleName(role) + "/"
  }

  function ResourcePrefix(kind: Kind): string {
    "ac265-resource://" + KindName(kind) + "/"
  }

  predicate HasShape(shapes: Shapes, prefix: string, ref: string) {
    prefix <= ref && shapes.isUuid(ref[|prefix|..])
  }

  /** The role a session reference names: the first alternative of the pattern that fits. */
  function SessionRole(shapes: Shapes, ref: string, roles: seq<Role> := ROLES): (r: Option<Role>)
    ensures r.Some? ==> HasShape(shapes, SessionPrefix(r.value), ref)
    ensures r.None? ==> forall role | role in roles :: !HasShape(shapes, SessionPrefix(role), ref)
  {
    if roles == [] then None
    else if HasShape(shapes, SessionPrefix(roles[0]), ref) then Some(roles[0])
    else SessionRole(shapes, ref, roles[1..])
  }

  function ResourceKind(shapes: Shapes, ref: string, kinds: seq<Kind> := KINDS): (r: Option<Kind>)
    ensures r.Some? ==> HasShape(shapes, ResourcePrefix(r.value), ref)
    ensures r.None? ==> forall kind | kind in kinds :: !HasShape(shapes, ResourcePrefix(kind), ref)
  {
    if kinds == [] then None
    else if HasShape(shapes, ResourcePrefix(kinds[0]), ref) then Some(kinds[0])
    else ResourceKind(shapes, ref, kinds[1..])
  }

  // ---------- pigeonhole ----------

  function ToSet<T>(s: seq<T>): set<T> {
    set x | x in s
  }

  lemma {:induction false} DistinctSize<T>(s: seq<T>)
    requires NoRepeats(s)
    ensures |ToSet(s)| == |s|
  {
    if s != [] {
      var n := |s| - 1;
      DistinctSize(s[..n]);
      assert s == s[..n] + [s[n]];
      assert s[n] !in s[..n];
      assert ToSet(s) == ToSet(s[..n]) + {s[n]};
    }
  }

  lemma EqualByCount<T>(a: set<T>, b: set<T>)
    requires a <= b && |a| == |b|
    ensures a == b
  {
    assert b == a + (b - a);
  }

  lemma RolesAreAll()
    ensures |ROLES| == 9 && NoRepeats(ROLES) && forall role: Role :: role in ROLES
  {
    forall role: Role ensures role in ROLES {
      match role
      case EntitledRead => assert ROLES[0] == role;
      case OwnerFull => assert ROLES[1] == role;
      case GuardianMandate => assert ROLES[2] == role;
      case JuniorRestricted => assert ROLES[3] == role;
      case BusinessMandate => assert ROLES[4] == role;
      case StaffCaseScoped => assert ROLES[5] == role;
      case AdminStepUp => assert ROLES[6] == role;
      case ForbiddenHidden => assert ROLES[7] == role;
      case DisabledPrerequisite => assert ROLES[8] == role;
    }
  }

  lemma KindsAreAll()
    ensures |KINDS| == 4 && NoRepeats(KINDS) && forall kind: Kind :: kind in KINDS
  {
    forall kind: Kind ensures kind in KINDS {
      match kind
      case ContentSchema => assert KINDS[0] == kind;
      case StaffCase => assert KINDS[1] == kind;
      case Organization => assert KINDS[2] == kind;
      case Prerequisite => assert KINDS[3] == kind;
    }
  }

  /** Nine distinct roles are all the roles. */
  lemma {:induction false} NineDistinctRolesAreAll(roles: seq<Role>)
    requires NoRepeats(roles) && |roles| == |ROLES|
    ensures forall role: Role :: role in roles
  {
    RolesAreAll();
    DistinctSize(roles);
    DistinctSize(ROLES);
    assert ToSet(roles) <= ToSet(ROLES);
    EqualByCount(ToSet(roles), ToSet(ROLES));
    forall role: Role ensures role in roles {
      assert role in ToSet(ROLES);
    }
  }

  /** The prefixes: a scheme, the name of the role or kind, and a slash. */
  lemma PrefixTexts(role: Role, kind: Kind)
    ensures SessionPrefix(role) == "ac265-session://" + RoleName(role) + "/"
    ensures ResourcePrefix(kind) == "ac265-resource://" + KindName(kind) + "/"
    ensures [RoleName(EntitledRead), RoleName(OwnerFull), RoleName(GuardianMandate), RoleName(JuniorRestricted),
             RoleName(BusinessMandate), RoleName(StaffCaseScoped), RoleName(AdminStepUp), RoleName(ForbiddenHidden),
             RoleName(DisabledPrerequisite)]
         == ["entitled_read", "owner_full", "guardian_mandate", "junior_restricted", "business_mandate",
             "staff_case_scoped", "admin_step_up", "forbidden_hidden", "disabled_prerequisite"]
    ensures [KindName(ContentSchema), KindName(StaffCase), KindName(Organization), KindName(Prerequisite)]
         == ["content_schema", "staff_case", "organization", "prerequisite"]
  {
  }

  /** The reference is this prefix and a UUID. */
  ghost predicate Names(shapes: Shapes, prefix: string, ref: string) {
    exists uuid :: ref == prefix + uuid && shapes.isUuid(uuid)
  }

  lemma ShapeNames(shapes: Shapes, prefix: string, ref: string)
    ensures HasShape(shapes, prefix, ref) <==> Names(shapes, prefix, ref)
  {
    if HasShape(shapes, prefix, ref) {
      assert ref == prefix + ref[|prefix|..];
    }
  }

  /** The roles' names differ in their first letter, so a reference names one role. */
  lemma {:induction false} SessionRoleExactly(shapes: Shapes, ref: string, role: Role)
    ensures SessionRole(shapes, ref) == Some(role) <==> Names(shapes, SessionPrefix(role), ref)
  {
    ShapeNames(shapes, SessionPrefix(role), ref);
    RolesAreAll();
    var found := SessionRole(shapes, ref);
    hide SessionRole, ROLES;
    if HasShape(shapes, SessionPrefix(role), ref) {
      assert SessionPrefix(role)[16] == ref[16] == SessionPrefix(found.value)[16];
      FirstLetters(role, found.value);
    }
  }

  lemma FirstLetters(a: Role, b: Role)
    requires SessionPrefix(a)[16] == SessionPrefix(b)[16]
    ensures a == b
  {
  }

  lemma {:induction false} ResourceKindExactly(shapes: Shapes, ref: string, kind: Kind)
    ensures ResourceKind(shapes, ref) == Some(kind) <==> Names(shapes, ResourcePrefix(kind), ref)
  {
    ShapeNames(shapes, ResourcePrefix(kind), ref);
    KindsAreAll();
    var found := ResourceKind(shapes, ref);
    hide ResourceKind, KINDS;
    if HasShape(shapes, ResourcePrefix(kind), ref) {
      assert ResourcePrefix(kind)[17] == ref[17] == ResourcePrefix(found.value)[17];
      FirstKindLetters(kind, found.value);
    }
  }

  lemma FirstKindLetters(a: Kind, b: Kind)
    requires ResourcePrefix(a)[17] == ResourcePrefix(b)[17]
    ensures a == b
  {
  }

  // ---------- session handles ----------

  predicate Binds(shapes: Shapes, h: Handle) {
    SessionRole(shapes, h.handleRef) == Some(h.role) && h.handleSha256 == shapes.sha(h.handleRef)
  }

  function RolesOf(handles: seq<Handle>): (roles: seq<Role>)
    ensures |roles| == |handles|
  {
    seq(|handles|, i requires 0 <= i < |handles| => handles[i].role)
  }

  predicate DistinctRoles(handles: seq<Handle>) {
    forall i, j | 0 <= i < j < |handles| :: handles[i].role != handles[j].role
  }

  function ByRole(handles: seq<Handle>): (m: map<Role, Reference>)
    ensures forall role :: role in m <==> exists h | h in handles :: h.role == role
  {
    if handles == [] then map[]
    else
      var n := |handles| - 1;
      assert handles == handles[..n] + [handles[n]];
      ByRole(handles[..n])[handles[n].role := AsReference(handles[n])]
  }

  /** Nine handles, each binding its own role and digest, no role twice. */
  function SessionHandles(shapes: Shapes, handles: seq<Handle>): Option<map<Role, Reference>> {
    if |handles| == |ROLES| && (forall h | h in handles :: Binds(shapes, h)) && DistinctRoles(handles)
    then Some(ByRole(handles)) else None
  }

  /** Nine handles, no two of one role, each a digested reference that names its role. */
  ghost predicate AreSessions(shapes: Shapes, handles: seq<Handle>) {
    && |handles| == 9
    && (forall i, j | 0 <= i < j < 9 :: handles[i].role != handles[j].role)
    && forall i | 0 <= i < 9 ::
      && Names(shapes, SessionPrefix(handles[i].role), handles[i].handleRef)
      && handles[i].handleSha256 == shapes.sha(handles[i].handleRef)
  }

  lemma {:induction false} SessionHandlesExactly(shapes: Shapes, handles: seq<Handle>)
    ensures SessionHandles(shapes, handles).Some? <==> AreSessions(shapes, handles)
  {
    hide SessionRole, Names, ByRole;
    RolesAreAll();
    forall i | 0 <= i < |handles|
      ensures Binds(shapes, handles[i])
         <==> && Names(shapes, SessionPrefix(handles[i].role), handles[i].handleRef)
              && handles[i].handleSha256 == shapes.sha(handles[i].handleRef)
    {
      SessionRoleExactly(shapes, handles[i].handleRef, handles[i].role);
    }
    assert forall i | 0 <= i < |handles| :: handles[i] in handles;
  }

  method DeriveSessionHandles(shapes: Shapes, handles: seq<Handle>) returns (r: Option<map<Role, Reference>>)
    ensures r == SessionHandles(shapes, handles)
  {
    hide SessionRole;
    if |handles| != |ROLES| { return None; }
    var derived := BindHandles(shapes, handles);
    if derived.None? { return None; }
    NineDistinctRolesAreAll(RolesOf(handles));
    forall role: Role ensures role in derived.value {
      assert role in RolesOf(handles);
    }
    for i := 0 to |ROLES| {
      if ROLES[i] !in derived.value {
        assert false;  // nine distinct roles leave none out
        return None;
      }
    }
    return derived;
  }

  /** The loop over the handles. */
  method BindHandles(shapes: Shapes, handles: seq<Handle>) returns (r: Option<map<Role, Reference>>)
    ensures r == if (forall h | h in handles :: Binds(shapes, h)) && DistinctRoles(handles)
                 then Some(ByRole(handles)) else None
  {
    hide SessionRole, DistinctRoles, ByRole;
    var derived: map<Role, Reference> := map[];
    var references: set<string> := {};
    NothingTaken(shapes);
    for i := 0 to |handles|
      invariant Taken(shapes, handles[..i], derived, references)
    {
      var h := handles[i];
      assert h in handles;
      assert handles[..i + 1] == handles[..i] + [h];
      if SessionRole(shapes, h.handleRef) != Some(h.role) { return None; }
      if h.role in derived {
        RepeatedRole(shapes, handles, i, derived, references);
        return None;
      }
      if h.handleRef in references {
        SharedReference(shapes, handles[..i], h, derived, references);
        assert false;  // a repeated reference names a role already taken
        return None;
      }
      if h.handleSha256 != shapes.sha(h.handleRef) { return None; }
      TakenGrows(shapes, handles[..i], h, derived, references);
      references := references + {h.handleRef};
      derived := derived[h.role := AsReference(h)];
    }
    assert handles[..|handles|] == handles;
    return Some(derived);
  }

  /** What the loop has collected from the handles seen. */
  ghost predicate Taken(shapes: Shapes, seen: seq<Handle>, derived: map<Role, Reference>, references: set<string>) {
    && (forall h | h in seen :: Binds(shapes, h))
    && DistinctRoles(seen)
    && derived == ByRole(seen)
    && references == (set h | h in seen :: h.handleRef)
  }

  lemma NothingTaken(shapes: Shapes)
    ensures Taken(shapes, [], map[], {})
  {
  }

  lemma TakenGrows(
    shapes: Shapes, seen: seq<Handle>, h: Handle, derived: map<Role, Reference>, references: set<string>)
    requires Taken(shapes, seen, derived, references) && Binds(shapes, h) && h.role !in derived
    ensures Taken(shapes, seen + [h], derived[h.role := AsReference(h)], references + {h.handleRef})
  {
    hide Binds;
    assert (seen + [h])[..|seen|] == seen;
    forall i | 0 <= i < |seen| ensures seen[i].role != h.role {
      assert seen[i] in seen;
    }
  }

  lemma SharedReference(
    shapes: Shapes, seen: seq<Handle>, h: Handle, derived: map<Role, Reference>, references: set<string>)
    requires Taken(shapes, seen, derived, references)
    requires SessionRole(shapes, h.handleRef) == Some(h.role) && h.handleRef in references
    ensures h.role in derived
  {
    hide SessionRole;
  }

  lemma RepeatedRole(
    shapes: Shapes, handles: seq<Handle>, i: nat, derived: map<Role, Reference>, references: set<string>)
    requires i < |handles| && Taken(shapes, handles[..i], derived, references) && handles[i].role in derived
    ensures !DistinctRoles(handles)
  {
    hide Binds;
    var h :| h in handles[..i] && h.role == handles[i].role;
    var j :| 0 <= j < i && handles[j] == h;
  }

  lemma {:induction false} ByRoleMeaning(handles: seq<Handle>)
    requires DistinctRoles(handles)
    ensures forall h | h in handles :: h.role in ByRole(handles)
              && ByRole(handles)[h.role] == AsReference(h)
  {
    if handles != [] {
      var n := |handles| - 1;
      assert handles == handles[..n] + [handles[n]];
      ByRoleMeaning(handles[..n]);
      assert forall h | h in handles[..n] :: h.role != handles[n].role;
    }
  }

  function AsReference(h: Handle): Reference {
    Reference(h.handleRef, h.handleSha256)
  }

  ghost predicate IsOnlyHandle(handles: seq<Handle>, i: int, role: Role) {
    0 <= i < |handles| && handles[i].role == role && forall j | 0 <= j < |handles| && handles[j].role == role :: j == i
  }

  ghost predicate ComesFromOne(handles: seq<Handle>, m: map<Role, Reference>, role: Role) {
    role in m && exists i | 0 <= i < |handles| :: IsOnlyHandle(handles, i, role) && m[role] == AsReference(handles[i])
  }

  /** A derived map is a bijection between the nine roles and the nine handles, each reference naming its role. */
  lemma {:induction false} SessionHandlesBijective(shapes: Shapes, handles: seq<Handle>)
    requires SessionHandles(shapes, handles).Some?
    ensures var m := SessionHandles(shapes, handles).value;
            && (forall role: Role :: role in m && SessionRole(shapes, m[role].ref) == Some(role)
                                     && m[role].sha256 == shapes.sha(m[role].ref))
            && (forall a: Role, b: Role :: a != b ==> m[a].ref != m[b].ref)
            && (forall role: Role :: ComesFromOne(handles, m, role))
  {
    var m := SessionHandles(shapes, handles).value;
    forall role: Role
      ensures ComesFromOne(handles, m, role)
      ensures role in m && SessionRole(shapes, m[role].ref) == Some(role) && m[role].sha256 == shapes.sha(m[role].ref)
    {
      RoleHasOneHandle(shapes, handles, role);
    }
    hide SessionRole, SessionHandles;
  }

  lemma RoleHasOneHandle(shapes: Shapes, handles: seq<Handle>, role: Role)
    requires SessionHandles(shapes, handles).Some?
    ensures var m := SessionHandles(shapes, handles).value;
            ComesFromOne(handles, m, role)
            && SessionRole(shapes, m[role].ref) == Some(role) && m[role].sha256 == shapes.sha(m[role].ref)
  {
    hide SessionRole, ByRole, DistinctRoles, RolesOf;
    NineDistinctRoles(handles);
    RoleIsListed(handles, role);
    ByRoleMeaning(handles);
    var i :| 0 <= i < |handles| && handles[i].role == role;
    OnlyHandle(handles, i);
    assert handles[i] in handles && Binds(shapes, handles[i]);
  }

  lemma RoleIsListed(handles: seq<Handle>, role: Role)
    requires role in RolesOf(handles)
    ensures exists i :: 0 <= i < |handles| && handles[i].role == role
  {
    var i :| 0 <= i < |RolesOf(handles)| && RolesOf(handles)[i] == role;
    assert handles[i].role == role;
  }

  lemma NineDistinctRoles(handles: seq<Handle>)
    requires |handles| == |ROLES| && DistinctRoles(handles)
    ensures forall role: Role :: role in RolesOf(handles)
  {
    NineDistinctRolesAreAll(RolesOf(handles));
  }

  lemma OnlyHandle(handles: seq<Handle>, i: nat)
    requires i < |handles| && DistinctRoles(handles)
    ensures IsOnlyHandle(handles, i, handles[i].role)
  {
  }

  ghost predicate Holds(m: map<Role, Reference>, h: Handle) {
    h.role in m && m[h.role] == AsReference(h)
  }

  /** The record holds a handle exactly when it is among those derived from, and then it is there once. */
  lemma OneHandlePerRole(shapes: Shapes, handles: seq<Handle>, h: Handle)
    requires SessionHandles(shapes, handles).Some?
    ensures multiset(handles)[h] == if Holds(SessionHandles(shapes, handles).value, h) then 1 else 0
  {
    RoleHasOneHandle(shapes, handles, h.role);
    ByRoleMeaning(handles);
    DistinctRolesDistinctHandles(handles, h);
    hide SessionRole, ByRole, ROLES;
  }

  lemma {:induction false} DistinctRolesDistinctHandles(handles: seq<Handle>, h: Handle)
    requires DistinctRoles(handles)
    ensures multiset(handles)[h] == if h in handles then 1 else 0
  {
    if handles != [] {
      var n := |handles| - 1;
      assert handles == handles[..n] + [handles[n]];
      DistinctRolesDistinctHandles(handles[..n], h);
      assert handles[n] !in handles[..n];
    }
  }

  /** Two lists of handles derive the same record exactly when one is a reordering of the other. */
  lemma {:induction false} SessionHandlesForgetOrder(shapes: Shapes, a: seq<Handle>, b: seq<Handle>)
    requires SessionHandles(shapes, a).Some? && SessionHandles(shapes, b).Some?
    ensures SessionHandles(shapes, a) == SessionHandles(shapes, b) <==> multiset(a) == multiset(b)
  {
    hide SessionHandles, SessionRole, ROLES;
    var m, n := SessionHandles(shapes, a).value, SessionHandles(shapes, b).value;
    forall h ensures multiset(a)[h] == (if Holds(m, h) then 1 else 0)
             ensures multiset(b)[h] == (if Holds(n, h) then 1 else 0) {
      OneHandlePerRole(shapes, a, h);
      OneHandlePerRole(shapes, b, h);
    }
    AllRolesPresent(shapes, a);
    AllRolesPresent(shapes, b);
    if multiset(a) == multiset(b) {
      forall role: Role ensures m[role] == n[role] {
        var h := Handle(role, m[role].ref, m[role].sha256);
        assert Holds(m, h) && multiset(a)[h] == multiset(b)[h];
      }
      assert m == n;
    }
  }

  lemma AllRolesPresent(shapes: Shapes, handles: seq<Handle>)
    requires SessionHandles(shapes, handles).Some?
    ensures forall role: Role :: role in SessionHandles(shapes, handles).value
  {
    forall role: Role ensures role in SessionHandles(shapes, handles).value {
      RoleHasOneHandle(shapes, handles, role);
    }
    hide SessionHandles;
  }

  // ---------- resource references ----------

  type Bindings = map<Role, seq<string>>

  function Bound(bindings: Bindings, roles: seq<Role>): seq<string>
    requires forall role | role in roles :: role in bindings
  {
    if roles == [] then []
    else Bound(bindings, roles[..|roles| - 1]) + bindings[roles[|roles| - 1]]
  }

  /** Every reference has a kind, no kind has two references. */
  predicate Consistent(shapes: Shapes, refs: seq<string>) {
    && (forall ref | ref in refs :: ResourceKind(shapes, ref).Some?)
    && (forall a, b | a in refs && b in refs ::
          ResourceKind(shapes, a) == ResourceKind(shapes, b) ==> a == b)
  }

  predicate BindsKind(shapes: Shapes, refs: seq<string>, kind: Kind) {
    exists ref | ref in refs :: ResourceKind(shapes, ref) == Some(kind)
  }

  function RefOfKind(shapes: Shapes, refs: seq<string>, kind: Kind): (ref: string)
    requires BindsKind(shapes, refs, kind)
    ensures ref in refs && ResourceKind(shapes, ref) == Some(kind)
  {
    if ResourceKind(shapes, refs[0]) == Some(kind) then refs[0] else RefOfKind(shapes, refs[1..], kind)
  }

  function ManifestEntry(shapes: Shapes, refs: seq<string>, kind: Kind): Resource
    requires BindsKind(shapes, refs, kind)
  {
    var ref := RefOfKind(shapes, refs, kind);
    Resource(kind, ref, shapes.sha(ref))
  }

  function ResourceRefs(shapes: Shapes, bindings: Bindings): Option<seq<Resource>> {
    if exists role | role in ROLES :: role !in bindings then None
    else
      var refs := Bound(bindings, ROLES);
      if !Consistent(shapes, refs) || (exists kind | kind in KINDS :: !BindsKind(shapes, refs, kind)) then None
      else Some(seq(|KINDS|, i requires 0 <= i < |KINDS| => ManifestEntry(shapes, refs, KINDS[i])))
  }

  /** Every role is bound, and of each kind exactly one reference, which names it, is bound to any. */
  ghost predicate AreResources(shapes: Shapes, bindings: Bindings) {
    && (forall role: Role :: role in bindings)
    && (forall role: Role, ref | ref in bindings[role] :: exists kind: Kind :: Names(shapes, ResourcePrefix(kind), ref))
    && forall kind: Kind :: HasOneResource(shapes, bindings, kind)
  }

  ghost predicate HasOneResource(shapes: Shapes, bindings: Bindings, kind: Kind) {
    exists ref :: IsResourceOf(shapes, bindings, kind, ref)
  }

  ghost predicate IsBound(bindings: Bindings, ref: string) {
    exists role: Role :: role in bindings && ref in bindings[role]
  }

  /** This reference is bound and names the kind, and no other does. */
  ghost predicate IsResourceOf(shapes: Shapes, bindings: Bindings, kind: Kind, ref: string) {
    && IsBound(bindings, ref) && Names(shapes, ResourcePrefix(kind), ref)
    && forall other | IsBound(bindings, other) && Names(shapes, ResourcePrefix(kind), other) :: other == ref
  }

  lemma {:induction false} ResourceRefsExactly(shapes: Shapes, bindings: Bindings)
    ensures ResourceRefs(shapes, bindings).Some? <==> AreResources(shapes, bindings)
  {
    hide Names, ResourceKind, ROLES, KINDS;
    RolesAreAll();
    KindsAreAll();
    if forall role: Role :: role in bindings {
      BoundMeaning(bindings, ROLES);
      var refs := Bound(bindings, ROLES);
      assert forall ref :: ref in refs <==> IsBound(bindings, ref);
      forall ref, kind: Kind
        ensures ResourceKind(shapes, ref) == Some(kind) <==> Names(shapes, ResourcePrefix(kind), ref)
      {
        ResourceKindExactly(shapes, ref, kind);
      }
      if ResourceRefs(shapes, bindings).Some? {
        forall kind: Kind ensures HasOneResource(shapes, bindings, kind) {
          assert BindsKind(shapes, refs, kind);
          var ref :| ref in refs && ResourceKind(shapes, ref) == Some(kind);
          assert IsResourceOf(shapes, bindings, kind, ref);
        }
        forall role: Role, ref | ref in bindings[role]
          ensures exists kind: Kind :: Names(shapes, ResourcePrefix(kind), ref)
        {
          assert IsBound(bindings, ref);
          assert Names(shapes, ResourcePrefix(ResourceKind(shapes, ref).value), ref);
        }
      }
      if AreResources(shapes, bindings) {
        forall ref | ref in refs ensures ResourceKind(shapes, ref).Some? {
          var role: Role :| role in bindings && ref in bindings[role];
          var kind: Kind :| Names(shapes, ResourcePrefix(kind), ref);
        }
        forall kind: Kind ensures BindsKind(shapes, refs, kind) {
          assert HasOneResource(shapes, bindings, kind);
          var ref :| IsResourceOf(shapes, bindings, kind, ref);
          assert ref in refs;
        }
        forall a, b | a in refs && b in refs && ResourceKind(shapes, a) == ResourceKind(shapes, b) ensures a == b {
          var kind := ResourceKind(shapes, a).value;
          assert HasOneResource(shapes, bindings, kind);
          var ref :| IsResourceOf(shapes, bindings, kind, ref);
        }
      }
    }
  }

  /** The map of the loops: one entry for each kind seen, and only for those. */
  ghost predicate Collected(shapes: Shapes, seen: seq<string>, references: map<Kind, string>) {
    && (forall ref | ref in seen :: ResourceKind(shapes, ref).Some?
          && ResourceKind(shapes, ref).value in references && references[ResourceKind(shapes, ref).value] == ref)
    && (forall kind | kind in references :: references[kind] in seen
          && ResourceKind(shapes, references[kind]) == Some(kind))
  }

  method CollectBindings(shapes: Shapes, bindings: Bindings) returns (r: Option<map<Kind, string>>)
    ensures r.None? <==>
              || (exists role | role in ROLES :: role !in bindings)
              || !Consistent(shapes, Bound(bindings, ROLES))
    ensures r.Some? ==> Collected(shapes, Bound(bindings, ROLES), r.value)
  {
    hide Collected, Consistent;
    var references: map<Kind, string> := map[];
    assert Bound(bindings, []) == [];
    NothingCollected(shapes);
    for i := 0 to |ROLES|
      invariant forall role | role in ROLES[..i] :: role in bindings
      invariant Collected(shapes, Bound(bindings, ROLES[..i]), references)
    {
      var role := ROLES[i];
      assert role in ROLES;
      assert ROLES[..i + 1] == ROLES[..i] + [role] && ROLES[..i + 1][..i] == ROLES[..i];
      if role !in bindings { return None; }
      var extended := CollectRole(shapes, Bound(bindings, ROLES[..i]), bindings[role], references);
      if extended.None? {
        InconsistencyStays(shapes, bindings, i + 1);
        return None;
      }
      references := extended.value;
    }
    assert ROLES[..|ROLES|] == ROLES;
    CollectedIsConsistent(shapes, Bound(bindings, ROLES), references);
    return Some(references);
  }

  /** The inner loop: the references bound to one role. */
  method CollectRole(shapes: Shapes, ghost seen: seq<string>, listed: seq<string>, references: map<Kind, string>)
    returns (r: Option<map<Kind, string>>)
    requires Collected(shapes, seen, references)
    ensures r.Some? ==> Collected(shapes, seen + listed, r.value)
    ensures r.None? ==> !Consistent(shapes, seen + listed)
  {
    hide ResourceKind, Collected, Consistent;
    var extended := references;
    assert seen + listed[..0] == seen;
    for k := 0 to |listed|
      invariant Collected(shapes, seen + listed[..k], extended)
    {
      var ref := listed[k];
      assert seen + listed[..k + 1] == seen + listed[..k] + [ref];
      var kind := ResourceKind(shapes, ref);
      if kind.None? || (kind.value in extended && extended[kind.value] != ref) {
        ClashShows(shapes, seen + listed[..k], ref, extended, seen + listed);
        return None;
      }
      CollectedGrows(shapes, seen + listed[..k], extended, ref);
      extended := extended[kind.value := ref];
    }
    assert listed[..|listed|] == listed;
    return Some(extended);
  }

  lemma NothingCollected(shapes: Shapes)
    ensures Collected(shapes, [], map[])
  {
  }

  lemma CollectedIsConsistent(shapes: Shapes, seen: seq<string>, references: map<Kind, string>)
    requires Collected(shapes, seen, references)
    ensures Consistent(shapes, seen)
  {
  }

  lemma CollectedGrows(shapes: Shapes, seen: seq<string>, references: map<Kind, string>, ref: string)
    requires Collected(shapes, seen, references) && ResourceKind(shapes, ref).Some?
    requires var kind := ResourceKind(shapes, ref).value; kind in references ==> references[kind] == ref
    ensures Collected(shapes, seen + [ref], references[ResourceKind(shapes, ref).value := ref])
  {
    hide ResourceKind;
  }

  lemma ClashShows(
    shapes: Shapes, seen: seq<string>, ref: string, references: map<Kind, string>, all: seq<string>)
    requires Collected(shapes, seen, references)
    requires ref in all && forall x | x in seen :: x in all
    requires var kind := ResourceKind(shapes, ref);
             kind.None? || (kind.value in references && references[kind.value] != ref)
    ensures !Consistent(shapes, all)
  {
    hide ResourceKind;
  }

  lemma InconsistencyStays(shapes: Shapes, bindings: Bindings, i: nat)
    requires i <= |ROLES| && forall role | role in ROLES[..i] :: role in bindings
    requires !Consistent(shapes, Bound(bindings, ROLES[..i]))
    ensures (exists role | role in ROLES :: role !in bindings) || !Consistent(shapes, Bound(bindings, ROLES))
  {
    if forall role | role in ROLES :: role in bindings {
      BoundGrows(bindings, i);
    }
  }

  lemma {:induction false} BoundGrows(bindings: Bindings, i: nat)
    requires i <= |ROLES| && forall role | role in ROLES :: role in bindings
    ensures forall x | x in Bound(bindings, ROLES[..i]) :: x in Bound(bindings, ROLES)
    decreases |ROLES| - i
  {
    if i == |ROLES| {
      assert ROLES[..i] == ROLES;
    } else {
      BoundGrows(bindings, i + 1);
      assert ROLES[..i + 1][..i] == ROLES[..i];
    }
  }

  method ListKinds(shapes: Shapes, references: map<Kind, string>) returns (r: Option<seq<Resource>>)
    ensures r.None? <==> exists kind | kind in KINDS :: kind !in references
    ensures r.Some? ==> |r.value| == |KINDS| && forall k | 0 <= k < |KINDS| ::
              KINDS[k] in references
              && r.value[k] == Resource(KINDS[k], references[KINDS[k]], shapes.sha(references[KINDS[k]]))
  {
    var resources: seq<Resource> := [];
    for i := 0 to |KINDS|
      invariant |resources| == i
      invariant forall k | 0 <= k < i ::
                  KINDS[k] in references
                  && resources[k] == Resource(KINDS[k], references[KINDS[k]], shapes.sha(references[KINDS[k]]))
    {
      assert KINDS[i] in KINDS;
      if KINDS[i] !in references { return None; }
      var ref := references[KINDS[i]];
      resources := resources + [Resource(KINDS[i], ref, shapes.sha(ref))];
    }
    return Some(resources);
  }

  method DeriveResourceRefs(shapes: Shapes, bindings: Bindings) returns (r: Option<seq<Resource>>)
    ensures r == ResourceRefs(shapes, bindings)
  {
    hide Collected, Consistent, BindsKind, RefOfKind, ResourceKind, Bound;
    var collected := CollectBindings(shapes, bindings);
    if collected.None? { return None; }
    r := ListKinds(shapes, collected.value);
    CollectedKinds(shapes, Bound(bindings, ROLES), collected.value);
    assert r.Some? ==> forall k | 0 <= k < |KINDS| ::
        r.value[k] == ManifestEntry(shapes, Bound(bindings, ROLES), KINDS[k]);
    assert r.Some? ==> r.value == ResourceRefs(shapes, bindings).value;
  }

  lemma CollectedKinds(shapes: Shapes, refs: seq<string>, references: map<Kind, string>)
    requires Collected(shapes, refs, references)
    ensures forall kind :: BindsKind(shapes, refs, kind) <==> kind in references
    ensures forall kind | kind in references :: RefOfKind(shapes, refs, kind) == references[kind]
  {
    forall kind | kind in references ensures BindsKind(shapes, refs, kind) {
      assert references[kind] in refs;
    }
  }

  predicate Lists(m: seq<Resource>, ref: string) {
    exists i | 0 <= i < |m| :: m[i].ref == ref
  }

  /** The manifest holds exactly the references the mapping binds, one of each kind, in the locked order. */
  lemma {:induction false} ManifestIsExactlyTheBindings(shapes: Shapes, bindings: Bindings)
    requires ResourceRefs(shapes, bindings).Some?
    ensures forall role: Role :: role in bindings
    ensures var m := ResourceRefs(shapes, bindings).value;
            && |m| == |KINDS|
            && (forall i | 0 <= i < |m| :: m[i].kind == KINDS[i] && m[i].sha256 == shapes.sha(m[i].ref)
                  && ResourceKind(shapes, m[i].ref) == Some(KINDS[i]))
            && (forall i, j | 0 <= i < j < |m| :: m[i].ref != m[j].ref)
            && (forall ref :: Lists(m, ref) <==> exists role: Role :: ref in bindings[role])
  {
    RolesAreAll();
    KindsAreAll();
    var m := ResourceRefs(shapes, bindings).value;
    var refs := Bound(bindings, ROLES);
    BoundMeaning(bindings, ROLES);
    forall role: Role, ref | ref in bindings[role] ensures Lists(m, ref) {
      var kind := ResourceKind(shapes, ref).value;
      assert kind in KINDS;
      var i :| 0 <= i < |KINDS| && KINDS[i] == kind;
      assert ref in refs && BindsKind(shapes, refs, KINDS[i]);
      assert m[i] == ManifestEntry(shapes, refs, KINDS[i]);
      assert m[i].ref == ref;
    }
    forall i | 0 <= i < |m| ensures exists role: Role :: m[i].ref in bindings[role] {
      assert KINDS[i] in KINDS && BindsKind(shapes, refs, KINDS[i]);
      assert m[i].ref in refs;
    }
  }

  lemma {:induction false} BoundMeaning(bindings: Bindings, roles: seq<Role>)
    requires forall role | role in roles :: role in bindings
    ensures forall ref :: ref in Bound(bindings, roles) <==> exists role | role in roles :: ref in bindings[role]
  {
    if roles != [] {
      var n := |roles| - 1;
      assert roles == roles[..n] + [roles[n]];
      BoundMeaning(bindings, roles[..n]);
    }
  }

  // ---------- the locked order ----------

  /** The position of a kind in the locked list, or the length of the list for an unknown one. */
  function LockedIndex(kind: string, kinds: seq<Kind> := KINDS): (r: nat)
    ensures r <= |kinds|
  {
    if kinds == [] then 0
    else if KindName(kinds[0]) == kind then 0
    else 1 + LockedIndex(kind, kinds[1..])
  }

  /** An element of a reference list as the normaliser sees it: its kind is text and may be unknown. */
  datatype Item = Item(kind: string, ref: string, sha256: string)

  function ItemRank(): Item -> nat {
    (x: Item) => LockedIndex(x.kind)
  }

  function NormalizeResourceRefs(items: seq<Item>): seq<Item> {
    Normalize(ItemRank(), items)
  }

  ghost function AsItem(r: Resource): Item {
    Item(KindName(r.kind), r.ref, r.sha256)
  }

  lemma RankOfKind(kind: Kind)
    ensures 0 <= LockedIndex(KindName(kind)) < |KINDS| && KINDS[LockedIndex(KindName(kind))] == kind
  {
    assert KindName(ContentSchema)[0] == 'c' && KindName(StaffCase)[0] == 's';
    assert KindName(Organization)[0] == 'o' && KindName(Prerequisite)[0] == 'p';
    var name := KindName(kind);
    assert LockedIndex(name, KINDS[3..]) == if KindName(Prerequisite) == name then 0 else 1;
    assert KINDS[2..][1..] == KINDS[3..] && KINDS[1..][1..] == KINDS[2..];
    assert LockedIndex(name, KINDS[2..])
        == if KindName(Organization) == name then 0 else 1 + LockedIndex(name, KINDS[3..]);
    assert LockedIndex(name, KINDS[1..])
        == if KindName(StaffCase) == name then 0 else 1 + LockedIndex(name, KINDS[2..]);
  }

  /** A derived manifest is already in the locked order, and any order of it normalises back to it. */
  lemma {:induction false} DerivedManifestIsNormal(shapes: Shapes, bindings: Bindings, shuffled: seq<Item>)
    requires ResourceRefs(shapes, bindings).Some?
    requires var m := ResourceRefs(shapes, bindings).value;
             multiset(shuffled) == multiset(seq(|m|, i requires 0 <= i < |m| => AsItem(m[i])))
    ensures var m := ResourceRefs(shapes, bindings).value;
            NormalizeResourceRefs(shuffled) == seq(|m|, i requires 0 <= i < |m| => AsItem(m[i]))
  {
    var m := ResourceRefs(shapes, bindings).value;
    var items := seq(|m|, i requires 0 <= i < |m| => AsItem(m[i]));
    ManifestIsExactlyTheBindings(shapes, bindings);
    forall i | 0 <= i < |m| ensures ItemRank()(items[i]) == i {
      RankOfKind(KINDS[i]);
      KindsAreAll();
      var k := LockedIndex(KindName(KINDS[i]));
      assert k < i || i < k || i == k;
    }
    SortedIsNormal(ItemRank(), items);
    SeparateListsAgree(ItemRank(), items, shuffled);
  }
}
