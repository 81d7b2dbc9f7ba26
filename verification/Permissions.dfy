/** Permission checks of a principal, and the target lists derived from them. */
module Permissions {
  import opened Wrappers
  import opened Text

  type Permission = string
  type Uuid = nat

  const NIL: Uuid := 0

  datatype ScopeType = Organization | Environment | Agent

  datatype Definition = Definition(scopes: set<ScopeType>, apiKeyAssignable: bool)

  type Catalog = map<Permission, Definition>

  predicate Supports(catalog: Catalog, p: Permission, scope: ScopeType) {
    p in catalog && scope in catalog[p].scopes
  }

  datatype Grant = Grant(assignmentId: string, projectId: string, environmentId: string, agentId: string, permission: Permission)

  datatype Scope = Scope(orgId: Uuid, agentId: string, projectId: string, environmentId: string)

  datatype Kind = ApiKey | Session | Operator

  datatype Principal = Principal(orgId: Uuid, projectId: string, environmentId: string, kind: Kind, grants: seq<Grant>)

  /** One grant authorizes the operation at the scope. */
  predicate Allows(catalog: Catalog, g: Grant, operation: Permission, scope: Scope) {
    if g.permission != operation then false
    else if operation !in catalog then false
    else if g.projectId == "" && g.environmentId == "" && g.agentId == "" then
      && Supports(catalog, operation, Organization)
      && ((scope.projectId == "" && scope.environmentId == "" && scope.agentId == "")
          || (Supports(catalog, operation, Environment) && scope.projectId != "" && scope.environmentId != ""))
    else if scope.projectId == "" || scope.environmentId == "" || g.projectId != scope.projectId || g.environmentId != scope.environmentId then false
    else if Supports(catalog, operation, Environment) then g.agentId == ""
    else Supports(catalog, operation, Agent) && (g.agentId == "" || (scope.agentId != "" && g.agentId == scope.agentId))
  }

  predicate MatchesEnvironmentScope(a: Principal, scope: Scope) {
    && TrimSpace(scope.projectId) != "" && TrimSpace(scope.environmentId) != ""
    && TrimSpace(a.projectId) == TrimSpace(scope.projectId)
    && TrimSpace(a.environmentId) == TrimSpace(scope.environmentId)
  }

  datatype Reason = UnsupportedPermission | OrganizationMismatch | KeyPermissionNotSupported | KeyScopeMismatch | NoMatchingGrant

  /** What stops the check before any grant is looked at. */
  function Refusal(catalog: Catalog, a: Principal, permission: Permission, scope: Scope): Option<Reason> {
    if permission !in catalog then Some(UnsupportedPermission)
    else if scope.orgId != NIL && a.orgId != NIL && scope.orgId != a.orgId then Some(OrganizationMismatch)
    else if a.kind == ApiKey && !catalog[permission].apiKeyAssignable then Some(KeyPermissionNotSupported)
    else if a.kind == ApiKey && !MatchesEnvironmentScope(a, scope) then Some(KeyScopeMismatch)
    else None
  }

  /** The principal holds the permission at the scope. */
  predicate HasPermission(catalog: Catalog, a: Principal, permission: Permission, scope: Scope) {
    && Refusal(catalog, a, permission, scope).None?
    && exists g :: g in a.grants && Allows(catalog, g, permission, scope)
  }

  // ------------------------------------------ what a permission amounts to

  predicate OrganizationWide(g: Grant) {
    g.projectId == "" && g.environmentId == "" && g.agentId == ""
  }

  predicate AtOrganization(scope: Scope) {
    scope.projectId == "" && scope.environmentId == "" && scope.agentId == ""
  }

  predicate AtEnvironment(scope: Scope) {
    scope.projectId != "" && scope.environmentId != ""
  }

  /** A grant of a permission with these scope types reaches the scope: one for
      the organization reaches it and, for a permission on environments, every
      environment; one for an environment reaches that environment and all its
      agents; one for an agent reaches that agent when the permission is on agents
      only. */
  predicate Reaches(types: set<ScopeType>, g: Grant, scope: Scope) {
    || (OrganizationWide(g) && Organization in types && (AtOrganization(scope) || (AtEnvironment(scope) && Environment in types)))
    || (&& AtEnvironment(scope) && g.projectId == scope.projectId && g.environmentId == scope.environmentId
        && if g.agentId == "" then Environment in types || Agent in types
           else g.agentId == scope.agentId && Agent in types && Environment !in types)
  }

  ghost predicate SomeGrantReaches(types: set<ScopeType>, grants: seq<Grant>, permission: Permission, scope: Scope) {
    exists g :: g in grants && g.permission == permission && Reaches(types, g, scope)
  }

  /** What has to be so for the check not to be denied for this reason. */
  ghost predicate Meets(catalog: Catalog, a: Principal, permission: Permission, scope: Scope, reason: Reason) {
    match reason
    case UnsupportedPermission => permission in catalog
    case OrganizationMismatch => scope.orgId == NIL || a.orgId == NIL || scope.orgId == a.orgId
    case KeyPermissionNotSupported => a.kind == ApiKey ==> permission in catalog && catalog[permission].apiKeyAssignable
    case KeyScopeMismatch => a.kind == ApiKey ==>
      && TrimSpace(scope.projectId) == TrimSpace(a.projectId) != ""
      && TrimSpace(scope.environmentId) == TrimSpace(a.environmentId) != ""
    case NoMatchingGrant => permission in catalog && SomeGrantReaches(catalog[permission].scopes, a.grants, permission, scope)
  }

  /** The order the reasons are looked at. */
  function Position(reason: Reason): nat {
    match reason
    case UnsupportedPermission => 0
    case OrganizationMismatch => 1
    case KeyPermissionNotSupported => 2
    case KeyScopeMismatch => 3
    case NoMatchingGrant => 4
  }

  /** A grant allows exactly what it reaches of a known permission. */
  lemma AllowsIsReach(catalog: Catalog, g: Grant, permission: Permission, scope: Scope)
    ensures Allows(catalog, g, permission, scope) <==>
      permission in catalog && g.permission == permission && Reaches(catalog[permission].scopes, g, scope)
  {
  }

  /** A refusal is the first of its conditions that is not met. */
  lemma RefusalIsTheFirstUnmet(catalog: Catalog, a: Principal, permission: Permission, scope: Scope)
    ensures var refusal := Refusal(catalog, a, permission, scope);
            && (refusal.Some? ==>
                  && refusal.value != NoMatchingGrant && !Meets(catalog, a, permission, scope, refusal.value)
                  && forall r :: Position(r) < Position(refusal.value) ==> Meets(catalog, a, permission, scope, r))
            && (refusal.None? ==> forall r :: r != NoMatchingGrant ==> Meets(catalog, a, permission, scope, r))
  {
  }

  lemma GrantIsMet(catalog: Catalog, a: Principal, permission: Permission, scope: Scope)
    requires permission in catalog
    ensures Meets(catalog, a, permission, scope, NoMatchingGrant) <==> exists g :: g in a.grants && Allows(catalog, g, permission, scope)
  {
    forall g | g in a.grants
      ensures Allows(catalog, g, permission, scope) <==> g.permission == permission && Reaches(catalog[permission].scopes, g, scope)
    {
      AllowsIsReach(catalog, g, permission, scope);
    }
  }

  /** A principal has a permission exactly when every condition is met: the
      permission is known, the organizations agree where both are set, a key has
      an assignable permission in its own environment, and a grant reaches the
      scope. */
  lemma PermissionExactly(catalog: Catalog, a: Principal, permission: Permission, scope: Scope)
    ensures HasPermission(catalog, a, permission, scope) <==> forall r :: Meets(catalog, a, permission, scope, r)
  {
    RefusalIsTheFirstUnmet(catalog, a, permission, scope);
    if permission in catalog {
      GrantIsMet(catalog, a, permission, scope);
    } else {
      assert !Meets(catalog, a, permission, scope, UnsupportedPermission);
    }
  }

  datatype Evaluation = Passed(evidence: Grant) | Denied(reason: Reason)

  ghost predicate FirstAllowing(catalog: Catalog, a: Principal, permission: Permission, scope: Scope, k: nat) {
    && k < |a.grants| && Allows(catalog, a.grants[k], permission, scope)
    && forall j :: 0 <= j < k ==> !Allows(catalog, a.grants[j], permission, scope)
  }

  /** Checks a permission: the first grant that allows it is the evidence. */
  method Evaluate(catalog: Catalog, a: Principal, permission: Permission, scope: Scope) returns (check: Evaluation)
    ensures check.Passed? <==> HasPermission(catalog, a, permission, scope)
    ensures check.Denied? ==>
      && !Meets(catalog, a, permission, scope, check.reason)
      && forall r :: Position(r) < Position(check.reason) ==> Meets(catalog, a, permission, scope, r)
    ensures check.Passed? ==> exists k: nat :: FirstAllowing(catalog, a, permission, scope, k) && a.grants[k] == check.evidence
    ensures check.Passed? ==>
      permission in catalog && check.evidence.permission == permission && Reaches(catalog[permission].scopes, check.evidence, scope)
  {
    RefusalIsTheFirstUnmet(catalog, a, permission, scope);
    var refusal := Refusal(catalog, a, permission, scope);
    if refusal.Some? {
      return Denied(refusal.value);
    }
    var i := 0;
    while i < |a.grants|
      invariant 0 <= i <= |a.grants|
      invariant forall j :: 0 <= j < i ==> !Allows(catalog, a.grants[j], permission, scope)
    {
      if Allows(catalog, a.grants[i], permission, scope) {
        assert FirstAllowing(catalog, a, permission, scope, i);
        AllowsIsReach(catalog, a.grants[i], permission, scope);
        return Passed(a.grants[i]);
      }
      i := i + 1;
    }
    GrantIsMet(catalog, a, permission, scope);
    return Denied(NoMatchingGrant);
  }

  /** The grant applies to the scope: it is for the whole organization, or it
      names this environment and either no agent or this one. */
  predicate Covers(g: Grant, scope: Scope) {
    || (g.projectId == "" && g.environmentId == "" && g.agentId == "")
    || (g.projectId == scope.projectId && g.environmentId == scope.environmentId && (g.agentId == "" || g.agentId == scope.agentId))
  }

  /** A permission never reaches beyond the scope of a grant that carries it, nor
      into another organization, nor a key beyond its environment and the
      permissions keys may have. */
  lemma PermissionStaysInScope(catalog: Catalog, a: Principal, permission: Permission, scope: Scope)
    requires HasPermission(catalog, a, permission, scope)
    ensures exists g :: g in a.grants && g.permission == permission && Covers(g, scope)
    ensures scope.orgId == NIL || a.orgId == NIL || scope.orgId == a.orgId
    ensures a.kind == ApiKey ==> catalog[permission].apiKeyAssignable && MatchesEnvironmentScope(a, scope)
  {
    var g :| g in a.grants && Allows(catalog, g, permission, scope);
    assert Covers(g, scope);
  }

  /** What two lists of grants permit together is what either permits: order and
      repetition do not matter and no grant takes anything away. */
  lemma PermissionIsAUnion(catalog: Catalog, a: Principal, more: seq<Grant>, permission: Permission, scope: Scope)
    ensures HasPermission(catalog, a.(grants := a.grants + more), permission, scope) <==>
            HasPermission(catalog, a, permission, scope) || HasPermission(catalog, a.(grants := more), permission, scope)
  {
    var both := a.(grants := a.grants + more);
    assert forall g :: g in both.grants <==> g in a.grants || g in more;
    assert Refusal(catalog, both, permission, scope) == Refusal(catalog, a, permission, scope);
    assert Refusal(catalog, a.(grants := more), permission, scope) == Refusal(catalog, a, permission, scope);
  }

  // --------------------------------------------------------- agent targets

  /** Grant `k` names agent `id` in a spelling that passes the check. */
  predicate Targets(catalog: Catalog, parse: string -> Option<Uuid>, a: Principal, permission: Permission, scope: Scope, k: nat, id: Uuid) {
    && k < |a.grants| && a.grants[k].agentId != ""
    && parse(a.grants[k].agentId) == Some(id)
    && HasPermission(catalog, a, permission, scope.(agentId := a.grants[k].agentId))
  }

  predicate NoDuplicates(ids: seq<Uuid>) {
    forall i, j :: 0 <= i < j < |ids| ==> ids[i] != ids[j]
  }

  /** The agents a principal may act on: all of them, and those named. */
  ghost predicate IsAgentScope(catalog: Catalog, parse: string -> Option<Uuid>, a: Principal, permission: Permission, scope: Scope,
                               all: bool, ids: seq<Uuid>) {
    && all == HasPermission(catalog, a, permission, scope.(agentId := ""))
    && NoDuplicates(ids)
    && forall id :: id in ids <==> exists k: nat :: Targets(catalog, parse, a, permission, scope, k, id)
  }

  method AgentPermissionScope(catalog: Catalog, parse: string -> Option<Uuid>, a: Principal, permission: Permission, scope: Scope)
    returns (all: bool, ids: seq<Uuid>)
    ensures IsAgentScope(catalog, parse, a, permission, scope, all, ids)
  {
    all := HasPermission(catalog, a, permission, scope.(agentId := ""));
    ids := [];
    var seen: set<Uuid>, i := {}, 0;
    while i < |a.grants|
      invariant 0 <= i <= |a.grants| && NoDuplicates(ids)
      invariant forall id :: id in seen <==> id in ids
      invariant forall id :: id in ids <==> exists k :: 0 <= k < i && Targets(catalog, parse, a, permission, scope, k, id)
    {
      var agent := a.grants[i].agentId;
      if agent != "" && parse(agent).Some? && parse(agent).value !in seen {
        var id := parse(agent).value;
        if HasPermission(catalog, a, permission, scope.(agentId := agent)) {
          assert Targets(catalog, parse, a, permission, scope, i, id);
          ids := ids + [id];
          seen := seen + {id};
        }
      }
      i := i + 1;
    }
  }

  /** A spelling that `show` gives back for the identifier it parses to. */
  ghost predicate Canonical(parse: string -> Option<Uuid>, show: Uuid -> string, s: string) {
    parse(s).Some? ==> s == show(parse(s).value)
  }

  /** Without the agent, a grant allows what it allows for every agent; with it,
      only a grant naming that very spelling allows more. */
  lemma AllowsAgent(catalog: Catalog, g: Grant, permission: Permission, scope: Scope, agent: string)
    requires scope.projectId != "" && scope.environmentId != "" && agent != ""
    ensures Allows(catalog, g, permission, scope.(agentId := ""))
            ==> Allows(catalog, g, permission, scope.(agentId := agent))
    ensures Allows(catalog, g, permission, scope.(agentId := agent))
            ==> Allows(catalog, g, permission, scope.(agentId := "")) || g.agentId == agent
  {
  }

  lemma RefusalIgnoresAgent(catalog: Catalog, a: Principal, permission: Permission, scope: Scope, agent: string)
    ensures Refusal(catalog, a, permission, scope.(agentId := agent)) == Refusal(catalog, a, permission, scope)
  {
  }

  /** For any spelling of an agent, passing the check puts the agent in the
      list; and an agent in the list passes in some spelling its grants use. */
  lemma AgentScopeCoversEverySpelling(catalog: Catalog, parse: string -> Option<Uuid>, a: Principal, permission: Permission,
                                      scope: Scope, all: bool, ids: seq<Uuid>, agent: string)
    requires IsAgentScope(catalog, parse, a, permission, scope, all, ids)
    requires scope.projectId != "" && scope.environmentId != "" && agent != "" && parse(agent).Some?
    ensures HasPermission(catalog, a, permission, scope.(agentId := agent)) ==> all || parse(agent).value in ids
    ensures all ==> HasPermission(catalog, a, permission, scope.(agentId := agent))
  {
    RefusalIgnoresAgent(catalog, a, permission, scope, agent);
    RefusalIgnoresAgent(catalog, a, permission, scope, "");
    if HasPermission(catalog, a, permission, scope.(agentId := agent)) {
      var k :| 0 <= k < |a.grants| && Allows(catalog, a.grants[k], permission, scope.(agentId := agent));
      AllowsAgent(catalog, a.grants[k], permission, scope, agent);
      if a.grants[k].agentId == agent {
        assert Targets(catalog, parse, a, permission, scope, k, parse(agent).value);
      }
    }
    if all {
      var g :| g in a.grants && Allows(catalog, g, permission, scope.(agentId := ""));
      AllowsAgent(catalog, g, permission, scope, agent);
    }
  }

  /** With project and environment set and canonical identifiers, the pointwise
      check for an agent holds exactly when the list has all or has the agent. */
  lemma AgentScopeIsPointwise(catalog: Catalog, parse: string -> Option<Uuid>, show: Uuid -> string, a: Principal,
                              permission: Permission, scope: Scope, all: bool, ids: seq<Uuid>, id: Uuid)
    requires IsAgentScope(catalog, parse, a, permission, scope, all, ids)
    requires scope.projectId != "" && scope.environmentId != ""
    requires show(id) != "" && parse(show(id)) == Some(id)
    requires forall g :: g in a.grants ==> Canonical(parse, show, g.agentId)
    ensures HasPermission(catalog, a, permission, scope.(agentId := show(id))) <==> all || id in ids
  {
    AgentScopeCoversEverySpelling(catalog, parse, a, permission, scope, all, ids, show(id));
    if id in ids {
      var k: nat :| Targets(catalog, parse, a, permission, scope, k, id);
      assert Canonical(parse, show, a.grants[k].agentId);
    }
  }

  /** The grant gives the permission on one agent of the environment. */
  predicate Names(g: Grant, permission: Permission, scope: Scope) {
    && g.permission == permission && g.agentId != ""
    && g.projectId == scope.projectId && g.environmentId == scope.environmentId
  }

  /** The permission is granted on agents and not on environments. */
  predicate OnAgentsOnly(catalog: Catalog, permission: Permission) {
    Supports(catalog, permission, Agent) && !Supports(catalog, permission, Environment)
  }

  /** Short of authority over all agents, the check passes for a spelling exactly
      when a grant uses that spelling. */
  lemma SpellingPasses(catalog: Catalog, a: Principal, permission: Permission, scope: Scope, agent: string)
    requires scope.projectId != "" && scope.environmentId != "" && agent != ""
    requires !HasPermission(catalog, a, permission, scope.(agentId := ""))
    ensures HasPermission(catalog, a, permission, scope.(agentId := agent)) <==>
      && Refusal(catalog, a, permission, scope).None? && OnAgentsOnly(catalog, permission)
      && exists g :: g in a.grants && Names(g, permission, scope) && g.agentId == agent
  {
    RefusalIgnoresAgent(catalog, a, permission, scope, agent);
    RefusalIgnoresAgent(catalog, a, permission, scope, "");
    forall g | g in a.grants && Refusal(catalog, a, permission, scope).None?
      ensures Allows(catalog, g, permission, scope.(agentId := agent)) <==>
        OnAgentsOnly(catalog, permission) && Names(g, permission, scope) && g.agentId == agent
    {
      AllowsAgent(catalog, g, permission, scope, agent);
    }
  }

  /** The list has an agent exactly when a grant names it in any spelling. */
  lemma ListedMeansNamed(catalog: Catalog, parse: string -> Option<Uuid>, a: Principal, permission: Permission, scope: Scope,
                         all: bool, ids: seq<Uuid>, id: Uuid)
    requires IsAgentScope(catalog, parse, a, permission, scope, all, ids) && !all
    requires scope.projectId != "" && scope.environmentId != ""
    ensures id in ids <==>
      && Refusal(catalog, a, permission, scope).None? && OnAgentsOnly(catalog, permission)
      && exists g :: g in a.grants && Names(g, permission, scope) && parse(g.agentId) == Some(id)
  {
    if id in ids {
      var k: nat :| Targets(catalog, parse, a, permission, scope, k, id);
      SpellingPasses(catalog, a, permission, scope, a.grants[k].agentId);
    }
    forall k: nat | k < |a.grants| && Names(a.grants[k], permission, scope) && parse(a.grants[k].agentId) == Some(id)
      ensures Refusal(catalog, a, permission, scope).None? && OnAgentsOnly(catalog, permission) ==>
        Targets(catalog, parse, a, permission, scope, k, id)
    {
      SpellingPasses(catalog, a, permission, scope, a.grants[k].agentId);
      assert a.grants[k] in a.grants;
    }
  }

  /** For any spelling of an agent, list and check agree exactly when the check is
      refused outright, the permission is not one on agents only, all agents are
      permitted, some grant uses this very spelling, or none names the agent. */
  lemma SpellingAgreesExactly(catalog: Catalog, parse: string -> Option<Uuid>, a: Principal, permission: Permission, scope: Scope,
                              all: bool, ids: seq<Uuid>, agent: string, id: Uuid)
    requires IsAgentScope(catalog, parse, a, permission, scope, all, ids)
    requires scope.projectId != "" && scope.environmentId != "" && agent != "" && parse(agent) == Some(id)
    ensures (HasPermission(catalog, a, permission, scope.(agentId := agent)) <==> all || id in ids) <==>
      || Refusal(catalog, a, permission, scope).Some? || !OnAgentsOnly(catalog, permission) || all
      || (exists g :: g in a.grants && Names(g, permission, scope) && g.agentId == agent)
      || !(exists g :: g in a.grants && Names(g, permission, scope) && parse(g.agentId) == Some(id))
  {
    if all {
      AgentScopeCoversEverySpelling(catalog, parse, a, permission, scope, all, ids, agent);
    } else {
      SpellingPasses(catalog, a, permission, scope, agent);
      ListedMeansNamed(catalog, parse, a, permission, scope, all, ids, id);
    }
  }

  /** Another spelling of a granted agent is refused: with a canonical grant, the
      list has the agent while the check of any other spelling of it fails. */
  lemma OtherSpellingsAreRefused(catalog: Catalog, parse: string -> Option<Uuid>, show: Uuid -> string, scope: Scope,
                                 permission: Permission, other: string, id: Uuid, all: bool, ids: seq<Uuid>)
    requires permission in catalog && catalog[permission].scopes == {Agent}
    requires scope.projectId != "" && scope.environmentId != ""
    requires show(id) != "" && other != "" && other != show(id) && parse(show(id)) == parse(other) == Some(id)
    requires IsAgentScope(catalog, parse, GrantedOn(scope, show(id), permission), permission, scope, all, ids)
    ensures id in ids && !all
    ensures HasPermission(catalog, GrantedOn(scope, show(id), permission), permission, scope.(agentId := show(id)))
    ensures !HasPermission(catalog, GrantedOn(scope, show(id), permission), permission, scope.(agentId := other))
  {
    var a := GrantedOn(scope, show(id), permission);
    assert a.grants[0] in a.grants && Names(a.grants[0], permission, scope);
    SpellingPasses(catalog, a, permission, scope, show(id));
    SpellingPasses(catalog, a, permission, scope, other);
    ListedMeansNamed(catalog, parse, a, permission, scope, all, ids, id);
  }

  /** A session principal with one grant on one agent. */
  function GrantedOn(scope: Scope, agent: string, permission: Permission): Principal {
    Principal(scope.orgId, "", "", Session, [Grant("", scope.projectId, scope.environmentId, agent, permission)])
  }

  // --------------------------------------------------------- audit targets

  const AUDIT_EVENTS_READ: Permission := "audit_events.read"

  function EnvironmentScope(a: Principal, g: Grant): Scope {
    Scope(a.orgId, "", g.projectId, g.environmentId)
  }

  /** Grant `k` names environment `id` where the audit check passes. */
  predicate AuditTargets(catalog: Catalog, parse: string -> Option<Uuid>, a: Principal, k: nat, id: Uuid) {
    && k < |a.grants| && parse(a.grants[k].environmentId) == Some(id) && id != NIL
    && HasPermission(catalog, a, AUDIT_EVENTS_READ, EnvironmentScope(a, a.grants[k]))
  }

  ghost predicate IsAuditScope(catalog: Catalog, parse: string -> Option<Uuid>, a: Principal, all: bool, ids: seq<Uuid>) {
    && all == (a.orgId != NIL && HasPermission(catalog, a, AUDIT_EVENTS_READ, Scope(a.orgId, "", "", "")))
    && NoDuplicates(ids)
    && forall id :: id in ids <==>
         a.orgId != NIL && !all && exists k: nat :: AuditTargets(catalog, parse, a, k, id)
  }

  method AuditScope(catalog: Catalog, parse: string -> Option<Uuid>, a: Principal) returns (all: bool, ids: seq<Uuid>)
    ensures IsAuditScope(catalog, parse, a, all, ids)
  {
    ids := [];
    if a.orgId == NIL {
      return false, ids;
    }
    all := HasPermission(catalog, a, AUDIT_EVENTS_READ, Scope(a.orgId, "", "", ""));
    if all {
      return;
    }
    var seen: set<Uuid>, i := {}, 0;
    while i < |a.grants|
      invariant 0 <= i <= |a.grants| && NoDuplicates(ids)
      invariant forall id :: id in seen <==> id in ids
      invariant forall id :: id in ids <==> exists k :: 0 <= k < i && AuditTargets(catalog, parse, a, k, id)
    {
      var g := a.grants[i];
      var id := parse(g.environmentId);
      if id.Some? && id.value != NIL && id.value !in seen {
        if HasPermission(catalog, a, AUDIT_EVENTS_READ, EnvironmentScope(a, g)) {
          assert AuditTargets(catalog, parse, a, i, id.value);
          ids := ids + [id.value];
          seen := seen + {id.value};
        }
      }
      i := i + 1;
    }
  }

  /** For a principal in an organization whose grants put each environment in one
      project, and, if it is an API key, all name an environment: the audit check
      of an environment holds exactly when the list is organization-wide or has the
      environment. */
  lemma AuditScopeIsPointwise(catalog: Catalog, parse: string -> Option<Uuid>, show: Uuid -> string, a: Principal,
                              all: bool, ids: seq<Uuid>, project: string, id: Uuid)
    requires IsAuditScope(catalog, parse, a, all, ids)
    requires Supports(catalog, AUDIT_EVENTS_READ, Organization) && Supports(catalog, AUDIT_EVENTS_READ, Environment)
    requires a.orgId != NIL && id != NIL
    requires a.kind == ApiKey ==> forall g :: g in a.grants ==> g.environmentId != ""
    requires project != "" && show(id) != "" && parse(show(id)) == Some(id)
    requires forall g :: g in a.grants ==> Canonical(parse, show, g.environmentId)
    requires forall g :: g in a.grants && g.environmentId == show(id) ==> g.projectId == project
    ensures HasPermission(catalog, a, AUDIT_EVENTS_READ, Scope(a.orgId, "", project, show(id))) <==> all || id in ids
  {
    var scope := Scope(a.orgId, "", project, show(id));
    if HasPermission(catalog, a, AUDIT_EVENTS_READ, scope) {
      var k :| 0 <= k < |a.grants| && Allows(catalog, a.grants[k], AUDIT_EVENTS_READ, scope);
      if a.grants[k].environmentId == show(id) {
        assert AuditTargets(catalog, parse, a, k, id);
      } else {
        assert Allows(catalog, a.grants[k], AUDIT_EVENTS_READ, Scope(a.orgId, "", "", ""));
      }
    }
    if all {
      var g :| g in a.grants && Allows(catalog, g, AUDIT_EVENTS_READ, Scope(a.orgId, "", "", ""));
      assert Allows(catalog, g, AUDIT_EVENTS_READ, scope);
    }
    if id in ids {
      var k: nat :| AuditTargets(catalog, parse, a, k, id);
      assert Canonical(parse, show, a.grants[k].environmentId);
    }
  }
}
