/** Service resources do not disturb each other's decisions, and menus disturb none. */
module Noninterference {
  import opened Wrappers
  import opened Text
  import opened Sorting
  import opened PolicyModel
  import opened Eval
  import opened Tables
  import opened PolicyRepo
  import opened Rbac
  import opened PolicyMachine
  import opened DecisionPoint

  // ---- steps confined to other scopes ------------------------------------------------------

  /** The scope of the policy row that the next statement of a call writes, if it writes one. */
  ghost function WrittenScope(t: Tables, c: Call): Option<string> {
    if c.Writing? then Some(WrittenRow(t, c.value, c.create).scope)
    else if c.Started? && c.req.DeleteReq? && c.req.id in t.policies then Some(t.policies[c.req.id].scope)
    else None
  }

  predicate EndpointIn(t: Tables, e: Uuid, scope: string) {
    e in t.endpoints && t.endpoints[e].scope == scope
  }

  /** A step of the other services that stays out of a scope; menu and grant steps always do. */
  ghost predicate StepOutside(t: Tables, step: Step, scope: string) {
    match step
    case RoleCreated(_, s, _, _, _) => Trim(s) != scope
    case RoleUpdated(id, _, _, _, _) => !InScope(t, Trim(id), scope)
    case RoleDeleted(id) => !InScope(t, Trim(id), scope)
    case RolesAssigned(_, s, _) => Trim(s) != scope
    case EndpointCreated(_, row) => Trim(row.scope) != scope
    case EndpointUpdated(e, _) => !EndpointIn(t, e, scope)
    case EndpointDeleted(e) => !EndpointIn(t, e, scope)
    case CatalogChanged(s, _) => s != scope
    case CatalogDeleted(s) => s != scope
    case _ => true
  }

  ghost predicate Outside(w: World, e: Event, scope: string) {
    match e
    case Proceed(k) => k in w.calls ==> WrittenScope(w.tables, w.calls[k]) != Some(scope)
    case Elsewhere(step) => StepOutside(w.tables, step, scope)
    case _ => true
  }

  ghost predicate AllOutside(w: World, events: seq<Event>, scope: string) {
    events == []
    || (AllOutside(w, events[..|events| - 1], scope)
        && Outside(After(w, events[..|events| - 1]), events[|events| - 1], scope))
  }

  // ---- what a scope's decisions see --------------------------------------------------------

  ghost predicate InView(t: Tables, p: Uuid, scope: string) {
    p in View(t) && View(t)[p].serviceResource == scope
  }

  ghost predicate SamePolicy(t: Tables, t': Tables, p: Uuid, scope: string) {
    (InView(t, p, scope) <==> InView(t', p, scope)) && (InView(t, p, scope) ==> View(t)[p] == View(t')[p])
  }

  ghost predicate SamePolicies(t: Tables, t': Tables, scope: string) {
    forall p :: SamePolicy(t, t', p, scope)
  }

  ghost predicate SameEndpoints(t: Tables, t': Tables, scope: string) {
    forall e :: (EndpointIn(t, e, scope) <==> EndpointIn(t', e, scope))
                && (EndpointIn(t, e, scope) ==> t.endpoints[e] == t'.endpoints[e])
  }

  ghost predicate SameRoles(t: Tables, t': Tables, scope: string) {
    forall r :: (InScope(t, r, scope) <==> InScope(t', r, scope))
        && (InScope(t, r, scope) ==> t.roles[r] == t'.roles[r])
  }

  ghost predicate HoldsRole(t: Tables, u: string, r: string) {
    (u, r) in t.userRoles && t.userRoles[(u, r)]
  }

  ghost predicate SameAssignments(t: Tables, t': Tables, scope: string) {
    forall u, r | InScope(t, r, scope) :: HoldsRole(t, u, r) <==> HoldsRole(t', u, r)
  }

  ghost predicate SameCatalog(t: Tables, t': Tables, scope: string) {
    (scope in t.catalog <==> scope in t'.catalog) && (scope in t.catalog ==> t.catalog[scope] == t'.catalog[scope])
  }

  ghost predicate SameScope(t: Tables, t': Tables, scope: string) {
    && SamePolicies(t, t', scope) && SameEndpoints(t, t', scope) && SameRoles(t, t', scope)
    && SameAssignments(t, t', scope) && SameCatalog(t, t', scope)
  }

  lemma SameScopeTransitive(a: Tables, b: Tables, c: Tables, scope: string)
    requires SameScope(a, b, scope) && SameScope(b, c, scope)
    ensures SameScope(a, c, scope)
  {
    hide View, HoldsRole;
    forall p ensures SamePolicy(a, c, p, scope) {
      assert SamePolicy(a, b, p, scope) && SamePolicy(b, c, p, scope);
    }
    forall u, r | InScope(a, r, scope) ensures HoldsRole(a, u, r) <==> HoldsRole(c, u, r) {
      assert InScope(b, r, scope);
    }
  }

  // ---- equal views, equal decisions --------------------------------------------------------

  lemma SameKeys(t: Tables, t': Tables, scope: string, endpoint: Uuid)
    requires SamePolicies(t, t', scope)
    ensures ViewKeys(View(t), scope, endpoint) == ViewKeys(View(t'), scope, endpoint)
  {
    hide View;
    forall key ensures key in ViewKeys(View(t), scope, endpoint) <==> key in ViewKeys(View(t'), scope, endpoint) {
      assert SamePolicy(t, t', key.1, scope);
    }
  }

  lemma SameListed(t: Tables, t': Tables, scope: string, endpoint: Uuid)
    requires TablesOk(t) && TablesOk(t') && SamePolicies(t, t', scope)
    ensures Listed(t, scope, endpoint) == Listed(t', scope, endpoint)
  {
    hide View, TablesOk, Listed;
    ListedIsView(t, scope, endpoint);
    ListedIsView(t', scope, endpoint);
    SameKeys(t, t', scope, endpoint);
    var keys := ViewInOrder(View(t), scope, endpoint);
    assert keys == ViewInOrder(View(t'), scope, endpoint);
    var listed, listed' := Pick(View(t), keys), Pick(View(t'), keys);
    forall i | 0 <= i < |keys| ensures listed[i] == listed'[i] {
      assert keys[i] in keys && SamePolicy(t, t', keys[i].1, scope);
    }
    assert listed == listed';
  }

  lemma SameHeld(t: Tables, t': Tables, u: string, scope: string)
    requires SameRoles(t, t', scope) && SameAssignments(t, t', scope)
    ensures HeldRoles(t, u, scope) == HeldRoles(t', u, scope)
  {
    forall key ensures key in HeldRoles(t, u, scope) <==> key in HeldRoles(t', u, scope) {
      var r := key.1;
      assert InScope(t, r, scope) <==> InScope(t', r, scope);
      if InScope(t, r, scope) {
        assert HoldsRole(t, u, r) <==> HoldsRole(t', u, r);
      }
    }
  }

  lemma SameTrustedRoles(t: Tables, t': Tables, u: string, scope: string)
    requires Trimmed(scope) && SameRoles(t, t', scope) && SameAssignments(t, t', scope)
    ensures RoleIDsOf(t, u, scope) == RoleIDsOf(t', u, scope)
  {
    TrimIsTrimmed(scope);
    if ValidID(u).Success? {
      SameHeld(t, t', ValidID(u).value, scope);
    }
    hide HeldRoles;
  }

  /** For an endpoint of the scope, the decision is a function of what the scope contains. */
  lemma SameScopeSameDecision(t: Tables, t': Tables, scope: string, request: Input)
    requires TablesOk(t) && TablesOk(t') && SameScope(t, t', scope)
    requires Trim(request.serviceResource) == scope && EndpointIn(t, request.resource.endpointID, scope)
    ensures Decide(t, request) == Decide(t', request)
  {
    hide TablesOk, Listed, RoleIDsOf, Evaluation, Trim, Trimmed, SamePolicies, SameRoles, SameAssignments;
    var input := TrimInput(request);
    TrimIsTrimmed(request.serviceResource);
    TrimIsTrimmed(scope);
    SameTrustedRoles(t, t', input.subject.id, scope);
    SameListed(t, t', scope, input.resource.endpointID);
    assert EndpointIn(t', input.resource.endpointID, scope);
    assert SameCatalog(t, t', scope);
  }

  // ---- confined steps keep the view --------------------------------------------------------

  /** A policy whose row and version rows are untouched looks the same. */
  lemma UntouchedPolicy(t: Tables, t': Tables, p: Uuid, scope: string)
    requires p in t.policies <==> p in t'.policies
    requires p in t.policies ==> t'.policies[p] == t.policies[p]
    requires t'.versions == t.versions
    ensures SamePolicy(t, t', p, scope)
  {
    hide LoadVersion;
  }

  lemma OutsideRowKeeps(t: Tables, t': Tables, id: Uuid, scope: string)
    requires TablesOk(t) && TablesOk(t') && t'.versions == t.versions
    requires forall p :: p != id ==>
               (p in t.policies <==> p in t'.policies) && (p in t.policies ==> t'.policies[p] == t.policies[p])
    requires id in t.policies ==> t.policies[id].scope != scope
    requires id in t'.policies ==> t'.policies[id].scope != scope
    ensures SamePolicies(t, t', scope)
  {
    forall p ensures SamePolicy(t, t', p, scope) {
      if p != id {
        UntouchedPolicy(t, t', p, scope);
      } else {
        if p in View(t) {
          ViewAgrees(t, p);
        }
        if p in View(t') {
          ViewAgrees(t', p);
        }
      }
    }
  }

  lemma WriteOutsideKeeps(t: Tables, c: Call, scope: string)
    requires TablesOk(t) && CallOk(t, c) && WrittenScope(t, c) != Some(scope)
    ensures SamePolicies(t, Advance(t, c).0, scope)
  {
    hide TablesOk, CallOk, View, Advance, Saved, SoftDeleted, SaveError, LivePolicy, SamePolicies, WrittenScope;
    AdvanceKeeps(t, c);
    if !WritesRow(t, c) {
      OtherStatementsInvisible(t, c);
      SameViewSamePolicies(t, Advance(t, c).0, scope);
      return;
    }
    RowWritten(t, c);
    if c.Writing? {
      SaveOutside(t, c.value, c.create, scope);
    } else {
      DeleteOutside(t, c.req.id, scope);
    }
  }

  lemma SameViewSamePolicies(t: Tables, t': Tables, scope: string)
    requires View(t) == View(t')
    ensures SamePolicies(t, t', scope)
  {
    hide View;
    assert forall p :: InView(t, p, scope) == InView(t', p, scope);
  }

  lemma RowWritten(t: Tables, c: Call)
    requires WritesRow(t, c)
    ensures c.Writing? ==> Advance(t, c).0 == Saved(t, c.value, c.create)
    ensures !c.Writing? ==> c.Started? && c.req.DeleteReq? && LivePolicy(t, c.req.id)
                            && Advance(t, c).0 == SoftDeleted(t, c.req.id)
    ensures WrittenScope(t, c) == if c.Writing? then Some(WrittenRow(t, c.value, c.create).scope)
                                  else Some(t.policies[c.req.id].scope)
  {
    hide SaveError, Saved, SoftDeleted, WrittenRow;
  }

  lemma SaveOutside(t: Tables, v: Policy, create: bool, scope: string)
    requires TablesOk(t) && TablesOk(Saved(t, v, create)) && SaveError(t, v, create).None?
    requires WrittenRow(t, v, create).scope != scope
    ensures SamePolicies(t, Saved(t, v, create), scope)
  {
    hide TablesOk, BindError, TargetError, CodeTaken, RowChecks, SamePolicies, SetOf;
    assert create ==> v.id !in t.policies;
    OutsideRowKeeps(t, Saved(t, v, create), v.id, scope);
  }

  lemma DeleteOutside(t: Tables, id: Uuid, scope: string)
    requires LivePolicy(t, id) && TablesOk(t) && TablesOk(SoftDeleted(t, id)) && t.policies[id].scope != scope
    ensures SamePolicies(t, SoftDeleted(t, id), scope)
  {
    hide TablesOk, SamePolicies;
    OutsideRowKeeps(t, SoftDeleted(t, id), id, scope);
  }

  lemma AdvanceKeepsOthers(t: Tables, c: Call)
    ensures var t' := Advance(t, c).0;
            t'.endpoints == t.endpoints && t'.roles == t.roles && t'.userRoles == t.userRoles && t'.catalog == t.catalog
  {
    AdvanceShapes(t, c);
    hide Advance, WrittenRow, SetOf, StoreVersion;
  }

  /** A statement leaves the tables alone, saves a policy, stores a version or deletes a policy. */
  lemma AdvanceShapes(t: Tables, c: Call)
    ensures var t' := Advance(t, c).0;
            || t' == t
            || (c.Writing? && t' == Saved(t, c.value, c.create))
            || (c.SavingVersion? && t' == VersionSaved(t, c.snapshot))
            || (c.Started? && c.req.DeleteReq? && LivePolicy(t, c.req.id) && t' == SoftDeleted(t, c.req.id))
  {
    hide SaveError, VersionError, Saved, VersionSaved, SoftDeleted, BoundInOrder, TargetedInOrder;
    if !c.Writing? && !c.SavingVersion? && !(c.Started? && c.req.DeleteReq?) {
      OnlyReads(t, c);
    }
  }

  lemma OneEndpointChanged(t: Tables, t': Tables, e: Uuid, scope: string)
    requires e in t'.endpoints && t'.endpoints == t.endpoints[e := t'.endpoints[e]]
    requires t'.endpoints[e].scope != scope && !EndpointIn(t, e, scope)
    ensures SameEndpoints(t, t', scope)
  {
  }

  lemma EndpointsUnchanged(t: Tables, t': Tables, scope: string)
    requires t'.endpoints == t.endpoints
    ensures SameEndpoints(t, t', scope)
  {
  }

  lemma OnlyEndpointStepsChangeEndpoints(t: Tables, step: Step)
    requires !step.EndpointCreated? && !step.EndpointUpdated? && !step.EndpointDeleted?
    ensures Apply(t, step).endpoints == t.endpoints
  {
    hide ValidMenu, ValidID, ValidScope, ValidCodeAndName, RoleCodeTaken, MenuCodeTaken, ValidRoleIDs, GrantError,
      ScopeError;
  }

  lemma StepOutsideEndpoints(t: Tables, step: Step, scope: string)
    requires StepOutside(t, step, scope)
    ensures SameEndpoints(t, Apply(t, step), scope)
  {
    var t' := Apply(t, step);
    hide RouteTaken, Trim, SameEndpoints, ScopeError, Upper, EndpointMethod;
    if !step.EndpointCreated? && !step.EndpointUpdated? && !step.EndpointDeleted? {
      hide Apply, StepOutside;
      OnlyEndpointStepsChangeEndpoints(t, step);
      EndpointsUnchanged(t, t', scope);
    } else if t'.endpoints == t.endpoints {
      hide Apply, StepOutside;
      EndpointsUnchanged(t, t', scope);
    } else {
      OneEndpointChanged(t, t', step.endpoint, scope);
    }
  }

  lemma OneRoleChanged(t: Tables, t': Tables, id: string, scope: string)
    requires id in t'.roles && t'.roles == t.roles[id := t'.roles[id]]
    requires t'.roles[id].scope != scope && !InScope(t, id, scope)
    ensures SameRoles(t, t', scope)
  {
  }

  lemma StepOutsideRoles(t: Tables, step: Step, scope: string)
    requires StepOutside(t, step, scope)
    ensures SameRoles(t, Apply(t, step), scope)
  {
    hide ValidMenu, ValidEndpoint, RoleCodeTaken, MenuCodeTaken, RouteTaken, ValidRoleIDs, GrantError, ByteLength,
      Upper, ValidCodeAndName, Trim, SameRoles, ScopeError, Blank, ParentAccepted, HasLiveChild;
    var t' := Apply(t, step);
    if t'.roles == t.roles {
      RolesUnchanged(t, t', scope);
    } else {
      match step
      case RoleCreated(id, _, _, _, _) => OneRoleChanged(t, t', id, scope);
      case RoleUpdated(id, _, _, _, _) => OneRoleChanged(t, t', Trim(id), scope);
      case RoleDeleted(id) => OneRoleChanged(t, t', Trim(id), scope);
      case _ => RolesUnchanged(t, t', scope);
    }
  }

  lemma RolesUnchanged(t: Tables, t': Tables, scope: string)
    requires t'.roles == t.roles
    ensures SameRoles(t, t', scope)
  {
  }

  lemma StepOutsideAssignments(t: Tables, step: Step, scope: string)
    requires StepOutside(t, step, scope)
    ensures SameAssignments(t, Apply(t, step), scope)
  {
    hide ValidMenu, ValidEndpoint, RoleCodeTaken, MenuCodeTaken, RouteTaken, GrantError, ByteLength, Upper,
      ValidCodeAndName;
  }

  lemma OnlyCatalogStepsChangeCatalog(t: Tables, step: Step)
    requires !step.CatalogChanged? && !step.CatalogDeleted?
    ensures Apply(t, step).catalog == t.catalog
  {
    hide ValidMenu, ValidID, ValidScope, ValidEndpoint, RoleCodeTaken, MenuCodeTaken, RouteTaken, ValidRoleIDs,
      GrantError, ByteLength, Upper, ValidCodeAndName, ScopeError, Trim;
  }

  lemma StepOutsideCatalog(t: Tables, step: Step, scope: string)
    requires StepOutside(t, step, scope)
    ensures SameCatalog(t, Apply(t, step), scope)
  {
    if !step.CatalogChanged? && !step.CatalogDeleted? {
      hide Apply, StepOutside;
      OnlyCatalogStepsChangeCatalog(t, step);
    }
  }

  lemma StepOutsideKeeps(t: Tables, step: Step, scope: string)
    requires StepOutside(t, step, scope)
    ensures SameScope(t, Apply(t, step), scope)
  {
    hide StepOutside, Apply;
    ApplyKeepsPolicies(t, step);
    StepOutsideEndpoints(t, step, scope);
    StepOutsideRoles(t, step, scope);
    StepOutsideAssignments(t, step, scope);
    StepOutsideCatalog(t, step, scope);
    hide SameEndpoints, SameRoles, SameAssignments, SameCatalog;
    forall p ensures SamePolicy(t, Apply(t, step), p, scope) {
      UntouchedPolicy(t, Apply(t, step), p, scope);
    }
  }

  lemma OutsideKeeps(w: World, e: Event, scope: string)
    requires WorldOk(w) && Outside(w, e, scope)
    ensures SameScope(w.tables, Next(w, e).tables, scope)
  {
    hide TablesOk, CallOk, View, Advance, WrittenScope, StepOutside, Apply, SamePolicy;
    match e
    case Proceed(k) =>
      if k in w.calls {
        WriteOutsideKeeps(w.tables, w.calls[k], scope);
        AdvanceKeepsOthers(w.tables, w.calls[k]);
      } else {
        SameAsBefore(w.tables, scope);
      }
    case Elsewhere(step) => StepOutsideKeeps(w.tables, step, scope);
    case Begin(_, _) => SameAsBefore(w.tables, scope);
    case Abandon(_) => SameAsBefore(w.tables, scope);
  }

  lemma SameAsBefore(t: Tables, scope: string)
    ensures SameScope(t, t, scope)
  {
  }

  lemma {:induction false} RunOutsideKeeps(w: World, events: seq<Event>, scope: string)
    requires WorldOk(w) && AllOutside(w, events, scope)
    ensures SameScope(w.tables, After(w, events).tables, scope)
  {
    hide SameScope, Outside, Next;
    if events == [] {
      SameAsBefore(w.tables, scope);
    } else {
      var front := events[..|events| - 1];
      RunOutsideKeeps(w, front, scope);
      EveryRunIsSafe(w, front);
      OutsideKeeps(After(w, front), events[|events| - 1], scope);
      SameScopeTransitive(w.tables, After(w, front).tables, After(w, events).tables, scope);
    }
  }

  /**
   * Noninterference: no run confined to other scopes (menu and grant steps anywhere included) changes a
   * decision about an endpoint of this scope.
   */
  lemma {:induction false} ScopesDoNotInterfere(w: World, events: seq<Event>, request: Input)
    requires WorldOk(w) && AllOutside(w, events, Trim(request.serviceResource))
    requires EndpointIn(w.tables, request.resource.endpointID, Trim(request.serviceResource))
    ensures Decide(After(w, events).tables, request) == Decide(w.tables, request)
  {
    var scope := Trim(request.serviceResource);
    RunOutsideKeeps(w, events, scope);
    EveryRunIsSafe(w, events);
    hide After, AllOutside, CallOk, TablesOk, SameScope, Decide;
    SameScopeSameDecision(w.tables, After(w, events).tables, scope, request);
  }

  // ---- endpoints outside the scope ---------------------------------------------------------

  /** Whether the requested endpoint id has a row of this scope, or a deleted one of another. */
  predicate OwnOrDeleted(t: Tables, request: Input) {
    var e := request.resource.endpointID;
    e in t.endpoints && (t.endpoints[e].scope == Trim(request.serviceResource) || t.endpoints[e].deleted)
  }

  /** A request that names an endpoint outside its scope is never allowed. */
  lemma ForeignEndpointNeverAllowed(t: Tables, request: Input)
    requires !EndpointIn(t, request.resource.endpointID, Trim(request.serviceResource))
    ensures Decide(t, request).Answered? ==> Decide(t, request).result.decision == DecisionDeny
    ensures Decide(t, request).Answered? ==> Decide(t, request).result.reason == ScopeMismatch
  {
    hide Listed, RoleIDsOf, Evaluation;
  }

  /** The request gets as far as looking up its endpoint. */
  predicate ReachesEndpoint(t: Tables, request: Input) {
    !request.authorizationType.OtherAuthorization? && ScopeError(t, Trim(request.serviceResource)).None?
    && request.resource.endpointID != NIL_UUID
  }

  lemma DeletedStaysDeleted(t: Tables, step: Step, e: Uuid)
    requires e in t.endpoints && t.endpoints[e].deleted
    ensures e in Apply(t, step).endpoints && Apply(t, step).endpoints[e] == t.endpoints[e]
  {
    hide ValidMenu, ValidID, ValidScope, ValidCodeAndName, ValidEndpoint, RoleCodeTaken, MenuCodeTaken, RouteTaken,
      ValidRoleIDs, GrantError;
  }

  lemma {:induction false} DeletedThroughout(w: World, events: seq<Event>, e: Uuid)
    requires e in w.tables.endpoints && w.tables.endpoints[e].deleted
    ensures e in After(w, events).tables.endpoints && After(w, events).tables.endpoints[e] == w.tables.endpoints[e]
  {
    if events != [] {
      var before := After(w, events[..|events| - 1]);
      DeletedThroughout(w, events[..|events| - 1], e);
      hide Apply, Advance, After;
      match events[|events| - 1]
      case Elsewhere(step) => DeletedStaysDeleted(before.tables, step, e);
      case Proceed(k) =>
        if k in before.calls {
          AdvanceKeepsOthers(before.tables, before.calls[k]);
        }
      case _ =>
    }
  }

  lemma DeletedEndpointNotFound(t: Tables, request: Input)
    requires ReachesEndpoint(t, request)
    requires request.resource.endpointID in t.endpoints && t.endpoints[request.resource.endpointID].deleted
    ensures Decide(t, request) == NoAnswer(NotFound)
  {
    hide Listed, RoleIDsOf, Evaluation;
  }

  /** A live endpoint of another scope gives scope_mismatch; once that scope deletes it, not found. */
  lemma DeletingForeignEndpointShows(w: World, request: Input)
    requires ReachesEndpoint(w.tables, request) && LiveEndpoint(w.tables, request.resource.endpointID)
    requires !EndpointIn(w.tables, request.resource.endpointID, Trim(request.serviceResource))
    ensures var events := [Elsewhere(EndpointDeleted(request.resource.endpointID))];
            && AllOutside(w, events, Trim(request.serviceResource))
            && Decide(After(w, events).tables, request) != Decide(w.tables, request)
  {
    var e, scope := request.resource.endpointID, Trim(request.serviceResource);
    var event := Elsewhere(EndpointDeleted(e));
    assert [event][..0] == [] && After(w, []) == w;
    assert After(w, [event]) == Next(w, event);
    hide Listed, RoleIDsOf, Evaluation, Trim;
  }

  /**
   * Exactly when: the decision survives every confined run if and only if the requested endpoint id has a
   * row, and that row is of the request's own scope or already deleted.
   */
  lemma {:induction false} NoninterferenceExactly(w: World, request: Input)
    requires WorldOk(w) && ReachesEndpoint(w.tables, request)
    ensures (forall events :: AllOutside(w, events, Trim(request.serviceResource)) ==>
               Decide(After(w, events).tables, request) == Decide(w.tables, request))
            <==> OwnOrDeleted(w.tables, request)
  {
    var scope := Trim(request.serviceResource);
    hide Decide, AllOutside, After, WorldOk, ReachesEndpoint;
    if OwnOrDeleted(w.tables, request) {
      forall events | AllOutside(w, events, scope)
        ensures Decide(After(w, events).tables, request) == Decide(w.tables, request)
      {
        if EndpointIn(w.tables, request.resource.endpointID, scope) {
          ScopesDoNotInterfere(w, events, request);
        } else {
          DeletedGoneForGood(w, events, request);
        }
      }
    } else if request.resource.endpointID in w.tables.endpoints {
      DeletingForeignEndpointShows(w, request);
    } else {
      var events := UnknownEndpointShows(w, request);
    }
  }

  /** The live endpoints of a scope at GET /. */
  ghost function Takers(t: Tables, other: string): set<Uuid> {
    set e | e in t.endpoints && LiveEndpoint(t, e) && t.endpoints[e].scope == other
            && t.endpoints[e].method_ == "GET" && t.endpoints[e].path == "/"
  }

  /** An unknown id gives not found until another scope, which may have to make room, registers it. */
  lemma {:induction false} UnknownEndpointShows(w: World, request: Input) returns (events: seq<Event>)
    requires ReachesEndpoint(w.tables, request) && request.resource.endpointID !in w.tables.endpoints
    ensures AllOutside(w, events, Trim(request.serviceResource))
    ensures Decide(After(w, events).tables, request) != Decide(w.tables, request)
  {
    hide Decide, Trim, AllOutside, After, ReachesEndpoint, Takers, RouteTaken;
    var e, scope := request.resource.endpointID, Trim(request.serviceResource);
    var other := OtherScope(w.tables, scope);
    events := MakeRoom(w, other, scope);
    var w' := After(w, events);
    ReachesElsewhere(w.tables, w'.tables, other, request);
    NoTakers(w'.tables, e, other);
    CreatingForeignEndpointShows(w', request, other);
    UnknownEndpointNotFound(w.tables, request);
    var event := Elsewhere(EndpointCreated(e, EndpointRow(other, "c", "GET", "/", "", true, false)));
    OneEvent(w', event, scope);
    OneMoreEvent(w, events, event, scope);
    events := events + [event];
  }

  lemma NoTakers(t: Tables, e: Uuid, other: string)
    requires Takers(t, other) == {}
    ensures !RouteTaken(t, e, other, "GET", "/")
  {
    forall f | f in t.endpoints && LiveEndpoint(t, f) && t.endpoints[f].scope == other
      ensures !(t.endpoints[f].method_ == "GET" && t.endpoints[f].path == "/")
    {
      assert f !in Takers(t, other);
    }
  }

  lemma ReachesElsewhere(t: Tables, t': Tables, other: string, request: Input)
    requires ReachesEndpoint(t, request) && other != Trim(request.serviceResource)
    requires t'.catalog == t.catalog[other := true]
    ensures ReachesEndpoint(t', request)
  {
    hide Trim;
  }

  /** A valid scope that is neither this one nor the one of a row without an id. */
  lemma OtherScope(t: Tables, scope: string) returns (other: string)
    ensures other != scope && ValidScope(other) == Success(other)
    ensures NIL_UUID in t.endpoints ==> t.endpoints[NIL_UUID].scope != other
  {
    var idle := if NIL_UUID in t.endpoints then t.endpoints[NIL_UUID].scope else scope;
    TrimIsTrimmed("a");
    TrimIsTrimmed("b");
    TrimIsTrimmed("c");
    hide Trim;
    other := if scope != "a" && idle != "a" then "a" else if scope != "b" && idle != "b" then "b" else "c";
  }

  lemma OneMoreEvent(w: World, events: seq<Event>, e: Event, scope: string)
    ensures After(w, events + [e]) == Next(After(w, events), e)
    ensures AllOutside(w, events + [e], scope) <==> AllOutside(w, events, scope) && Outside(After(w, events), e, scope)
  {
    hide Next, Outside;
    assert (events + [e])[..|events|] == events;
  }

  /** Another scope is activated, and whatever it has at GET / is deleted, all outside this scope. */
  lemma {:induction false} MakeRoom(w: World, other: string, scope: string) returns (events: seq<Event>)
    requires other != scope && (NIL_UUID in w.tables.endpoints ==> w.tables.endpoints[NIL_UUID].scope != other)
    ensures AllOutside(w, events, scope) && Takers(After(w, events).tables, other) == {}
    ensures After(w, events).tables.catalog == w.tables.catalog[other := true]
    ensures After(w, events).tables.endpoints.Keys == w.tables.endpoints.Keys
  {
    hide Apply, After, AllOutside, Takers;
    var activate := Elsewhere(CatalogChanged(other, true));
    OneEvent(w, activate, scope);
    CatalogApplied(w.tables, other);
    events := [activate];
    while Takers(After(w, events).tables, other) != {}
      invariant AllOutside(w, events, scope)
      invariant After(w, events).tables.catalog == w.tables.catalog[other := true]
      invariant After(w, events).tables.endpoints.Keys == w.tables.endpoints.Keys
      invariant var t := After(w, events).tables; NIL_UUID in t.endpoints ==> t.endpoints[NIL_UUID].scope != other
      decreases |Takers(After(w, events).tables, other)|
    {
      var t := After(w, events).tables;
      var f :| f in Takers(t, other);
      TakerDeleted(t, other, f);
      var event := Elsewhere(EndpointDeleted(f));
      OneMoreEvent(w, events, event, scope);
      events := events + [event];
    }
  }

  lemma CatalogApplied(t: Tables, other: string)
    ensures Apply(t, CatalogChanged(other, true)) == t.(catalog := t.catalog[other := true])
  {
  }

  lemma TakerDeleted(t: Tables, other: string, f: Uuid)
    requires f in Takers(t, other) && (NIL_UUID in t.endpoints ==> t.endpoints[NIL_UUID].scope != other)
    ensures var t' := Apply(t, EndpointDeleted(f));
            && t'.catalog == t.catalog && t'.endpoints.Keys == t.endpoints.Keys
            && (NIL_UUID in t'.endpoints ==> t'.endpoints[NIL_UUID].scope != other)
            && |Takers(t', other)| < |Takers(t, other)|
            && f in t.endpoints && t.endpoints[f].scope == other
  {
    var t' := Apply(t, EndpointDeleted(f));
    assert t' == t.(endpoints := t.endpoints[f := t.endpoints[f].(enabled := false, deleted := true)]);
    assert Takers(t', other) == Takers(t, other) - {f};
  }

  /** An id with a deleted row of another scope stays not found, as long as the own scope stays active. */
  lemma {:induction false} DeletedGoneForGood(w: World, events: seq<Event>, request: Input)
    requires WorldOk(w) && ReachesEndpoint(w.tables, request) && AllOutside(w, events, Trim(request.serviceResource))
    requires request.resource.endpointID in w.tables.endpoints
             && w.tables.endpoints[request.resource.endpointID].deleted
    ensures Decide(After(w, events).tables, request) == Decide(w.tables, request)
  {
    DeletedThroughout(w, events, request.resource.endpointID);
    RunOutsideKeeps(w, events, Trim(request.serviceResource));
    hide Decide, After, AllOutside, WorldOk, Trim;
    assert SameCatalog(w.tables, After(w, events).tables, Trim(request.serviceResource));
    DeletedEndpointNotFound(w.tables, request);
    DeletedEndpointNotFound(After(w, events).tables, request);
  }

  /** An unknown id gives not found, until another scope registers it. */
  lemma CreatingForeignEndpointShows(w: World, request: Input, other: string)
    requires ReachesEndpoint(w.tables, request) && request.resource.endpointID !in w.tables.endpoints
    requires other != Trim(request.serviceResource) && ValidScope(other) == Success(other)
    requires other in w.tables.catalog && w.tables.catalog[other]
    requires !RouteTaken(w.tables, request.resource.endpointID, other, "GET", "/")
    ensures var row := EndpointRow(other, "c", "GET", "/", "", true, false);
            var events := [Elsewhere(EndpointCreated(request.resource.endpointID, row))];
            && AllOutside(w, events, Trim(request.serviceResource))
            && Decide(w.tables, request) == NoAnswer(NotFound)
            && Decide(After(w, events).tables, request) == Answered(Denied(ScopeMismatch))
  {
    var e := request.resource.endpointID;
    var row := EndpointRow(other, "c", "GET", "/", "", true, false);
    var event := Elsewhere(EndpointCreated(e, row));
    ScopeIsTrimmed(other);
    assert Outside(w, event, Trim(request.serviceResource));
    OneEvent(w, event, Trim(request.serviceResource));
    SomeRouteCreated(w.tables, e, other);
    CreationApplied(w.tables, e, row);
    hide Decide, Trim, CreateEndpoint, ValidScope, ReachesEndpoint, After, AllOutside, Outside, Apply, RouteTaken;
    var t' := After(w, [event]).tables;
    assert t' == w.tables.(endpoints := w.tables.endpoints[e := row]);
    ReachesStill(w.tables, t', request);
    UnknownEndpointNotFound(w.tables, request);
    ForeignEndpointMismatch(t', request);
  }

  lemma OneEvent(w: World, e: Event, scope: string)
    ensures After(w, [e]) == Next(w, e)
    ensures AllOutside(w, [e], scope) <==> Outside(w, e, scope)
  {
    hide Next, Outside;
    assert [e][..0] == [] && After(w, []) == w;
  }

  lemma CreationApplied(t: Tables, e: Uuid, row: EndpointRow)
    ensures Apply(t, EndpointCreated(e, row)) ==
            if CreateEndpoint(t, e, row).Success? then CreateEndpoint(t, e, row).value else t
  {
    hide CreateEndpoint;
  }

  lemma ReachesStill(t: Tables, t': Tables, request: Input)
    requires ReachesEndpoint(t, request) && t'.catalog == t.catalog
    ensures ReachesEndpoint(t', request)
  {
  }

  lemma UnknownEndpointNotFound(t: Tables, request: Input)
    requires ReachesEndpoint(t, request) && request.resource.endpointID !in t.endpoints
    ensures Decide(t, request) == NoAnswer(NotFound)
  {
    hide Listed, RoleIDsOf, Evaluation;
  }

  lemma ForeignEndpointMismatch(t: Tables, request: Input)
    requires ReachesEndpoint(t, request) && LiveEndpoint(t, request.resource.endpointID)
    requires !EndpointIn(t, request.resource.endpointID, Trim(request.serviceResource))
    ensures Decide(t, request) == Answered(Denied(ScopeMismatch))
  {
    hide Listed, RoleIDsOf, Evaluation;
  }

  lemma ScopeIsTrimmed(scope: string)
    requires ValidScope(scope) == Success(scope)
    ensures Trim(scope) == scope
  {
  }

  lemma SomeRouteCreated(t: Tables, e: Uuid, scope: string)
    requires ValidScope(scope) == Success(scope) && scope in t.catalog && t.catalog[scope] && e !in t.endpoints
    requires !RouteTaken(t, e, scope, "GET", "/")
    ensures var row := EndpointRow(scope, "c", "GET", "/", "", true, false);
            CreateEndpoint(t, e, row) == Success(t.(endpoints := t.endpoints[e := row]))
  {
    SomeRouteValid(scope);
    hide Trim, ValidEndpoint, RouteTaken;
  }

  lemma SomeRouteValid(scope: string)
    ensures var row := EndpointRow(scope, "c", "GET", "/", "", true, false); ValidEndpoint(row) == Success(row)
  {
    TrimIsTrimmed("c");
    TrimIsTrimmed("GET");
    TrimIsTrimmed("/");
    TrimIsTrimmed("");
    hide Trim;
    assert Upper("GET") == "GET" by {
      assert "GET"[..2] == "GE" && "GE"[..1] == "G" && "G"[..0] == "";
    }
  }
}
