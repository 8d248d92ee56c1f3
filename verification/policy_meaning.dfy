/** What the policy calls leave in the tables, and exactly when they succeed, in terms of rows and fields alone. */
module PolicyMeaning {
  import opened Wrappers
  import opened Text
  import opened Sorting
  import opened PolicyModel
  import opened Validate
  import opened ConditionJson
  import opened Compile
  import opened Tables
  import opened PolicyRepo
  import opened Rbac
  import opened PolicyMachine
  import opened DecisionPoint
  import opened DecisionMeaning
  import opened PolicyService

  // ---- the vocabulary ----------------------------------------------------------------------

  /** The roles bound to a policy. */
  function RolesAt(t: Tables, id: Uuid): set<string> {
    if id in t.bindings then t.bindings[id] else {}
  }

  function EndpointsAt(t: Tables, id: Uuid): set<Uuid> {
    if id in t.targets then t.targets[id] else {}
  }

  ghost predicate LiveRow(t: Tables, id: Uuid) {
    id in t.policies && !t.policies[id].deleted
  }

  /** Only the policy with this id, and version rows, may differ. */
  ghost predicate OnlyPolicy(t: Tables, t': Tables, id: Uuid) {
    && (forall p :: p != id ==> (p in t.policies <==> p in t'.policies) && RolesAt(t, p) == RolesAt(t', p)
                                && EndpointsAt(t, p) == EndpointsAt(t', p))
    && (forall p <- t.policies :: p != id ==> t'.policies[p] == t.policies[p])
    && t'.roles == t.roles && t'.menus == t.menus && t'.roleMenus == t.roleMenus && t'.userRoles == t.userRoles
    && t'.endpoints == t.endpoints && t'.catalog == t.catalog
  }

  /** No other live policy of the scope has the code. */
  ghost predicate CodeFree(t: Tables, id: Uuid, scope: string, code: string) {
    forall p <- t.policies ::
      p != id && !t.policies[p].deleted && t.policies[p].scope == scope ==> t.policies[p].code != code
  }

  ghost predicate LiveRoleOf(t: Tables, r: string, scope: string) {
    r in t.roles && !t.roles[r].deleted && t.roles[r].scope == scope
  }

  ghost predicate LiveEndpointOf(t: Tables, e: Uuid, scope: string) {
    e in t.endpoints && !t.endpoints[e].deleted && t.endpoints[e].scope == scope
  }

  ghost predicate Named(scope: string, code: string, name: string) {
    (exists c <- scope :: c != ' ') && (exists c <- code :: c != ' ') && (exists c <- name :: c != ' ')
  }

  ghost predicate KnownKinds(effect: Effect, authorizationType: AuthorizationType) {
    (effect == Allow || effect == Deny) && (authorizationType == Api || authorizationType == Data)
  }

  // ---- when a row can be written -----------------------------------------------------------

  /** An UPDATE of the row and its bindings goes through. */
  ghost predicate Writable(
      t: Tables, id: Uuid, scope: string, code: string, name: string, kinds: (Effect, AuthorizationType),
                           version: int, roles: seq<string>, endpoints: seq<Uuid>) {
    && Named(scope, code, name) && KnownKinds(kinds.0, kinds.1) && version >= 0 && CodeFree(t, id, scope, code)
    && NoDuplicates(roles) && (forall r <- roles :: LiveRoleOf(t, r, scope))
    && NoDuplicates(endpoints) && (forall e <- endpoints :: LiveEndpointOf(t, e, scope))
  }

  lemma SavesExactly(t: Tables, v: Policy, create: bool)
    ensures create ==>
              (SaveError(t, v, true).None? <==>
                v.id !in t.policies && Writable(t, v.id, v.scope, v.code, v.name, (v.effect, v.authorizationType),
                                                v.currentVersion, v.roleIDs, v.endpointIDs))
    ensures !create ==>
              (SaveError(t, v, false).None? <==>
                LiveRow(t, v.id)
                && Writable(t, v.id, t.policies[v.id].scope, v.code, v.name, (v.effect, v.authorizationType),
                            v.currentVersion, v.roleIDs, v.endpointIDs))
  {
    var scope := WrittenRow(t, v, create).scope;
    BoundRolesAreLive(t, scope, v.roleIDs);
    TargetsAreLive(t, scope, v.endpointIDs);
    hide NoDuplicates, BindError, TargetError, Store;
  }

  // ---- what Get finds ----------------------------------------------------------------------

  /** Content equal to that of a row and its bindings. */
  ghost predicate HasContent(v: Policy, t: Tables, id: Uuid)
    requires id in t.policies
  {
    var row := t.policies[id];
    && (v.id, v.scope, v.code, v.name, v.description) == (id, row.scope, row.code, row.name, row.description)
    && (v.effect, v.status, v.authorizationType) == (row.effect, row.status, row.authorizationType)
    && (v.priority, v.currentVersion) == (row.priority, row.currentVersion)
    && Load(row.condition) == Some(v.condition)
    && SetOf(v.roleIDs) == RolesAt(t, id) && SetOf(v.endpointIDs) == EndpointsAt(t, id)
    && NoDuplicates(v.roleIDs) && NoDuplicates(v.endpointIDs)
  }

  lemma GottenContent(t: Tables, id: Uuid)
    ensures Gotten(t, id).Success? <==> LiveRow(t, id) && Load(t.policies[id].condition).Some?
    ensures Gotten(t, id).Success? ==> HasContent(Gotten(t, id).value, t, id)
  {
    hide Load, LexLe, SortSet;
    LexOrder();
    NumOrder();
    SortSetOnce(Bound(t, id), LexLe);
    SortSetOnce(Targeted(t, id), NumLe);
    if Gotten(t, id).Success? {
      assert SetOf(BoundInOrder(t, id)) == Bound(t, id);
      assert SetOf(TargetedInOrder(t, id)) == Targeted(t, id);
    }
  }

  lemma GetRunsOrFails(t: Tables, req: Request, id: Uuid)
    requires id != NIL_UUID && RequestID(req) == id
    requires req.UpdateReq? || req.PublishReq? || (req.RollbackReq? && req.version >= 1)
    ensures Complete(t, Started(req)) ==
            if Gotten(t, id).Failure? then (t, Failure(Gotten(t, id).error))
            else Complete(t, Loaded(req, Gotten(t, id).value))
  {
    hide RowRead, Loaded, BoundInOrder, TargetedInOrder, Complete;
    GetRuns(t, req, id);
  }

  // ---- Publish -----------------------------------------------------------------------------

  /** Everything Publish needs of the row, the bindings and the versions, as they are. */
  ghost predicate Publishable(t: Tables, id: Uuid) {
    && id != 0 && LiveRow(t, id)
    && var row := t.policies[id];
       && (row.status == Draft || row.status == Disabled)
       && Load(row.condition).Some? && ValidCondition(Load(row.condition).value)
       && row.currentVersion >= 0 && (id, row.currentVersion + 1) !in t.versions
       && Named(row.scope, row.code, row.name) && KnownKinds(row.effect, row.authorizationType)
       && CodeFree(t, id, row.scope, row.code)
       && (forall r <- RolesAt(t, id) :: LiveRoleOf(t, r, row.scope))
       && (forall e <- EndpointsAt(t, id) :: LiveEndpointOf(t, e, row.scope))
  }

  /** The snapshot in force holds the content of the row and bindings as they were, at the next version. */
  ghost predicate PublishedContent(t: Tables, t': Tables, id: Uuid)
    requires id in t.policies
  {
    var row := t.policies[id];
    exists s ::
      && PublishedAs(t', id, s)
      && s.policyID == id && s.version == row.currentVersion + 1 && s.serviceResource == row.scope
      && s.effect == row.effect && s.authorizationType == row.authorizationType && s.priority == row.priority
      && Load(row.condition) == Some(s.condition)
      && SetOf(s.roleIDs) == RolesAt(t, id) && SetOf(s.endpointIDs) == EndpointsAt(t, id)
  }

  /** The row moves to published at the next version, and nothing else about it changes. */
  ghost predicate PublishedRow(t: Tables, t': Tables, id: Uuid)
    requires id in t.policies
  {
    && id in t'.policies
    && t'.policies[id] == t.policies[id].(status := Published, currentVersion := t.policies[id].currentVersion + 1,
                                          condition := t'.policies[id].condition)
    && Load(t'.policies[id].condition) == Load(t.policies[id].condition)
    && RolesAt(t', id) == RolesAt(t, id) && EndpointsAt(t', id) == EndpointsAt(t, id)
    && t'.versions.Keys == t.versions.Keys + {(id, t.policies[id].currentVersion + 1)}
    && (forall k <- t.versions :: t'.versions[k] == t.versions[k])
  }

  /** The value Publish writes, from the value it loaded. */
  ghost function PublishedValue(v: Policy): Policy {
    v.(status := Published, currentVersion := v.currentVersion + 1)
  }

  /** The steps of Publish after Get. */
  lemma PublishSteps(t: Tables, v: Policy)
    ensures var s := Compiled(AsSnapshot(v, v.currentVersion + 1));
            var end := Complete(t, Loaded(PublishReq(v.id), v));
            if (v.status != Draft && v.status != Disabled) || s.Failure? then end.0 == t && end.1.Failure?
            else if VersionError(t, s.value).Some? then end.0 == t && end.1.Failure?
            else
              var t1 := VersionSaved(t, s.value);
              if SaveError(t1, PublishedValue(v), false).Some? then end.0 == t1 && end.1.Failure?
              else end.0 == Saved(t1, PublishedValue(v), false) && end.1.Success?
  {
    hide Compiled, VersionError, SaveError, VersionSaved, Saved, Complete, WrittenRow;
    FinishedFails(t, Conflict);
    FinishedFails(t, InvalidArgument);
    CompilesExactly(AsSnapshot(v, v.currentVersion + 1));
    var s := Compiled(AsSnapshot(v, v.currentVersion + 1));
    if s.Success? {
      SavingVersionRuns(t, v, s.value);
      WritingEnds(VersionSaved(t, s.value), false, PublishedValue(v));
    }
  }

  lemma VersionsDoNotBlock(t: Tables, s: Snapshot, v: Policy)
    ensures SaveError(VersionSaved(t, s), v, false) == SaveError(t, v, false)
  {
    hide StoreVersion, Store, RowChecks;
    var t1 := VersionSaved(t, s);
    assert RowError(t1, v, false) == RowError(t, v, false);
    SameBindError(t, t1, WrittenRow(t, v, false).scope, v.roleIDs);
    SameTargetError(t, t1, WrittenRow(t, v, false).scope, v.endpointIDs);
  }

  lemma {:induction false} SameBindError(t: Tables, t': Tables, scope: string, roleIDs: seq<string>)
    requires t'.roles == t.roles
    ensures BindError(t', scope, roleIDs) == BindError(t, scope, roleIDs)
  {
    if roleIDs != [] {
      SameBindError(t, t', scope, roleIDs[..|roleIDs| - 1]);
    }
  }

  lemma {:induction false} SameTargetError(t: Tables, t': Tables, scope: string, endpointIDs: seq<Uuid>)
    requires t'.endpoints == t.endpoints
    ensures TargetError(t', scope, endpointIDs) == TargetError(t, scope, endpointIDs)
  {
    if endpointIDs != [] {
      SameTargetError(t, t', scope, endpointIDs[..|endpointIDs| - 1]);
    }
  }

  /** Publish succeeds exactly when the row, as it is, can be compiled, versioned and written. */
  lemma {:induction false} PublishSucceedsExactly(t: Tables, id: Uuid)
    ensures Complete(t, Started(PublishReq(id))).1.Success? <==> Publishable(t, id)
  {
    hide Compiled, SaveError, VersionSaved, Saved, Gotten, Loaded, Complete, Load, ValidCondition, Writable;
    if id == 0 {
      NilFails(t, PublishReq(id));
      return;
    }
    GetRunsOrFails(t, PublishReq(id), id);
    GottenContent(t, id);
    if Gotten(t, id).Failure? {
      return;
    }
    var v := Gotten(t, id).value;
    PublishSteps(t, v);
    var draft := AsSnapshot(v, v.currentVersion + 1);
    CompilesExactly(draft);
    if Compiled(draft).Success? {
      VersionsDoNotBlock(t, Compiled(draft).value, PublishedValue(v));
    }
    SavesExactly(t, PublishedValue(v), false);
    PublishableContent(t, id, v);
  }

  lemma NilFails(t: Tables, req: Request)
    requires RequestID(req) == 0 && (req.UpdateReq? || req.PublishReq? || req.RollbackReq?)
    ensures Complete(t, Started(req)).1.Failure? && Complete(t, Started(req)).0 == t
  {
    OneStatement(t, Started(req));
  }

  /** On the loaded value, the conditions are those on the row. */
  lemma PublishableContent(t: Tables, id: Uuid, v: Policy)
    requires LiveRow(t, id) && HasContent(v, t, id) && id != 0
    ensures Publishable(t, id) <==>
              && (v.status == Draft || v.status == Disabled)
              && ValidCondition(v.condition) && (v.authorizationType == Api || v.authorizationType == Data)
              && v.currentVersion + 1 > 0 && (id, v.currentVersion + 1) !in t.versions
              && Writable(t, id, v.scope, v.code, v.name, (v.effect, v.authorizationType),
                          v.currentVersion + 1, v.roleIDs, v.endpointIDs)
  {
    hide Load, ValidCondition, Named, CodeFree, NoDuplicates;
    assert forall r :: r in v.roleIDs <==> r in SetOf(v.roleIDs);
    assert forall e :: e in v.endpointIDs <==> e in SetOf(v.endpointIDs);
  }

  /**
   * A successful Publish puts in force the effect, type, priority, condition, roles and endpoints the row and
   * its bindings had, at the next version; the row changes in status and version only, and nothing else does.
   */
  lemma {:induction false} PublishWritesExactly(t: Tables, id: Uuid)
    requires TablesOk(t) && Complete(t, Started(PublishReq(id))).1.Success?
    ensures var t' := Complete(t, Started(PublishReq(id))).0;
            Publishable(t, id) && PublishedContent(t, t', id) && PublishedRow(t, t', id) && OnlyPolicy(t, t', id)
  {
    hide TablesOk, Compiled, SaveError, VersionSaved, Saved, Gotten, Loaded, Complete, VersionError, PublishedContent,
      PublishedRow, OnlyPolicy, CarriesRow, HasContent, CallOk;
    PublishSucceedsExactly(t, id);
    GetRunsOrFails(t, PublishReq(id), id);
    GottenContent(t, id);
    GottenRow(t, id);
    GottenOk(t, PublishReq(id), id);
    var v := Gotten(t, id).value;
    PublishSteps(t, v);
    var s := Compiled(AsSnapshot(v, v.currentVersion + 1)).value;
    CompilesExactly(AsSnapshot(v, v.currentVersion + 1));
    PublishedTables(t, v, s);
  }

  /** What storing the version and writing the row leave behind. */
  lemma PublishedTables(t: Tables, v: Policy, s: Snapshot)
    requires TablesOk(t) && LiveRow(t, v.id) && HasContent(v, t, v.id)
    requires CallOk(t, Loaded(PublishReq(v.id), v)) && VersionError(t, s).None?
    requires (v.status == Draft || v.status == Disabled) && Compiled(AsSnapshot(v, v.currentVersion + 1)) == Success(s)
    ensures var t' := Saved(VersionSaved(t, s), PublishedValue(v), false);
            PublishedContent(t, t', v.id) && PublishedRow(t, t', v.id) && OnlyPolicy(t, t', v.id)
  {
    hide TablesOk, Compiled, Load, Store, SameContent, TrimmedRoles, Trimmed, ValidCondition, LoadVersion, HasContent,
      PublishedContent, PublishedRow, OnlyPolicy, VersionSaved, Saved, CarriesRow, VersionError, StoreVersion;
    assert CallOk(t, SavingVersion(v, s));
    TrimmedScope(t, v);
    StoredVersionOk(t, v, s);
    CompiledContent(v, s);
    PublishedRowIs(t, v, s);
    SavedOnly(t, VersionSaved(t, s), PublishedValue(v), false);
    PublishedContentIs(t, v, s);
  }

  /** Storing a version and writing a row touch that policy only. */
  lemma SavedOnly(t: Tables, t1: Tables, v: Policy, create: bool)
    requires t1 == t.(versions := t1.versions)
    ensures OnlyPolicy(t, Saved(t1, v, create), v.id)
  {
    hide WrittenRow, SetOf;
  }

  lemma PublishedRowIs(t: Tables, v: Policy, s: Snapshot)
    requires LiveRow(t, v.id) && HasContent(v, t, v.id) && ValidCondition(v.condition)
    requires s.policyID == v.id && s.version == v.currentVersion + 1 && VersionError(t, s).None?
    ensures VersionSaved(t, s) == t.(versions := VersionSaved(t, s).versions)
    ensures PublishedRow(t, Saved(VersionSaved(t, s), PublishedValue(v), false), v.id)
  {
    StoreLoad(v.condition);
    hide Load, Store, ValidCondition, StoreVersion, NoDuplicates;
  }

  lemma PublishedContentIs(t: Tables, v: Policy, s: Snapshot)
    requires LiveRow(t, v.id) && HasContent(v, t, v.id)
    requires s.policyID == v.id && s.version == v.currentVersion + 1 && LoadVersion(StoreVersion(s)) == Success(s)
    requires SameContent(s, v.scope, v.effect, v.authorizationType, v.priority, v.condition,
                         SetOf(v.roleIDs), SetOf(v.endpointIDs))
    ensures PublishedContent(t, Saved(VersionSaved(t, s), PublishedValue(v), false), v.id)
  {
    hide Load, Store, StoreVersion, LoadVersion, NoDuplicates;
    VersionReadsBack(s);
    assert PublishedAs(Saved(VersionSaved(t, s), PublishedValue(v), false), v.id, s);
  }

  lemma TrimmedScope(t: Tables, v: Policy)
    requires TablesOk(t) && CarriesRow(t, v)
    ensures Trimmed(v.scope)
  {
  }

  lemma VersionReadsBack(s: Snapshot)
    requires LoadVersion(StoreVersion(s)) == Success(s)
    ensures var row := StoreVersion(s);
            Load(row.condition) == Some(s.condition) && s == row.body.(condition := s.condition)
  {
    hide Load;
  }

  // ---- Create and Update: the checks -------------------------------------------------------

  /** A role as normalizeAndValidate reads it: by the id as given. */
  ghost predicate RoleChecks(t: Tables, r: string, scope: string) {
    !AllSpace(r) && LiveRoleOf(t, r, scope) && t.roles[r].enabled
  }

  ghost predicate EndpointChecks(t: Tables, e: Uuid, scope: string) {
    e != 0 && LiveEndpointOf(t, e, scope)
  }

  ghost predicate Fails(t: Tables, end: (Tables, Result<Option<Policy>, Error>)) {
    end.0 == t && end.1.Failure?
  }

  lemma RoleStep(t: Tables, create: bool, v: Policy, i: nat)
    requires i < |v.roleIDs|
    ensures if RoleChecks(t, v.roleIDs[i], v.scope) then RoleChecked(t, create, v, i) == CheckingRoles(create, v, i + 1)
            else exists e: Error :: RoleChecked(t, create, v, i) == Failed(e)
  {
    BlankIsSpace(v.roleIDs[i]);
    hide Blank, AllSpace;
    assert Failed(InvalidArgument).Finished? && Failed(NotFound).Finished? && Failed(Conflict).Finished?;
  }

  lemma EndpointStep(t: Tables, create: bool, v: Policy, i: nat)
    requires i < |v.endpointIDs|
    ensures if EndpointChecks(t, v.endpointIDs[i], v.scope)
            then EndpointChecked(t, create, v, i) == CheckingEndpoints(create, v, i + 1)
            else exists e: Error :: EndpointChecked(t, create, v, i) == Failed(e)
  {
    assert Failed(InvalidArgument).Finished? && Failed(NotFound).Finished? && Failed(Conflict).Finished?;
  }

  lemma LastRole(t: Tables, create: bool, v: Policy)
    ensures RoleChecked(t, create, v, |v.roleIDs|) == CheckingEndpoints(create, v, 0)
    ensures EndpointChecked(t, create, v, |v.endpointIDs|) == Checked(create, v)
  {
    hide Checked;
  }

  /** The loop over the roles goes on to the endpoints exactly when every role left passes. */
  lemma {:induction false} RolesRun(t: Tables, create: bool, v: Policy, i: nat)
    requires i <= |v.roleIDs|
    ensures if forall r <- v.roleIDs[i..] :: RoleChecks(t, r, v.scope)
            then Complete(t, CheckingRoles(create, v, i)) == Complete(t, CheckingEndpoints(create, v, 0))
            else Fails(t, Complete(t, CheckingRoles(create, v, i)))
    decreases |v.roleIDs| - i
  {
    hide Complete, RoleChecked, RoleChecks;
    StepRoles(t, create, v, i);
    FailuresEnd(t);
    LastRole(t, create, v);
    if i < |v.roleIDs| {
      RoleStep(t, create, v, i);
      RolesRun(t, create, v, i + 1);
      assert v.roleIDs[i..] == [v.roleIDs[i]] + v.roleIDs[i + 1..];
      assert forall r :: r in v.roleIDs[i..] <==> r == v.roleIDs[i] || r in v.roleIDs[i + 1..];
    } else {
      assert v.roleIDs[i..] == [];
    }
  }

  lemma {:induction false} EndpointsRun(t: Tables, create: bool, v: Policy, i: nat)
    requires i <= |v.endpointIDs|
    ensures if forall e <- v.endpointIDs[i..] :: EndpointChecks(t, e, v.scope)
            then Complete(t, CheckingEndpoints(create, v, i)) == Complete(t, Checked(create, v))
            else Fails(t, Complete(t, CheckingEndpoints(create, v, i)))
    decreases |v.endpointIDs| - i
  {
    hide Complete, Checked, EndpointChecked, EndpointChecks;
    StepEndpoints(t, create, v, i);
    FailuresEnd(t);
    LastRole(t, create, v);
    if i < |v.endpointIDs| {
      EndpointStep(t, create, v, i);
      EndpointsRun(t, create, v, i + 1);
      assert v.endpointIDs[i..] == [v.endpointIDs[i]] + v.endpointIDs[i + 1..];
      assert forall e :: e in v.endpointIDs[i..] <==> e == v.endpointIDs[i] || e in v.endpointIDs[i + 1..];
    } else {
      assert v.endpointIDs[i..] == [];
    }
  }

  /** The arguments normalizeAndValidate accepts before it reads a role. */
  ghost predicate WellFormedArguments(t: Tables, v: Policy) {
    && !AllSpace(v.scope) && |Trim(v.scope)| <= 128
    && Trim(v.scope) in t.catalog && t.catalog[Trim(v.scope)]
    && !AllSpace(v.code) && ByteLength(Trim(v.code)) <= 100 && !AllSpace(v.name) && |Trim(v.name)| <= 100
    && KnownKinds(v.effect, v.authorizationType) && v.roleIDs != [] && v.endpointIDs != []
  }

  /** What normalizeAndValidate has made of the argument by then. */
  ghost predicate IsNormalized(v: Policy, n: Policy) {
    n == v.(scope := Trim(v.scope), code := Trim(v.code), name := Trim(v.name), description := Trim(v.description))
  }

  lemma NormalizesExactly(t: Tables, v: Policy)
    ensures Normalized(t, v).Success? <==> WellFormedArguments(t, v)
    ensures Normalized(t, v).Success? ==> IsNormalized(v, Normalized(t, v).value)
  {
    BlankIsSpace(v.scope);
    BlankIsSpace(v.code);
    BlankIsSpace(v.name);
    hide Trim, Blank, AllSpace, ByteLength;
  }

  /** The whole argument passes: well formed, with a valid condition, and every role and endpoint as required. */
  ghost predicate Passes(t: Tables, v: Policy) {
    && WellFormedArguments(t, v) && ValidCondition(v.condition)
    && (forall r <- v.roleIDs :: RoleChecks(t, r, Trim(v.scope)))
    && (forall e <- v.endpointIDs :: EndpointChecks(t, e, Trim(v.scope)))
  }

  /** The value that is handed to the repository. */
  ghost predicate IsReady(v: Policy, create: bool, n: Policy) {
    && IsNormalized(v, n.(roleIDs := v.roleIDs, endpointIDs := v.endpointIDs,
                          status := v.status, currentVersion := v.currentVersion))
    && SetOf(n.roleIDs) == TrimmedIDs(v.roleIDs) && NoDuplicates(n.roleIDs)
    && multiset(n.endpointIDs) == multiset(v.endpointIDs)
    && (if create then n.status == Draft && n.currentVersion == 0
        else n.status == v.status && n.currentVersion == v.currentVersion)
  }

  /** The role ids trimmed, without the blank ones. */
  ghost function TrimmedIDs(roleIDs: seq<string>): set<string> {
    set r | r in roleIDs && Trim(r) != "" :: Trim(r)
  }

  lemma CheckedReady(v: Policy, n: Policy, create: bool)
    requires IsNormalized(v, n) && KnownKinds(v.effect, v.authorizationType)
    ensures if ValidCondition(v.condition) then Checked(create, n).Writing? && Checked(create, n).create == create
                                                && IsReady(v, create, Checked(create, n).value)
            else Checked(create, n) == Failed(InvalidArgument)
  {
    CompilesExactly(AsSnapshot(n, 0));
    if ValidCondition(v.condition) {
      CompiledShape(AsSnapshot(n, 0));
      var ids := Compiled(AsSnapshot(n, 0)).value.roleIDs;
      assert forall r :: r in SetOf(ids) <==> r in TrimmedIDs(v.roleIDs);
    }
    hide Compiled, Trim, NoDuplicates, ValidCondition;
  }

  /** normalizeAndValidate and the write that follows. */
  lemma ValidationRuns(t: Tables, create: bool, v: Policy)
    ensures var end := Complete(t, AfterValidation(t, create, v));
            if Passes(t, v) then
              exists n :: IsReady(v, create, n)
                && (if SaveError(t, n, create).Some? then Fails(t, end)
                    else end.0 == Saved(t, n, create) && end.1.Success?)
            else Fails(t, end)
  {
    hide Complete, Normalized, WellFormedArguments, Checked, IsReady, ValidCondition, RoleChecks, EndpointChecks, Trim,
      Saved, SaveError, WrittenRow;
    FailuresEnd(t);
    NormalizesExactly(t, v);
    if Normalized(t, v).Failure? {
      return;
    }
    var n := Normalized(t, v).value;
    RolesRun(t, create, n, 0);
    EndpointsRun(t, create, n, 0);
    assert n.roleIDs[0..] == v.roleIDs && n.endpointIDs[0..] == v.endpointIDs;
    ArgumentsKinds(t, v);
    CheckedReady(v, n, create);
    if ValidCondition(v.condition) {
      WritingEnds(t, create, Checked(create, n).value);
    }
  }

  lemma ArgumentsKinds(t: Tables, v: Policy)
    requires WellFormedArguments(t, v)
    ensures KnownKinds(v.effect, v.authorizationType)
  {
  }

  // ---- Create and Update: when they succeed and what they write ---------------------------

  /** The bindings can be stored: the trimmed roles exist too, and no endpoint is named twice. */
  ghost predicate Bindable(t: Tables, v: Policy) {
    && (forall r <- v.roleIDs :: LiveRoleOf(t, Trim(r), Trim(v.scope))) && NoDuplicates(v.endpointIDs)
  }

  /** The row and bindings that a Create or Update of v leaves. */
  ghost predicate HoldsPolicy(t: Tables, v: Policy, scope: string, status: Status, version: int) {
    && RolesAt(t, v.id) == (set r | r in v.roleIDs :: Trim(r)) && EndpointsAt(t, v.id) == (set e | e in v.endpointIDs)
    && v.id in t.policies
    && var row := t.policies[v.id];
       && row.scope == scope && row.status == status && row.currentVersion == version && !row.deleted
       && row.code == Trim(v.code) && row.name == Trim(v.name) && row.description == Trim(v.description)
       && row.effect == v.effect && row.authorizationType == v.authorizationType && row.priority == v.priority
       && Load(row.condition) == Some(v.condition)
  }

  lemma NotOnlySpaces(s: string)
    requires !AllSpace(s)
    ensures exists c <- Trim(s) :: c != ' '
  {
    BlankIsSpace(s);
    TrimIsTrimmed(s);
    assert Trim(s)[0] in Trim(s);
  }

  lemma ReadyBindings(t: Tables, v: Policy, create: bool, n: Policy, scope: string)
    requires IsReady(v, create, n) && Passes(t, v) && scope == Trim(v.scope)
    ensures (NoDuplicates(n.roleIDs) && forall r <- n.roleIDs :: LiveRoleOf(t, r, scope))
            && (NoDuplicates(n.endpointIDs) && forall e <- n.endpointIDs :: LiveEndpointOf(t, e, scope))
            <==> Bindable(t, v)
    ensures SetOf(n.roleIDs) == (set r | r in v.roleIDs :: Trim(r))
            && SetOf(n.endpointIDs) == (set e | e in v.endpointIDs)
  {
    forall r | r in v.roleIDs ensures Trim(r) != "" {
      BlankIsSpace(r);
      assert RoleChecks(t, r, scope);
    }
    hide Trim, AllSpace, ValidCondition, WellFormedArguments;
    assert TrimmedIDs(v.roleIDs) == (set r | r in v.roleIDs :: Trim(r));
    assert forall r :: r in n.roleIDs <==> r in SetOf(n.roleIDs);
    SameElements(n.endpointIDs, v.endpointIDs);
    SameDistinct(n.endpointIDs, v.endpointIDs);
  }

  lemma SameDistinct<T>(s: seq<T>, t: seq<T>)
    requires multiset(s) == multiset(t)
    ensures NoDuplicates(s) <==> NoDuplicates(t)
  {
    NoDuplicatesCounts(s);
    NoDuplicatesCounts(t);
  }

  /** The write of a ready value goes through exactly when it can be bound and its code is free. */
  lemma ReadySaves(t: Tables, v: Policy, create: bool, n: Policy)
    requires IsReady(v, create, n) && Passes(t, v)
    requires !create ==> LiveRow(t, v.id) && t.policies[v.id].scope == Trim(v.scope)
    ensures SaveError(t, n, create).None? <==>
              && Bindable(t, v) && CodeFree(t, v.id, Trim(v.scope), Trim(v.code))
              && (if create then v.id !in t.policies else v.currentVersion >= 0)
  {
    hide SaveError, Trim, ValidCondition, AllSpace, ByteLength, Bindable, CodeFree, NoDuplicates, RoleChecks,
      EndpointChecks, TrimmedIDs;
    SavesExactly(t, n, create);
    ReadyBindings(t, v, create, n, Trim(v.scope));
    NotOnlySpaces(v.scope);
    NotOnlySpaces(v.code);
    NotOnlySpaces(v.name);
  }

  lemma ReadyHolds(t: Tables, v: Policy, create: bool, n: Policy)
    requires IsReady(v, create, n) && Passes(t, v)
    requires !create ==> v.id in t.policies && t.policies[v.id].scope == Trim(v.scope)
    ensures HoldsPolicy(Saved(t, n, create), v, Trim(v.scope), if create then Draft else v.status,
                        if create then 0 else v.currentVersion)
    ensures OnlyPolicy(t, Saved(t, n, create), v.id) && Saved(t, n, create).versions == t.versions
  {
    hide Store, Load, Trim, ValidCondition, AllSpace, Passes, TrimmedIDs, NoDuplicates, OnlyPolicy, Saved, HoldsPolicy;
    SavedOnly(t, t, n, create);
    ReadyBindings(t, v, create, n, Trim(v.scope));
    ReadyRow(t, v, create, n);
  }

  lemma ReadyRow(t: Tables, v: Policy, create: bool, n: Policy)
    requires IsReady(v, create, n) && Passes(t, v)
    requires !create ==> v.id in t.policies && t.policies[v.id].scope == Trim(v.scope)
    requires SetOf(n.roleIDs) == (set r | r in v.roleIDs :: Trim(r))
             && SetOf(n.endpointIDs) == (set e | e in v.endpointIDs)
    ensures HoldsPolicy(Saved(t, n, create), v, Trim(v.scope), if create then Draft else v.status,
                        if create then 0 else v.currentVersion)
    ensures Saved(t, n, create).versions == t.versions
  {
    StoreLoad(v.condition);
    hide Store, Load, Trim, ValidCondition, TrimmedIDs, NoDuplicates, WellFormedArguments;
  }

  /**
   * Create succeeds exactly when the arguments are well formed with a valid condition, every role and endpoint
   * is as required, the id and the code are free; it then leaves a draft at version 0 with v's content.
   */
  lemma {:induction false} CreateExactly(t: Tables, v: Policy)
    ensures Complete(t, Started(CreateReq(v))).1.Success? <==>
              Passes(t, v) && Bindable(t, v) && v.id !in t.policies && CodeFree(t, v.id, Trim(v.scope), Trim(v.code))
    ensures var (t', result) := Complete(t, Started(CreateReq(v)));
            if result.Success?
            then HoldsPolicy(t', v, Trim(v.scope), Draft, 0) && OnlyPolicy(t, t', v.id) && t'.versions == t.versions
            else t' == t
  {
    hide Complete, Passes, IsReady, Bindable, CodeFree, SaveError, Saved, HoldsPolicy, OnlyPolicy, AfterValidation,
      Trim;
    CreateRuns(t, v);
    ValidationRuns(t, true, v);
    if Passes(t, v) {
      var end := Complete(t, AfterValidation(t, true, v));
      var n :| IsReady(v, true, n)
               && (if SaveError(t, n, true).Some? then Fails(t, end)
                   else end.0 == Saved(t, n, true) && end.1.Success?);
      ReadySaves(t, v, true, n);
      ReadyHolds(t, v, true, n);
    }
  }

  lemma CreateRuns(t: Tables, v: Policy)
    ensures Complete(t, Started(CreateReq(v))) == Complete(t, AfterValidation(t, true, v))
  {
    hide AfterValidation;
    OneStatement(t, Started(CreateReq(v)));
  }

  /** The argument of Update with what it takes over from the stored row. */
  ghost function WithStored(t: Tables, v: Policy): Policy
    requires v.id in t.policies
  {
    var row := t.policies[v.id];
    v.(scope := row.scope, status := row.status, currentVersion := row.currentVersion)
  }

  lemma UpdateRuns(t: Tables, v: Policy)
    ensures if v.id != 0 && LiveRow(t, v.id) && Load(t.policies[v.id].condition).Some?
            && t.policies[v.id].status != Published
            then Complete(t, Started(UpdateReq(v))) == Complete(t, AfterValidation(t, false, WithStored(t, v)))
            else Fails(t, Complete(t, Started(UpdateReq(v))))
  {
    hide Complete, AfterValidation, Gotten, Load;
    if v.id == 0 {
      NilFails(t, UpdateReq(v));
      return;
    }
    GetRunsOrFails(t, UpdateReq(v), v.id);
    GottenContent(t, v.id);
    FailuresEnd(t);
    if Gotten(t, v.id).Success? && t.policies[v.id].status != Published {
      ScopeDueRuns(t, WithStored(t, v));
    }
  }

  lemma ScopeDueRuns(t: Tables, v: Policy)
    ensures Complete(t, ScopeDue(false, v)) == Complete(t, AfterValidation(t, false, v))
  {
    hide AfterValidation;
    OneStatement(t, ScopeDue(false, v));
  }

  /**
   * Update succeeds exactly for a live, readable, unpublished row whose new content passes and can be written;
   * the row then has v's content in its own scope, status and version.
   */
  lemma {:induction false} UpdateExactly(t: Tables, v: Policy)
    requires TablesOk(t)
    ensures Complete(t, Started(UpdateReq(v))).1.Success? <==>
              && v.id != 0 && LiveRow(t, v.id) && Load(t.policies[v.id].condition).Some?
              && t.policies[v.id].status != Published && t.policies[v.id].currentVersion >= 0
              && Passes(t, WithStored(t, v)) && Bindable(t, WithStored(t, v))
              && CodeFree(t, v.id, t.policies[v.id].scope, Trim(v.code))
    ensures var (t', result) := Complete(t, Started(UpdateReq(v)));
            if result.Success?
            then v.id in t.policies && OnlyPolicy(t, t', v.id) && t'.versions == t.versions
                 && HoldsPolicy(t', v, t.policies[v.id].scope, t.policies[v.id].status, t.policies[v.id].currentVersion)
            else t' == t
  {
    hide Complete, Passes, IsReady, Bindable, CodeFree, SaveError, Saved, OnlyPolicy, AfterValidation, Trim, TablesOk,
      Load, HoldsPolicy;
    StoredScopeTrimmed(t, v.id);
    UpdateRuns(t, v);
    if v.id != 0 && LiveRow(t, v.id) && Load(t.policies[v.id].condition).Some? && t.policies[v.id].status != Published {
      var u := WithStored(t, v);
      ValidationRuns(t, false, u);
      if Passes(t, u) {
        var end := Complete(t, AfterValidation(t, false, u));
        var n :| IsReady(u, false, n)
                 && (if SaveError(t, n, false).Some? then Fails(t, end)
                     else end.0 == Saved(t, n, false) && end.1.Success?);
        ReadySaves(t, u, false, n);
        ReadyHolds(t, u, false, n);
        HoldsStored(t, Saved(t, n, false), v);
      }
    }
  }

  lemma HoldsStored(t: Tables, t': Tables, v: Policy)
    requires v.id in t.policies
    ensures var row := t.policies[v.id];
            HoldsPolicy(t', WithStored(t, v), row.scope, row.status, row.currentVersion)
            <==> HoldsPolicy(t', v, row.scope, row.status, row.currentVersion)
  {
    hide Load, Trim;
  }

  lemma StoredScopeTrimmed(t: Tables, id: Uuid)
    requires TablesOk(t)
    ensures id in t.policies ==> Trim(t.policies[id].scope) == t.policies[id].scope
  {
    if id in t.policies {
      TrimIsTrimmed(t.policies[id].scope);
    }
  }

  // ---- Rollback and Delete -----------------------------------------------------------------

  /** The row takes over the content of the stored version, published at it, and keeps its names and scope. */
  ghost predicate RolledBack(t: Tables, t': Tables, id: Uuid, version: int)
    requires id in t.policies && (id, version) in t.versions
  {
    var row, stored := t.policies[id], t.versions[(id, version)];
    && id in t'.policies
    && t'.policies[id] == row.(
         status := Published, currentVersion := version, effect := stored.body.effect,
         authorizationType := stored.body.authorizationType, priority := stored.body.priority,
         condition := t'.policies[id].condition)
    && Load(t'.policies[id].condition) == Load(stored.condition)
    && RolesAt(t', id) == SetOf(stored.body.roleIDs) && EndpointsAt(t', id) == SetOf(stored.body.endpointIDs)
    && t'.versions == t.versions
  }

  lemma RollbackRuns(t: Tables, id: Uuid, version: int)
    ensures if id != 0 && version >= 1 && Gotten(t, id).Success? && VersionOf(t, id, version).Success?
            then Complete(t, Started(RollbackReq(id, version)))
                 == Complete(t, Writing(false, Restored(Gotten(t, id).value, VersionOf(t, id, version).value, version)))
            else Fails(t, Complete(t, Started(RollbackReq(id, version))))
  {
    hide Complete, Gotten, VersionOf, Restored;
    if version < 1 {
      TooLow(t, id, version);
      return;
    }
    if id == 0 {
      NilFails(t, RollbackReq(id, version));
      return;
    }
    GetRunsOrFails(t, RollbackReq(id, version), id);
    GottenID(t, id);
    if Gotten(t, id).Success? {
      VersionDueRuns(t, Gotten(t, id).value, version);
    }
  }

  lemma TooLow(t: Tables, id: Uuid, version: int)
    requires version < 1
    ensures Fails(t, Complete(t, Started(RollbackReq(id, version))))
  {
    OneStatement(t, Started(RollbackReq(id, version)));
  }

  lemma GottenID(t: Tables, id: Uuid)
    ensures Gotten(t, id).Success? ==> Gotten(t, id).value.id == id
  {
    GottenContent(t, id);
    hide Gotten;
  }

  /**
   * Rollback to a stored version succeeds exactly when that version exists, the row is live and readable, and
   * the version's roles and endpoints are still live in the scope and the code still free; the row then has
   * the version's content and its own names.
   */
  lemma {:induction false} RollbackExactly(t: Tables, id: Uuid, version: int)
    requires TablesOk(t)
    ensures Complete(t, Started(RollbackReq(id, version))).1.Success? <==>
              && id != 0 && version >= 1 && LiveRow(t, id) && Load(t.policies[id].condition).Some?
              && (id, version) in t.versions
              && var row, body := t.policies[id], t.versions[(id, version)].body;
                 Writable(t, id, row.scope, row.code, row.name, (body.effect, body.authorizationType), version,
                          body.roleIDs, body.endpointIDs)
    ensures var (t', result) := Complete(t, Started(RollbackReq(id, version)));
            if result.Success?
            then id in t.policies && (id, version) in t.versions
                 && RolledBack(t, t', id, version) && OnlyPolicy(t, t', id)
            else t' == t
  {
    hide Complete, Gotten, TablesOk, Load, Writable, RolledBack, OnlyPolicy, SaveError, Saved, CodeFree, LoadVersion,
      WrittenRow;
    RollbackRuns(t, id, version);
    GottenContent(t, id);
    StoredVersionReads(t, id, version);
    if Gotten(t, id).Success? && VersionOf(t, id, version).Success? && id != 0 && version >= 1 {
      var v, s := Gotten(t, id).value, VersionOf(t, id, version).value;
      VersionBody(t, id, version);
      WritingEnds(t, false, Restored(v, s, version));
      SavesExactly(t, Restored(v, s, version), false);
      RolledBackTables(t, id, version, v, s);
    }
  }

  lemma VersionBody(t: Tables, id: Uuid, version: int)
    requires VersionOf(t, id, version).Success?
    ensures (id, version) in t.versions
    ensures var row, s := t.versions[(id, version)], VersionOf(t, id, version).value;
            && s == row.body.(condition := s.condition) && Load(row.condition) == Some(s.condition)
  {
    hide Load;
  }

  lemma RolledBackTables(t: Tables, id: Uuid, version: int, v: Policy, s: Snapshot)
    requires LiveRow(t, id) && HasContent(v, t, id) && (id, version) in t.versions && ValidCondition(s.condition)
    requires var row := t.versions[(id, version)];
             s == row.body.(condition := s.condition) && Load(row.condition) == Some(s.condition)
    ensures var t' := Saved(t, Restored(v, s, version), false);
            RolledBack(t, t', id, version) && OnlyPolicy(t, t', id)
  {
    StoreLoad(s.condition);
    hide Load, Store, ValidCondition;
  }

  /** Delete succeeds exactly for a live row; it marks the row deleted and archived, and touches nothing else. */
  lemma {:induction false} DeleteExactly(t: Tables, id: Uuid)
    ensures var (t', result) := Complete(t, Started(DeleteReq(id)));
            && (result.Success? <==> LiveRow(t, id)) && (result.Failure? ==> result.error == NotFound)
            && t' == if LiveRow(t, id)
                     then t.(policies := t.policies[id := t.policies[id].(deleted := true, status := Archived)]) else t
  {
    OneStatement(t, Started(DeleteReq(id)));
    if LiveRow(t, id) {
      hide Advance;
    }
  }

  // ---- codes over runs ---------------------------------------------------------------------

  /** No two live policies of a scope share a code. */
  ghost predicate PolicyCodesUnique(t: Tables) {
    forall p <- t.policies, q <- t.policies
      | p != q && !t.policies[p].deleted && !t.policies[q].deleted && t.policies[p].scope == t.policies[q].scope ::
        t.policies[p].code != t.policies[q].code
  }

  lemma SaveKeepsCodes(t: Tables, v: Policy, create: bool)
    requires PolicyCodesUnique(t) && SaveError(t, v, create).None?
    ensures PolicyCodesUnique(Saved(t, v, create))
  {
    SavesExactly(t, v, create);
    hide SaveError, Named, KnownKinds, NoDuplicates, Store, SetOf;
  }

  /** In every interleaving of calls and other services the codes of live policies stay unique in their scope. */
  lemma {:induction false} EveryRunKeepsCodes(w: World, events: seq<Event>)
    requires PolicyCodesUnique(w.tables)
    ensures PolicyCodesUnique(After(w, events).tables)
  {
    hide PolicyCodesUnique, Advance, Apply;
    if events != [] {
      var before := After(w, events[..|events| - 1]);
      EveryRunKeepsCodes(w, events[..|events| - 1]);
      match events[|events| - 1]
      case Proceed(k) =>
        if k in before.calls {
          StatementKeepsCodes(before.tables, before.calls[k]);
        }
      case Elsewhere(step) =>
        ApplyKeepsPolicies(before.tables, step);
        SamePoliciesSameCodes(before.tables, Apply(before.tables, step));
      case _ =>
    }
  }

  lemma SamePoliciesSameCodes(t: Tables, t': Tables)
    requires PolicyCodesUnique(t) && t'.policies == t.policies
    ensures PolicyCodesUnique(t')
  {
  }

  lemma StatementKeepsCodes(t: Tables, c: Call)
    requires PolicyCodesUnique(t)
    ensures PolicyCodesUnique(Advance(t, c).0)
  {
    hide PolicyCodesUnique, SaveError, VersionError, Saved, VersionSaved, SoftDeleted, Found, AfterValidation;
    if c.Writing? {
      if SaveError(t, c.value, c.create).None? {
        SaveKeepsCodes(t, c.value, c.create);
      }
    } else if c.SavingVersion? {
      VersionKeepsCodes(t, c.snapshot);
    } else if c.Started? && c.req.DeleteReq? {
      if LivePolicy(t, c.req.id) {
        DeletionKeepsCodes(t, c.req.id);
      }
    } else {
      OnlyReads(t, c);
    }
  }

  lemma VersionKeepsCodes(t: Tables, s: Snapshot)
    requires PolicyCodesUnique(t)
    ensures PolicyCodesUnique(VersionSaved(t, s))
  {
    hide StoreVersion;
  }

  lemma DeletionKeepsCodes(t: Tables, id: Uuid)
    requires PolicyCodesUnique(t) && LivePolicy(t, id)
    ensures PolicyCodesUnique(SoftDeleted(t, id))
  {
  }
}
