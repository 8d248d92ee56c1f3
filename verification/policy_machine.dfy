/**
 * internal/biz/policy.go: the policy service as interleaved calls. Every call is the sequence of
 * repository statements and transactions it makes; any number of calls may be in flight.
 */
module PolicyMachine {
  import opened Wrappers
  import opened Text
  import opened Sorting
  import opened PolicyModel
  import opened Validate
  import opened ConditionJson
  import opened Compile
  import opened Tables
  import opened PolicyRepo
  import opened Rbac

  datatype Request =
    | CreateReq(value: Policy)
    | UpdateReq(value: Policy)
    | PublishReq(id: Uuid)
    | RollbackReq(id: Uuid, version: int)
    | DeleteReq(id: Uuid)

  /** Where a call stands: the statement it makes next, with the values it carries in memory. */
  datatype Call =
    | Started(req: Request)
    | RolesDue(req: Request, value: Policy)
    | EndpointsDue(req: Request, value: Policy)
    | ScopeDue(create: bool, value: Policy)
    | CheckingRoles(create: bool, value: Policy, next: nat)
    | CheckingEndpoints(create: bool, value: Policy, next: nat)
    | VersionDue(value: Policy, version: int)
    | SavingVersion(value: Policy, snapshot: Snapshot)
    | Writing(create: bool, value: Policy)
    | Finished(result: Result<Option<Policy>, Error>)

  function Failed(e: Error): Call {
    Finished(Failure(e))
  }

  // ---- the in-memory work between two statements -------------------------------------------

  /** normalizeAndValidate up to its first repository read. */
  function Normalized(t: Tables, v: Policy): Result<Policy, Error> {
    var scope, cn := ValidScope(v.scope), ValidCodeAndName(v.code, v.name);
    if scope.Failure? then Failure(scope.error)
    else if ScopeError(t, scope.value).Some? then Failure(ScopeError(t, scope.value).value)
    else if cn.Failure? then Failure(cn.error)
    else if v.effect.OtherEffect? || !KnownType(v.authorizationType) then Failure(InvalidArgument)
    else if v.roleIDs == [] || v.endpointIDs == [] then Failure(InvalidArgument)
    else Success(v.(scope := scope.value, code := cn.value.0, name := cn.value.1, description := Trim(v.description)))
  }

  /** The policy's content as an uncompiled snapshot. */
  function AsSnapshot(v: Policy, version: int): Snapshot {
    Snapshot(v.id, version, v.authorizationType, v.scope, v.effect, v.priority, v.roleIDs, v.endpointIDs, v.condition)
  }

  /** normalizeAndValidate after its last read, and the assignments of Create or Update. */
  function Checked(create: bool, v: Policy): Call {
    var s := Compiled(AsSnapshot(v, 0));
    if s.Failure? then Failed(s.error)
    else
      var ready := v.(roleIDs := s.value.roleIDs, endpointIDs := s.value.endpointIDs);
      Writing(create, if create then ready.(status := Draft, currentVersion := 0) else ready)
  }

  function AfterValidation(t: Tables, create: bool, v: Policy): Call {
    var n := Normalized(t, v);
    if n.Failure? then Failed(n.error) else CheckingRoles(create, n.value, 0)
  }

  /** What follows Get: the status guards, the compilation of Publish, the assignments of Update. */
  function Loaded(req: Request, found: Policy): Call {
    match req
    case UpdateReq(v) =>
      if found.status == Published then Failed(Conflict)
      else
        ScopeDue(false, v.(scope := found.scope, status := found.status, currentVersion := found.currentVersion))
    case PublishReq(_) =>
      if found.status != Draft && found.status != Disabled then Failed(Conflict)
      else
        var s := Compiled(AsSnapshot(found, found.currentVersion + 1));
        if s.Failure? then Failed(InvalidArgument) else SavingVersion(found, s.value)
    case RollbackReq(_, version) => VersionDue(found, version)
    case _ => Failed(Unavailable)
  }

  function Restored(found: Policy, s: Snapshot, version: int): Policy {
    found.(effect := s.effect, authorizationType := s.authorizationType, priority := s.priority,
           condition := s.condition, roleIDs := s.roleIDs, endpointIDs := s.endpointIDs,
           status := Published, currentVersion := version)
  }

  function RequestID(req: Request): Uuid {
    match req case CreateReq(v) => v.id case UpdateReq(v) => v.id case PublishReq(id) => id
    case RollbackReq(id, _) => id case DeleteReq(id) => id
  }

  // ---- one statement or transaction --------------------------------------------------------

  /** The next statement of a call: the tables after it, and where the call then stands. */
  ghost function Advance(t: Tables, c: Call): (Tables, Call) {
    match c
    case Started(req) => Begun(t, req)
    case RolesDue(req, v) => (t, EndpointsDue(req, v.(roleIDs := BoundInOrder(t, v.id))))
    case EndpointsDue(req, v) => (t, Loaded(req, v.(endpointIDs := TargetedInOrder(t, v.id))))
    case ScopeDue(create, v) => (t, AfterValidation(t, create, v))
    case CheckingRoles(create, v, next) => (t, RoleChecked(t, create, v, next))
    case CheckingEndpoints(create, v, next) => (t, EndpointChecked(t, create, v, next))
    case VersionDue(v, version) =>
      var s := VersionOf(t, v.id, version);
      (t, if s.Failure? then Failed(s.error) else Writing(false, Restored(v, s.value, version)))
    case SavingVersion(v, s) =>
      var e := VersionError(t, s);
      if e.Some? then (t, Failed(e.value))
      else (VersionSaved(t, s), Writing(false, v.(status := Published, currentVersion := s.version)))
    case Writing(create, v) =>
      var e := SaveError(t, v, create);
      if e.Some? then (t, Failed(e.value))
      else (Saved(t, v, create), Finished(Success(Some(v.(scope := WrittenRow(t, v, create).scope)))))
    case Finished(_) => (t, c)
  }

  ghost function Begun(t: Tables, req: Request): (Tables, Call) {
    match req
    case CreateReq(v) => (t, AfterValidation(t, true, v))
    case DeleteReq(id) =>
      if LivePolicy(t, id) then (SoftDeleted(t, id), Finished(Success(None))) else (t, Failed(NotFound))
    case UpdateReq(v) => (t, Found(t, req, v.id))
    case PublishReq(id) => (t, Found(t, req, id))
    case RollbackReq(id, version) => (t, if version < 1 then Failed(InvalidArgument) else Found(t, req, id))
  }

  /** Get, first statement. */
  function Found(t: Tables, req: Request, id: Uuid): Call {
    if id == NIL_UUID then Failed(InvalidArgument)
    else
      var found := RowRead(t, id);
      if found.Failure? then Failed(found.error) else RolesDue(req, found.value)
  }

  function RoleChecked(t: Tables, create: bool, v: Policy, next: nat): Call {
    if next >= |v.roleIDs| then CheckingEndpoints(create, v, 0)
    else
      var r := v.roleIDs[next];
      if Blank(r) then Failed(InvalidArgument)
      else if !LiveRole(t, r) then Failed(NotFound)
      else if t.roles[r].scope != v.scope || !t.roles[r].enabled then Failed(Conflict)
      else CheckingRoles(create, v, next + 1)
  }

  function EndpointChecked(t: Tables, create: bool, v: Policy, next: nat): Call {
    if next >= |v.endpointIDs| then Checked(create, v)
    else
      var e := v.endpointIDs[next];
      if e == NIL_UUID then Failed(InvalidArgument)
      else if !LiveEndpoint(t, e) then Failed(NotFound)
      else if t.endpoints[e].scope != v.scope then Failed(Conflict)
      else CheckingEndpoints(create, v, next + 1)
  }

  // ---- worlds and runs ---------------------------------------------------------------------

  datatype World = World(tables: Tables, calls: map<nat, Call>)

  /** A call starts, makes its next statement, or is abandoned; or another service changes the tables. */
  datatype Event = Begin(k: nat, req: Request) | Proceed(k: nat) | Abandon(k: nat) | Elsewhere(step: Step)

  ghost function Next(w: World, e: Event): World {
    match e
    case Begin(k, req) => if k in w.calls then w else w.(calls := w.calls[k := Started(req)])
    case Proceed(k) =>
      if k !in w.calls then w
      else var (t, c) := Advance(w.tables, w.calls[k]); World(t, w.calls[k := c])
    case Abandon(k) => w.(calls := w.calls - {k})
    case Elsewhere(step) => w.(tables := Apply(w.tables, step))
  }

  ghost function After(w: World, events: seq<Event>): World {
    if events == [] then w else Next(After(w, events[..|events| - 1]), events[|events| - 1])
  }

  // ---- the invariant -----------------------------------------------------------------------

  /** A version row decodes to the compiled, valid snapshot of its key, in the scope of its policy. */
  ghost predicate VersionOk(t: Tables, key: (Uuid, int))
    requires key in t.versions
  {
    var s := LoadVersion(t.versions[key]);
    && s.Success? && key.0 in t.policies
    && s.value.policyID == key.0 && s.value.version == key.1
    && s.value.serviceResource == t.policies[key.0].scope
    && Compiled(s.value) == s
  }

  /** Content that a snapshot and a policy share. */
  ghost predicate SameContent(s: Snapshot, scope: string, effect: Effect, authorizationType: AuthorizationType,
                              priority: int, condition: Option<Condition>, roles: set<string>, endpoints: set<Uuid>) {
    && s.serviceResource == scope && s.effect == effect && s.authorizationType == authorizationType
    && s.priority == priority && s.condition == condition
    && SetOf(s.roleIDs) == roles && SetOf(s.endpointIDs) == endpoints
  }

  /** The row, its bindings and its current version row agree. */
  ghost predicate RowAgrees(t: Tables, p: Uuid) {
    && HasCurrentVersion(t, p) && Current(t, p).Success?
    && var row := t.policies[p];
       && Load(row.condition).Some?
       && SameContent(Current(t, p).value, row.scope, row.effect, row.authorizationType, row.priority,
                      Load(row.condition).value, Bound(t, p), Targeted(t, p))
  }

  ghost predicate TrimmedRoles(roles: set<string>) {
    forall r <- roles :: Trimmed(r) && r != []
  }

  ghost predicate TablesOk(t: Tables) {
    && (forall key <- t.versions :: VersionOk(t, key))
    && (forall p <- t.policies :: Trimmed(t.policies[p].scope) && TrimmedRoles(Bound(t, p)))
    && (forall p <- t.policies | LivePublished(t, p) :: RowAgrees(t, p))
  }

  /** The value a call carries belongs to a policy row of the same scope. */
  ghost predicate CarriesRow(t: Tables, v: Policy) {
    v.id in t.policies && v.scope == t.policies[v.id].scope
  }

  /** A value that is about to be written as published has its version row already. */
  ghost predicate BackedByVersion(t: Tables, v: Policy) {
    && CarriesRow(t, v) && (v.id, v.currentVersion) in t.versions
    && var s := LoadVersion(t.versions[(v.id, v.currentVersion)]);
       s.Success? && SameContent(s.value, v.scope, v.effect, v.authorizationType, v.priority, v.condition,
                                 SetOf(v.roleIDs), SetOf(v.endpointIDs))
  }

  ghost predicate CallOk(t: Tables, c: Call) {
    match c
    case RolesDue(req, v) => RequestID(req) == v.id && CarriesRow(t, v)
    case EndpointsDue(req, v) => RequestID(req) == v.id && CarriesRow(t, v) && TrimmedRoles(SetOf(v.roleIDs))
    case ScopeDue(create, v) => Trimmed(v.scope) && (!create ==> CarriesRow(t, v) && v.status != Published)
    case CheckingRoles(create, v, _) => Trimmed(v.scope) && (!create ==> CarriesRow(t, v) && v.status != Published)
    case CheckingEndpoints(create, v, _) => Trimmed(v.scope) && (!create ==> CarriesRow(t, v) && v.status != Published)
    case VersionDue(v, _) => CarriesRow(t, v)
    case SavingVersion(v, s) =>
      CarriesRow(t, v) && TrimmedRoles(SetOf(v.roleIDs)) && Compiled(AsSnapshot(v, v.currentVersion + 1)) == Success(s)
    case Writing(create, v) =>
      && Trimmed(v.scope) && TrimmedRoles(SetOf(v.roleIDs)) && ValidCondition(v.condition)
      && (create ==> v.status == Draft)
      && (!create ==> CarriesRow(t, v) && (v.status == Published ==> BackedByVersion(t, v)))
    case _ => true
  }

  ghost predicate WorldOk(w: World) {
    TablesOk(w.tables) && forall k <- w.calls :: CallOk(w.tables, w.calls[k])
  }

  // ---- what no step undoes -----------------------------------------------------------------

  /** Rows never leave, scopes never change, version rows never change, a deleted policy stays deleted. */
  ghost predicate Grows(t: Tables, t': Tables) {
    && (forall p <- t.policies :: p in t'.policies && t'.policies[p].scope == t.policies[p].scope
                                  && (t.policies[p].deleted ==> t'.policies[p] == t.policies[p]))
    && (forall key <- t.versions :: key in t'.versions && t'.versions[key] == t.versions[key])
  }

  lemma CallOkStays(t: Tables, t': Tables, c: Call)
    requires CallOk(t, c) && Grows(t, t')
    ensures CallOk(t', c)
  {
    hide LoadVersion, TrimmedRoles, SameContent, Compiled, Trimmed, ValidCondition;
  }

  lemma SaveGrows(t: Tables, v: Policy, create: bool)
    requires SaveError(t, v, create).None?
    ensures Grows(t, Saved(t, v, create))
  {
    assert RowError(t, v, create).None?;
    hide RowChecks, CodeTaken, BindError, TargetError, SaveError;
  }

  lemma VersionSavedGrows(t: Tables, s: Snapshot)
    requires VersionError(t, s).None?
    ensures Grows(t, VersionSaved(t, s))
  {
    hide StoreVersion;
  }

  lemma SoftDeletedGrows(t: Tables, id: Uuid)
    requires LivePolicy(t, id)
    ensures Grows(t, SoftDeleted(t, id))
  {
  }

  lemma {:induction false} AdvanceGrows(t: Tables, c: Call)
    ensures Grows(t, Advance(t, c).0)
  {
    assert Grows(t, t);
    hide Grows, SaveError, VersionError, Saved, VersionSaved, SoftDeleted, LivePolicy;
    if c.Writing? {
      if SaveError(t, c.value, c.create).None? {
        SaveGrows(t, c.value, c.create);
      }
    } else if c.SavingVersion? {
      if VersionError(t, c.snapshot).None? {
        VersionSavedGrows(t, c.snapshot);
      }
    } else if c.Started? && c.req.DeleteReq? {
      if LivePolicy(t, c.req.id) {
        SoftDeletedGrows(t, c.req.id);
      }
    } else {
      OnlyReads(t, c);
    }
  }

  lemma OnlyReads(t: Tables, c: Call)
    requires !c.Writing? && !c.SavingVersion? && !(c.Started? && c.req.DeleteReq?)
    ensures Advance(t, c).0 == t
  {
    hide Found, AfterValidation, BoundInOrder, TargetedInOrder, Loaded, RoleChecked, EndpointChecked, VersionOf,
      Restored;
  }

  lemma ApplyKeepsPolicies(t: Tables, step: Step)
    ensures var t' := Apply(t, step);
            && t'.policies == t.policies && t'.bindings == t.bindings
            && t'.targets == t.targets && t'.versions == t.versions
  {
    hide ValidMenu, ValidID, ValidScope, ValidCodeAndName, ValidEndpoint, RoleCodeTaken, MenuCodeTaken, RouteTaken;
  }

  // ---- what a stored version is ------------------------------------------------------------

  /**
   * Over tables in order, GetVersion fails only when the version was never stored; what it returns has the
   * asked key, the scope of its policy, a valid condition and content in canonical form.
   */
  lemma StoredVersionReads(t: Tables, id: Uuid, version: int)
    requires TablesOk(t)
    ensures VersionOf(t, id, version).Failure? <==> (id, version) !in t.versions
    ensures VersionOf(t, id, version).Failure? ==> VersionOf(t, id, version).error == NotFound
    ensures VersionOf(t, id, version).Success? ==>
              var s := VersionOf(t, id, version).value;
              && s.policyID == id && s.version == version
              && id in t.policies && s.serviceResource == t.policies[id].scope
              && ValidCondition(s.condition) && Compiled(s) == Success(s)
  {
    if (id, version) in t.versions {
      assert VersionOk(t, (id, version));
    }
    hide ValidCondition;
  }

  /** A version once stored is what GetVersion returns ever after; every other version is as it was. */
  lemma {:induction false} SavedVersionReads(w: World, events: seq<Event>, s: Snapshot)
    requires WorldOk(w) && VersionError(w.tables, s).None? && Compiled(s) == Success(s)
    requires s.serviceResource == w.tables.policies[s.policyID].scope
    ensures var t := After(w.(tables := VersionSaved(w.tables, s)), events).tables;
            && VersionOf(t, s.policyID, s.version) == Success(s)
            && forall key <- w.tables.versions ::
                 VersionOf(t, key.0, key.1) == VersionOf(w.tables, key.0, key.1)
  {
    hide Compiled, LoadVersion, TablesOk, CallOk, After, StoreVersion;
    var w' := w.(tables := VersionSaved(w.tables, s));
    CompiledStored(s);
    VersionSavedKeeps(w.tables, s);
    VersionSavedGrows(w.tables, s);
    forall k | k in w'.calls ensures CallOk(w'.tables, w'.calls[k]) {
      CallOkStays(w.tables, w'.tables, w.calls[k]);
    }
    EveryRunIsSafe(w', events);
  }

  lemma CompiledStored(s: Snapshot)
    requires Compiled(s) == Success(s)
    ensures LoadVersion(StoreVersion(s)) == Success(s)
  {
    assert ValidCondition(s.condition);
    StoreLoad(s.condition);
    hide Store, Load, ValidCondition, Compiled;
  }

  // ---- each step keeps the invariant -------------------------------------------------------

  /** Reading roles gives trimmed ones. */
  lemma RolesReadKeep(t: Tables, req: Request, v: Policy)
    requires TablesOk(t) && CallOk(t, RolesDue(req, v))
    ensures CallOk(t, EndpointsDue(req, v.(roleIDs := BoundInOrder(t, v.id))))
  {
    hide LoadVersion, RowAgrees, VersionOk, LexLe, Trimmed;
    LexOrder();
    SortSetOnce(Bound(t, v.id), LexLe);
    assert SetOf(BoundInOrder(t, v.id)) == Bound(t, v.id);
  }

  lemma ValidationKeeps(t: Tables, create: bool, v: Policy)
    requires !create ==> CarriesRow(t, v) && Trimmed(v.scope) && v.status != Published
    ensures CallOk(t, AfterValidation(t, create, v))
  {
    TrimIsTrimmed(v.scope);
    hide Trim, Trimmed, Blank, ScopeError, ValidCodeAndName;
  }

  /** Reading rows and bindings gives trimmed roles and a value of the row's scope. */
  lemma ReadKeeps(t: Tables, c: Call)
    requires TablesOk(t) && CallOk(t, c)
    requires c.RolesDue? || c.ScopeDue? || (c.Started? && !c.req.DeleteReq?)
    ensures CallOk(t, Advance(t, c).1)
  {
    hide TablesOk, AfterValidation, BoundInOrder, Load, Trimmed;
    match c
    case RolesDue(req, v) => RolesReadKeep(t, req, v);
    case ScopeDue(create, v) => ValidationKeeps(t, create, v);
    case Started(req) =>
      if req.CreateReq? {
        ValidationKeeps(t, true, req.value);
      }
  }

  lemma LoadedKeeps(t: Tables, req: Request, v: Policy)
    requires TablesOk(t) && RequestID(req) == v.id && CarriesRow(t, v) && TrimmedRoles(SetOf(v.roleIDs))
    ensures CallOk(t, Loaded(req, v))
  {
    hide LoadVersion, RowAgrees, VersionOk, Compiled, LexLe;
    if req.UpdateReq? {
      TrimIsTrimmed(v.scope);
    }
  }

  /** What compiles has a valid condition, and its roles come out trimmed. */
  lemma CompiledRoles(s: Snapshot)
    requires Compiled(s).Success?
    ensures ValidCondition(s.condition) && TrimmedRoles(SetOf(Compiled(s).value.roleIDs))
  {
    CompiledShape(s);
    hide ValidCondition, Sort, UniqueTrimmed, StrictlySorted, RoleSet, Trim, Trimmed;
  }

  lemma CheckedKeeps(t: Tables, create: bool, v: Policy)
    requires Trimmed(v.scope) && (!create ==> CarriesRow(t, v) && v.status != Published)
    ensures CallOk(t, Checked(create, v))
  {
    hide Compiled, BackedByVersion, TrimmedRoles, ValidCondition, Trimmed, SetOf;
    if Compiled(AsSnapshot(v, 0)).Success? {
      CompiledRoles(AsSnapshot(v, 0));
    }
  }

  /** A stored snapshot reads back as it was compiled. */
  lemma StoredVersionOk(t: Tables, v: Policy, s: Snapshot)
    requires CarriesRow(t, v) && Trimmed(v.scope) && Compiled(AsSnapshot(v, v.currentVersion + 1)) == Success(s)
    ensures LoadVersion(StoreVersion(s)) == Success(s) == Compiled(s)
    ensures s.serviceResource == v.scope && s.policyID == v.id && s.version == v.currentVersion + 1
  {
    var draft := AsSnapshot(v, v.currentVersion + 1);
    CompileIdempotent(draft);
    StoreLoad(s.condition);
    TrimIsTrimmed(v.scope);
    hide Store, Load, ValidCondition;
    assert s == s.(condition := None).(condition := s.condition);
  }

  /** The snapshot holds the content of the value it was compiled from. */
  lemma CompiledContent(v: Policy, s: Snapshot)
    requires Trimmed(v.scope) && TrimmedRoles(SetOf(v.roleIDs))
             && Compiled(AsSnapshot(v, v.currentVersion + 1)) == Success(s)
    ensures SameContent(s, v.scope, v.effect, v.authorizationType, v.priority, v.condition, SetOf(v.roleIDs),
            SetOf(v.endpointIDs))
    ensures ValidCondition(v.condition)
  {
    CompiledShape(AsSnapshot(v, v.currentVersion + 1));
    TrimIsTrimmed(v.scope);
    SameRoles(v.roleIDs, s.roleIDs);
    SameElements(s.endpointIDs, v.endpointIDs);
    hide TrimmedRoles, ValidCondition, RoleSet, StrictlySorted, UniqueTrimmed, Sort, LexLe, Trim;
  }

  lemma SameRoles(before: seq<string>, after: seq<string>)
    requires TrimmedRoles(SetOf(before)) && forall r :: r in after <==> r in RoleSet(before)
    ensures SetOf(after) == SetOf(before)
  {
    assert forall r <- before :: r in SetOf(before);
    RoleSetOfTrimmed(before);
  }

  lemma VersionOkStays(t: Tables, t': Tables, k: (Uuid, int))
    requires Grows(t, t') && k in t.versions && VersionOk(t, k)
    ensures k in t'.versions && VersionOk(t', k)
  {
    hide LoadVersion, Compiled;
  }

  lemma RowAgreesStays(t: Tables, t': Tables, p: Uuid)
    requires Grows(t, t') && RowAgrees(t, p) && p in t'.policies && t'.policies[p] == t.policies[p]
    requires Bound(t', p) == Bound(t, p) && Targeted(t', p) == Targeted(t, p)
    ensures RowAgrees(t', p)
  {
    hide LoadVersion, SameContent, Load;
  }

  /** Tables that only grow, with the rows and bindings that stay published untouched, stay in order. */
  lemma UntouchedKeeps(t: Tables, t': Tables, touched: set<Uuid>)
    requires TablesOk(t) && Grows(t, t')
    requires forall k <- t'.versions :: k in t.versions || VersionOk(t', k)
    requires forall p <- t'.policies :: p !in touched ==>
               && p in t.policies && t'.policies[p] == t.policies[p]
               && Bound(t', p) == Bound(t, p) && Targeted(t', p) == Targeted(t, p)
    requires forall p <- touched :: p in t'.policies ==>
               && Trimmed(t'.policies[p].scope) && TrimmedRoles(Bound(t', p))
               && (LivePublished(t', p) ==> RowAgrees(t', p))
    ensures TablesOk(t')
  {
    hide Grows, TrimmedRoles, Trimmed, VersionOk, RowAgrees, Bound, Targeted;
    forall k | k in t'.versions ensures VersionOk(t', k) {
      if k in t.versions {
        VersionOkStays(t, t', k);
      }
    }
    forall p | p in t'.policies && LivePublished(t', p) ensures RowAgrees(t', p) {
      if p !in touched {
        RowAgreesStays(t, t', p);
      }
    }
  }

  /** A new version row disturbs no published policy. */
  lemma VersionSavedKeeps(t: Tables, s: Snapshot)
    requires TablesOk(t) && VersionError(t, s).None?
    requires LoadVersion(StoreVersion(s)) == Success(s) == Compiled(s)
             && s.serviceResource == t.policies[s.policyID].scope
    ensures TablesOk(VersionSaved(t, s))
  {
    VersionSavedGrows(t, s);
    assert s.policyID in t.policies;
    assert VersionOk(VersionSaved(t, s), (s.policyID, s.version));
    hide VersionOk, RowAgrees, StoreVersion, TrimmedRoles, Trimmed, Grows, VersionError;
    UntouchedKeeps(t, VersionSaved(t, s), {});
  }

  ghost predicate ContentOf(s: Snapshot, v: Policy) {
    SameContent(s, v.scope, v.effect, v.authorizationType, v.priority, v.condition, SetOf(v.roleIDs),
        SetOf(v.endpointIDs))
  }

  /** Once its version row is stored, the value Publish is about to write is backed by it. */
  lemma SavedVersionBacks(t: Tables, v: Policy, s: Snapshot)
    requires CarriesRow(t, v) && s.policyID == v.id && ContentOf(s, v) && LoadVersion(StoreVersion(s)) == Success(s)
    ensures BackedByVersion(VersionSaved(t, s), v.(status := Published, currentVersion := s.version))
  {
    hide LoadVersion, StoreVersion, SameContent, SetOf;
  }

  lemma SavingVersionKeepsTables(t: Tables, v: Policy, s: Snapshot)
    requires TablesOk(t) && CallOk(t, SavingVersion(v, s)) && VersionError(t, s).None?
    ensures TablesOk(VersionSaved(t, s))
  {
    assert Trimmed(v.scope);
    StoredVersionOk(t, v, s);
    hide Compiled, LoadVersion, StoreVersion, TrimmedRoles, TablesOk, Trimmed;
    VersionSavedKeeps(t, s);
  }

  /** SaveVersion backs the value that Publish is about to write. */
  lemma SavingVersionBacks(t: Tables, v: Policy, s: Snapshot)
    requires Trimmed(v.scope) && CallOk(t, SavingVersion(v, s))
    ensures CallOk(VersionSaved(t, s), Writing(false, v.(status := Published, currentVersion := s.version)))
  {
    hide LoadVersion, StoreVersion, TrimmedRoles, ValidCondition, Trimmed, SetOf, BackedByVersion, SameContent,
      Compiled;
    StoredVersionOk(t, v, s);
    CompiledContent(v, s);
    SavedVersionBacks(t, v, s);
  }

  lemma SavingVersionKeeps(t: Tables, v: Policy, s: Snapshot)
    requires TablesOk(t) && CallOk(t, SavingVersion(v, s)) && VersionError(t, s).None?
    ensures TablesOk(VersionSaved(t, s))
    ensures CallOk(VersionSaved(t, s), Writing(false, v.(status := Published, currentVersion := s.version)))
  {
    SavingVersionKeepsTables(t, v, s);
    assert Trimmed(v.scope);
    hide TablesOk, CallOk, VersionSaved;
    SavingVersionBacks(t, v, s);
  }

  /** GetVersion gives Rollback a value backed by that version. */
  lemma VersionDueKeeps(t: Tables, v: Policy, version: int)
    requires TablesOk(t) && CarriesRow(t, v)
    ensures var s := VersionOf(t, v.id, version);
            s.Success? ==> CallOk(t, Writing(false, Restored(v, s.value, version)))
  {
    if VersionOf(t, v.id, version).Success? {
      var key := (v.id, version);
      assert VersionOk(t, key);
      RestoredBacked(t, v, version);
    }
  }

  lemma RestoredBacked(t: Tables, v: Policy, version: int)
    requires CarriesRow(t, v) && (v.id, version) in t.versions && VersionOk(t, (v.id, version)) && Trimmed(v.scope)
    ensures CallOk(t, Writing(false, Restored(v, LoadVersion(t.versions[(v.id, version)]).value, version)))
  {
    var s := LoadVersion(t.versions[(v.id, version)]).value;
    CompiledShape(s);
    assert ValidCondition(s.condition) && TrimmedRoles(SetOf(s.roleIDs));
    hide Compiled, LoadVersion, ValidCondition, TrimmedRoles, Trimmed;
    var r := Restored(v, s, version);
    assert BackedByVersion(t, r);
  }

  /** A write touches its own row and bindings only. */
  lemma WrittenFrame(t: Tables, v: Policy, create: bool)
    ensures var t' := Saved(t, v, create);
            && t'.versions == t.versions
            && forall p <- t'.policies :: p != v.id ==>
                 p in t.policies && t'.policies[p] == t.policies[p]
                 && Bound(t', p) == Bound(t, p) && Targeted(t', p) == Targeted(t, p)
  {
    hide WrittenRow, SetOf;
  }

  /** The written row is of a trimmed scope with trimmed roles, and backed if it is published. */
  lemma WrittenTouched(t: Tables, v: Policy, create: bool)
    requires CallOk(t, Writing(create, v))
    ensures var t' := Saved(t, v, create);
            && v.id in t'.policies && Trimmed(t'.policies[v.id].scope) && TrimmedRoles(Bound(t', v.id))
            && (LivePublished(t', v.id) ==> RowAgrees(t', v.id))
  {
    hide Trimmed, TrimmedRoles, RowAgrees, BackedByVersion, ValidCondition, Store;
    if !create && v.status == Published {
      WrittenAgrees(t, v);
    }
  }

  /** Writing a policy: the row it leaves published is backed, every other row is as it was. */
  lemma WritingKeeps(t: Tables, v: Policy, create: bool)
    requires TablesOk(t) && CallOk(t, Writing(create, v)) && SaveError(t, v, create).None?
    ensures TablesOk(Saved(t, v, create))
  {
    hide TablesOk, CallOk, SaveError, Saved, Trimmed, TrimmedRoles, RowAgrees, VersionOk, Bound, Targeted,
      LivePublished;
    SaveGrows(t, v, create);
    WrittenFrame(t, v, create);
    WrittenTouched(t, v, create);
    UntouchedKeeps(t, Saved(t, v, create), {v.id});
  }

  lemma WrittenAgrees(t: Tables, v: Policy)
    requires BackedByVersion(t, v) && ValidCondition(v.condition)
    ensures RowAgrees(Saved(t, v, false), v.id)
  {
    StoreLoad(v.condition);
    hide LoadVersion, SameContent, Store, Load, ValidCondition;
  }

  lemma DeletingKeeps(t: Tables, id: Uuid)
    requires TablesOk(t) && LivePolicy(t, id)
    ensures TablesOk(SoftDeleted(t, id))
  {
    SoftDeletedGrows(t, id);
    hide Trimmed, TrimmedRoles, Grows, RowAgrees, VersionOk;
    UntouchedKeeps(t, SoftDeleted(t, id), {id});
  }

  /** Any statement of any call keeps the tables and leaves the call well placed. */
  lemma {:induction false} AdvanceKeeps(t: Tables, c: Call)
    requires TablesOk(t) && CallOk(t, c)
    ensures TablesOk(Advance(t, c).0) && CallOk(Advance(t, c).0, Advance(t, c).1)
  {
    hide TablesOk, Compiled, Found, AfterValidation, Loaded, LoadVersion, SaveError, VersionError, Saved, TrimmedRoles,
      ValidCondition,       BackedByVersion, CarriesRow, SoftDeleted, VersionSaved, VersionOf;
    match c
    case Started(req) =>
      if req.DeleteReq? {
        if LivePolicy(t, req.id) {
          DeletingKeeps(t, req.id);
        }
      } else {
        OnlyReads(t, c);
        ReadKeeps(t, c);
      }
    case RolesDue(_, _) => OnlyReads(t, c); ReadKeeps(t, c);
    case EndpointsDue(req, v) => EndpointsDueKeeps(t, req, v);
    case ScopeDue(_, _) => OnlyReads(t, c); ReadKeeps(t, c);
    case CheckingRoles(_, _, _) => RoleCheckedKeeps(t, c);
    case CheckingEndpoints(create, v, next) => EndpointCheckedKeeps(t, c);
    case VersionDue(v, version) => OnlyReads(t, c); VersionDueKeeps(t, v, version);
    case SavingVersion(v, s) =>
      if VersionError(t, s).None? {
        SavingVersionKeeps(t, v, s);
      }
    case Writing(create, v) =>
      if SaveError(t, v, create).None? {
        WritingKeeps(t, v, create);
      }
    case Finished(_) =>
  }

  lemma EndpointsDueKeeps(t: Tables, req: Request, v: Policy)
    requires TablesOk(t) && CallOk(t, EndpointsDue(req, v))
    ensures Advance(t, EndpointsDue(req, v)).0 == t && CallOk(t, Advance(t, EndpointsDue(req, v)).1)
  {
    hide Loaded, TablesOk;
    LoadedKeeps(t, req, v.(endpointIDs := TargetedInOrder(t, v.id)));
  }

  lemma RoleCheckedKeeps(t: Tables, c: Call)
    requires c.CheckingRoles? && CallOk(t, c)
    ensures Advance(t, c).0 == t && CallOk(t, Advance(t, c).1)
  {
  }

  lemma EndpointCheckedKeeps(t: Tables, c: Call)
    requires c.CheckingEndpoints? && CallOk(t, c)
    ensures Advance(t, c).0 == t && CallOk(t, Advance(t, c).1)
  {
    hide Checked;
    if c.next >= |c.value.endpointIDs| {
      CheckedKeeps(t, c.create, c.value);
    }
  }

  /** Every event keeps the invariant and undoes nothing. */
  lemma {:induction false} NextKeeps(w: World, e: Event)
    requires WorldOk(w)
    ensures WorldOk(Next(w, e)) && Grows(w.tables, Next(w, e).tables)
  {
    hide TablesOk, CallOk, Advance, Apply;
    var w' := Next(w, e);
    match e
    case Begin(k, req) =>
      StartedOk(w.tables, req);
    case Proceed(k) =>
      if k in w.calls {
        AdvanceKeeps(w.tables, w.calls[k]);
        AdvanceGrows(w.tables, w.calls[k]);
        forall j | j in w'.calls ensures CallOk(w'.tables, w'.calls[j]) {
          if j != k {
            CallOkStays(w.tables, w'.tables, w.calls[j]);
          }
        }
      }
    case Abandon(_) =>
    case Elsewhere(step) =>
      ElsewhereKeeps(w.tables, step);
      forall j | j in w'.calls ensures CallOk(w'.tables, w'.calls[j]) {
        CallOkStays(w.tables, w'.tables, w.calls[j]);
      }
  }

  lemma StartedOk(t: Tables, req: Request)
    ensures CallOk(t, Started(req))
  {
  }

  lemma ElsewhereKeeps(t: Tables, step: Step)
    requires TablesOk(t)
    ensures TablesOk(Apply(t, step)) && Grows(t, Apply(t, step))
  {
    hide Apply, VersionOk, RowAgrees, Trimmed, TrimmedRoles;
    ApplyKeepsPolicies(t, step);
    UntouchedKeeps(t, Apply(t, step), {});
  }

  /**
   * Over every interleaving of any number of calls: live published rows agree with their current
   * version rows, no version row ever changes, no row changes scope and no deleted policy returns.
   */
  lemma {:induction false} EveryRunIsSafe(w: World, events: seq<Event>)
    requires WorldOk(w)
    ensures WorldOk(After(w, events))
    ensures Grows(w.tables, After(w, events).tables)
    ensures forall p | LivePublished(After(w, events).tables, p) :: RowAgrees(After(w, events).tables, p)
  {
    if events != [] {
      var before := After(w, events[..|events| - 1]);
      EveryRunIsSafe(w, events[..|events| - 1]);
      NextKeeps(before, events[|events| - 1]);
    }
  }
}
