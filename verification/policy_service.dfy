/** AuthorizationPolicyService as it is written: each call runs to its end, and does what its statements do. */
module PolicyService {
  import opened Wrappers
  import opened Text
  import opened Sorting
  import opened PolicyModel
  import opened Validate
  import opened ConditionJson
  import opened Compile
  import opened Eval
  import opened Tables
  import opened PolicyRepo
  import opened Rbac
  import opened PolicyMachine
  import opened DecisionPoint
  import opened RbacRepo

  // ---- running one call to its end ---------------------------------------------------------

  function Phase(c: Call): nat {
    match c
    case Started(_) => 9 case RolesDue(_, _) => 8 case EndpointsDue(_, _) => 7 case ScopeDue(_, _) => 6
    case CheckingRoles(_, _, _) => 5
    case CheckingEndpoints(_, _, _) => 4 case VersionDue(_, _) => 3 case SavingVersion(_, _) => 2
    case Writing(_, _) => 1 case Finished(_) => 0
  }

  function Left(c: Call): nat {
    match c
    case CheckingRoles(_, v, next) => if next < |v.roleIDs| then |v.roleIDs| - next else 0
    case CheckingEndpoints(_, v, next) => if next < |v.endpointIDs| then |v.endpointIDs| - next else 0
    case _ => 0
  }

  /** Every statement brings a call nearer its end. */
  lemma AdvanceDescends(t: Tables, c: Call)
    requires !c.Finished?
    ensures var c' := Advance(t, c).1; Phase(c') < Phase(c) || (Phase(c') == Phase(c) && Left(c') < Left(c))
  {
    hide RowRead, Normalized, Compiled, BoundInOrder, TargetedInOrder, SaveError, VersionError, Saved, VersionSaved,
      SoftDeleted, VersionOf, Restored, Blank;
  }

  /** The tables and the result when nothing else runs in between. */
  ghost function Complete(t: Tables, c: Call): (Tables, Result<Option<Policy>, Error>)
    decreases Phase(c), Left(c)
  {
    if c.Finished? then (t, c.result)
    else
      AdvanceDescends(t, c);
      var (t', c') := Advance(t, c);
      Complete(t', c')
  }

  /** n statements of call k in a row. */
  ghost function Alone(k: nat, n: nat): seq<Event> {
    if n == 0 then [] else Alone(k, n - 1) + [Proceed(k)]
  }

  lemma AloneStep(w: World, k: nat, n: nat)
    requires n > 0
    ensures After(w, Alone(k, n)) == Next(After(w, Alone(k, n - 1)), Proceed(k))
  {
    assert Alone(k, n)[..|Alone(k, n)| - 1] == Alone(k, n - 1);
  }

  /** After n statements of its own, call k has ended in this way. */
  ghost predicate EndsWith(w: World, k: nat, n: nat, end: (Tables, Result<Option<Policy>, Error>)) {
    var w' := After(w, Alone(k, n));
    k in w'.calls && w'.calls[k].Finished? && end == (w'.tables, w'.calls[k].result)
  }

  /** Running to the end is what the interleaving machine does when only this call proceeds. */
  lemma {:induction false} CompleteIsAlone(w: World, k: nat) returns (n: nat)
    requires k in w.calls
    ensures EndsWith(w, k, n, Complete(w.tables, w.calls[k]))
    decreases Phase(w.calls[k]), Left(w.calls[k])
  {
    hide Advance;
    if w.calls[k].Finished? {
      n := 0;
      assert After(w, Alone(k, 0)) == w;
    } else {
      AdvanceDescends(w.tables, w.calls[k]);
      var w' := Next(w, Proceed(k));
      var m := CompleteIsAlone(w', k);
      AloneFromNext(w, k, m);
      n := m + 1;
    }
  }

  lemma {:induction false} AloneFromNext(w: World, k: nat, n: nat)
    ensures After(w, Alone(k, n + 1)) == After(Next(w, Proceed(k)), Alone(k, n))
  {
    hide Next;
    AloneStep(w, k, n + 1);
    if n == 0 {
      assert Alone(k, 0) == [] && After(w, []) == w;
    } else {
      AloneFromNext(w, k, n - 1);
      AloneStep(Next(w, Proceed(k)), k, n);
    }
  }

  lemma OneStatement(t: Tables, c: Call)
    requires !c.Finished?
    ensures Complete(t, c) == Complete(Advance(t, c).0, Advance(t, c).1)
  {
    hide Advance;
    AdvanceDescends(t, c);
  }

  function Unwrap(r: Result<Policy, Error>): Result<Option<Policy>, Error> {
    if r.Success? then Success(Some(r.value)) else Failure(r.error)
  }

  // ---- the service -------------------------------------------------------------------------

  class AuthorizationPolicyService {
    const repository: AuthorizationPolicyRepository
    const userRoles: UserRoleRepository

    constructor (repository: AuthorizationPolicyRepository, userRoles: UserRoleRepository)
      ensures this.repository == repository && this.userRoles == userRoles
    {
      this.repository := repository;
      this.userRoles := userRoles;
    }

    /** normalizeAndValidate: reads each role, then each endpoint, then compiles and keeps the compiled lists. */
    method NormalizeAndValidate(ghost create: bool, v: Policy) returns (result: Result<Policy, Error>)
      ensures var t := repository.pool.State();
              Complete(t, AfterValidation(t, create, v)) ==
              if result.Failure? then (t, Failure(result.error))
              else
                var v := if create then result.value.(status := Draft, currentVersion := 0) else result.value;
                Complete(t, Writing(create, v))
    {
      hide Advance, Normalized, Compiled, Complete;
      var pool := repository.pool;
      ghost var t := pool.State();
      FailuresEnd(t);
      var normalized := Normalize(v);
      if normalized.Failure? {
        return normalized;
      }
      var value := normalized.value;
      ghost var goal := Complete(t, CheckingRoles(create, value, 0));
      for i := 0 to |value.roleIDs|
        invariant Complete(t, CheckingRoles(create, value, i)) == goal
      {
        StepRoles(t, create, value, i);
        var roleID := value.roleIDs[i];
        if Blank(roleID) {
          return Failure(InvalidArgument);
        }
        if roleID !in pool.roles || pool.roles[roleID].deleted {
          return Failure(NotFound);
        }
        if pool.roles[roleID].scope != value.scope || !pool.roles[roleID].enabled {
          return Failure(Conflict);
        }
      }
      StepRoles(t, create, value, |value.roleIDs|);
      for i := 0 to |value.endpointIDs|
        invariant Complete(t, CheckingEndpoints(create, value, i)) == goal
      {
        StepEndpoints(t, create, value, i);
        var endpointID := value.endpointIDs[i];
        if endpointID == NIL_UUID {
          return Failure(InvalidArgument);
        }
        if endpointID !in pool.endpoints || pool.endpoints[endpointID].deleted {
          return Failure(NotFound);
        }
        if pool.endpoints[endpointID].scope != value.scope {
          return Failure(Conflict);
        }
      }
      StepEndpoints(t, create, value, |value.endpointIDs|);
      var endpoints := new Uuid[|value.endpointIDs|](i requires 0 <= i < |value.endpointIDs| => value.endpointIDs[i]);
      assert endpoints[..] == value.endpointIDs;
      var draft := Snapshot(value.id, 0, value.authorizationType, value.scope, value.effect, value.priority,
                            value.roleIDs, value.endpointIDs, value.condition);
      var compiled := CompileSnapshot(draft, endpoints);
      if compiled.Failure? {
        return Failure(compiled.error);
      }
      return Success(value.(roleIDs := compiled.value.roleIDs, endpointIDs := endpoints[..]));
    }

    /** normalizeAndValidate up to its first repository read of a role: each assignment to the argument in turn. */
    method Normalize(v: Policy) returns (result: Result<Policy, Error>)
      ensures result == Normalized(repository.pool.State(), v)
    {
      hide Trim, Blank, ByteLength;
      var pool := repository.pool;
      var value := v;
      var scope := ValidScope(value.scope);
      if scope.Failure? {
        return Failure(scope.error);
      }
      if scope.value !in pool.catalog {
        return Failure(NotFound);
      }
      if !pool.catalog[scope.value] {
        return Failure(Conflict);
      }
      value := value.(scope := scope.value);
      var names := ValidCodeAndName(value.code, value.name);
      if names.Failure? {
        return Failure(names.error);
      }
      value := value.(code := names.value.0, name := names.value.1);
      value := value.(description := Trim(value.description));
      if (value.effect != Allow && value.effect != Deny)
         || (value.authorizationType != Api && value.authorizationType != Data)
      {
        return Failure(InvalidArgument);
      }
      if |value.roleIDs| == 0 || |value.endpointIDs| == 0 {
        return Failure(InvalidArgument);
      }
      return Success(value);
    }

    method Create(v: Policy) returns (result: Result<Policy, Error>)
      modifies repository.pool
      ensures Complete(old(repository.pool.State()), Started(CreateReq(v))) == (repository.pool.State(), Unwrap(result))
    {
      ghost var t := repository.pool.State();
      OneStatement(t, Started(CreateReq(v)));
      result := NormalizeAndValidate(true, v);
      if result.Success? {
        var value := result.value.(status := Draft, currentVersion := 0);
        WritingEnds(t, true, value);
        result := repository.Save(value, true);
      }
    }

    method Update(v: Policy) returns (result: Result<Policy, Error>)
      modifies repository.pool
      ensures Complete(old(repository.pool.State()), Started(UpdateReq(v))) == (repository.pool.State(), Unwrap(result))
    {
      ghost var t := repository.pool.State();
      if v.id == NIL_UUID {
        OneStatement(t, Started(UpdateReq(v)));
        return Failure(InvalidArgument);
      }
      GetRuns(t, UpdateReq(v), v.id);
      var existing := repository.Get(v.id);
      if existing.Failure? {
        return existing;
      }
      if existing.value.status == Published {
        return Failure(Conflict);
      }
      var stored := existing.value;
      var value := v.(scope := stored.scope, status := stored.status, currentVersion := stored.currentVersion);
      result := NormalizeAndValidate(false, value);
      if result.Success? {
        WritingEnds(t, false, result.value);
        result := repository.Save(result.value, false);
      }
    }

    method Delete(id: Uuid) returns (error: Option<Error>)
      modifies repository.pool
      ensures Complete(old(repository.pool.State()), Started(DeleteReq(id))) ==
              (repository.pool.State(), if error.Some? then Failure(error.value) else Success(None))
    {
      OneStatement(repository.pool.State(), Started(DeleteReq(id)));
      error := repository.SoftDelete(id);
    }

    /** Publish: compile, store the version, and only then mark the row published. */
    method Publish(id: Uuid) returns (result: Result<Policy, Error>)
      modifies repository.pool
      ensures Complete(old(repository.pool.State()), Started(PublishReq(id)))
              == (repository.pool.State(), Unwrap(result))
    {
      hide Compiled, VersionError, VersionSaved, SaveError, Saved, RowRead, BoundInOrder, TargetedInOrder, Complete;
      ghost var t := repository.pool.State();
      FinishedFails(t, InvalidArgument);
      FinishedFails(t, Conflict);
      if id == NIL_UUID {
        OneStatement(t, Started(PublishReq(id)));
        return Failure(InvalidArgument);
      }
      GetRuns(t, PublishReq(id), id);
      var found := repository.Get(id);
      if found.Failure? {
        return found;
      }
      var value := found.value;
      if value.status != Draft && value.status != Disabled {
        return Failure(Conflict);
      }
      var endpoints := new Uuid[|value.endpointIDs|](i requires 0 <= i < |value.endpointIDs| => value.endpointIDs[i]);
      assert endpoints[..] == value.endpointIDs;
      var draft := Snapshot(value.id, value.currentVersion + 1, value.authorizationType, value.scope, value.effect,
                            value.priority, value.roleIDs, value.endpointIDs, value.condition);
      var compiled := CompileSnapshot(draft, endpoints);
      if compiled.Failure? {
        return Failure(InvalidArgument);
      }
      SavingVersionRuns(t, value, compiled.value);
      var error := repository.SaveVersion(compiled.value);
      if error.Some? {
        return Failure(error.value);
      }
      value := value.(status := Published, currentVersion := compiled.value.version);
      WritingEnds(repository.pool.State(), false, value);
      result := repository.Save(value, false);
    }

    /** Rollback: take the content of a stored version and mark the row published at it. */
    method Rollback(id: Uuid, version: int) returns (result: Result<Policy, Error>)
      modifies repository.pool
      ensures Complete(old(repository.pool.State()), Started(RollbackReq(id, version)))
              == (repository.pool.State(), Unwrap(result))
    {
      ghost var t := repository.pool.State();
      if version < 1 || id == NIL_UUID {
        OneStatement(t, Started(RollbackReq(id, version)));
        return Failure(InvalidArgument);
      }
      GetRuns(t, RollbackReq(id, version), id);
      var found := repository.Get(id);
      if found.Failure? {
        return found;
      }
      VersionDueRuns(t, found.value, version);
      var saved := repository.GetVersion(id, version);
      if saved.Failure? {
        return Failure(saved.error);
      }
      var value := found.value.(
        effect := saved.value.effect, authorizationType := saved.value.authorizationType,
        priority := saved.value.priority, condition := saved.value.condition);
      value := value.(roleIDs := saved.value.roleIDs, endpointIDs := saved.value.endpointIDs);
      value := value.(status := Published, currentVersion := version);
      WritingEnds(t, false, value);
      result := repository.Save(value, false);
    }

    /** Decide: the endpoint, the subject's stored roles, the indexed policies, and then the engine. */
    method Decide(request: Input) returns (answer: Answer)
      requires userRoles.pool == repository.pool
      ensures answer == DecisionPoint.Decide(repository.pool.State(), request)
    {
      hide Listed, RoleIDsOf, Evaluation, Trim;
      var pool := repository.pool;
      var input := request.(serviceResource := Trim(request.serviceResource));
      input := input.(subject := input.subject.(id := Trim(input.subject.id)));
      if input.authorizationType != Api && input.authorizationType != Data {
        return AnsweredWithError(EvalResult(DecisionDeny, InvalidInput, [], 0), InvalidArgument);
      }
      if input.serviceResource !in pool.catalog {
        return NoAnswer(NotFound);
      }
      if !pool.catalog[input.serviceResource] {
        return NoAnswer(Conflict);
      }
      var id := input.resource.endpointID;
      if id == NIL_UUID {
        return NoAnswer(InvalidArgument);
      }
      if id !in pool.endpoints || pool.endpoints[id].deleted {
        return NoAnswer(NotFound);
      }
      if pool.endpoints[id].scope != input.serviceResource {
        return Answered(EvalResult(DecisionDeny, ScopeMismatch, [], 0));
      }
      if !pool.endpoints[id].enabled {
        return Answered(EvalResult(DecisionDeny, EndpointDisabled, [], 0));
      }
      var roleIDs := userRoles.ListRoleIDs(input.subject.id, input.serviceResource);
      if roleIDs.Failure? {
        return NoAnswer(roleIDs.error);
      }
      input := input.(subject := input.subject.(roleIDs := roleIDs.value));
      var snapshots := repository.ListPublishedByEndpoint(input.serviceResource, id);
      if snapshots.Failure? {
        return NoAnswer(snapshots.error);
      }
      var outcome := Evaluate(input, snapshots.value);
      match outcome
      case Decided(result) => return Answered(result);
      case Refused(result) => return AnsweredWithError(result, InvalidArgument);
      case Crashed => return EngineCrash;
    }
  }

  lemma StepRoles(t: Tables, create: bool, v: Policy, i: nat)
    ensures Complete(t, CheckingRoles(create, v, i)) == Complete(t, RoleChecked(t, create, v, i))
  {
    hide RoleChecked;
    OneStatement(t, CheckingRoles(create, v, i));
  }

  lemma StepEndpoints(t: Tables, create: bool, v: Policy, i: nat)
    ensures Complete(t, CheckingEndpoints(create, v, i)) == Complete(t, EndpointChecked(t, create, v, i))
  {
    hide EndpointChecked;
    OneStatement(t, CheckingEndpoints(create, v, i));
  }

  lemma WritingEnds(t: Tables, create: bool, v: Policy)
    ensures var e := SaveError(t, v, create);
            Complete(t, Writing(create, v)) ==
            if e.Some? then (t, Failure(e.value))
            else (Saved(t, v, create), Success(Some(v.(scope := WrittenRow(t, v, create).scope))))
  {
    hide SaveError, Saved, WrittenRow;
    OneStatement(t, Writing(create, v));
  }

  lemma SavingVersionRuns(t: Tables, v: Policy, s: Snapshot)
    ensures var e := VersionError(t, s);
            Complete(t, SavingVersion(v, s)) ==
            if e.Some? then (t, Failure(e.value))
            else Complete(VersionSaved(t, s), Writing(false, v.(status := Published, currentVersion := s.version)))
  {
    hide VersionError, VersionSaved;
    OneStatement(t, SavingVersion(v, s));
  }

  lemma VersionDueRuns(t: Tables, v: Policy, version: int)
    ensures var s := VersionOf(t, v.id, version);
            Complete(t, VersionDue(v, version)) ==
            if s.Failure? then (t, Failure(s.error)) else Complete(t, Writing(false, Restored(v, s.value, version)))
  {
    hide VersionOf, Restored;
    OneStatement(t, VersionDue(v, version));
  }

  /** The three statements of Get, and what the call makes of their result. */
  lemma GetRuns(t: Tables, req: Request, id: Uuid)
    requires id != NIL_UUID && RequestID(req) == id
    requires req.UpdateReq? || req.PublishReq? || (req.RollbackReq? && req.version >= 1)
    ensures var row := RowRead(t, id);
            Complete(t, Started(req)) ==
            if row.Failure? then (t, Failure(row.error))
            else
              var v := row.value.(roleIDs := BoundInOrder(t, id), endpointIDs := TargetedInOrder(t, id));
              Complete(t, Loaded(req, v))
  {
    hide RowRead, Loaded, BoundInOrder, TargetedInOrder;
    OneStatement(t, Started(req));
    var row := RowRead(t, id);
    if row.Success? {
      RowReadKeepsID(t, id);
      OneStatement(t, RolesDue(req, row.value));
      OneStatement(t, EndpointsDue(req, row.value.(roleIDs := BoundInOrder(t, id))));
    }
  }

  lemma RowReadKeepsID(t: Tables, id: Uuid)
    requires RowRead(t, id).Success?
    ensures RowRead(t, id).value.id == id
  {
  }

  // ---- what each call does to the policies in force ---------------------------------------

  /** Writing a row puts its current version in force, or takes the policy out of force. */
  lemma WritingView(t: Tables, v: Policy, create: bool)
    requires TablesOk(t) && CallOk(t, Writing(create, v)) && SaveError(t, v, create).None?
    ensures v.status != Published ==> View(Saved(t, v, create)) == View(t) - {v.id}
    ensures v.status == Published ==>
              (v.id, v.currentVersion) in t.versions && LoadVersion(t.versions[(v.id, v.currentVersion)]).Success?
              && View(Saved(t, v, create)) == View(t)[v.id := LoadVersion(t.versions[(v.id, v.currentVersion)]).value]
  {
    hide SaveError, Store, LoadVersion, SameContent, TablesOk, CallOk, WrittenRow, View, CarriesRow;
    WrittenBacked(t, v, create);
    RowChangeView(t, Saved(t, v, create), v.id);
  }

  lemma WrittenBacked(t: Tables, v: Policy, create: bool)
    requires CallOk(t, Writing(create, v))
    ensures var row := WrittenRow(t, v, create);
            row.status == v.status && row.currentVersion == v.currentVersion && !row.deleted
    ensures v.status == Published ==> !create && BackedByVersion(t, v)
  {
    hide Trimmed, TrimmedRoles, BackedByVersion, Store;
  }

  /** One row rewritten: the view changes at that policy only. */
  lemma RowChangeView(t: Tables, t': Tables, p: Uuid)
    requires p in t'.policies && t'.policies == t.policies[p := t'.policies[p]] && t'.versions == t.versions
    ensures !(LivePublished(t', p) && HasCurrentVersion(t', p) && Current(t', p).Success?) ==> View(t') == View(t) - {p}
    ensures LivePublished(t', p) && HasCurrentVersion(t', p) && Current(t', p).Success? ==>
              View(t') == View(t)[p := Current(t', p).value]
  {
    hide View, Current, HasCurrentVersion, LivePublished;
    InForce(t', p);
    forall q | q != p
      ensures (q in View(t) <==> q in View(t')) && (q in View(t) ==> View(t)[q] == View(t')[q])
    {
      SameRowInForce(t, t', q);
    }
  }

  lemma InForce(t: Tables, p: Uuid)
    ensures p in View(t) <==> LivePublished(t, p) && HasCurrentVersion(t, p) && Current(t, p).Success?
    ensures p in View(t) ==> View(t)[p] == Current(t, p).value
  {
    hide LoadVersion;
  }

  lemma SameRowInForce(t: Tables, t': Tables, q: Uuid)
    requires t'.versions == t.versions && (q in t.policies <==> q in t'.policies)
    requires q in t.policies ==> t'.policies[q] == t.policies[q]
    ensures (q in View(t) <==> q in View(t')) && (q in View(t) ==> View(t)[q] == View(t')[q])
  {
    hide View, LoadVersion;
    InForce(t, q);
    InForce(t', q);
  }

  lemma {:induction false} CompleteKeeps(t: Tables, c: Call)
    requires TablesOk(t) && CallOk(t, c)
    ensures TablesOk(Complete(t, c).0)
    ensures Complete(t, c).1.Failure? ==> View(Complete(t, c).0) == View(t)
    decreases Phase(c), Left(c)
  {
    hide TablesOk, CallOk, View, WritesRow, Advance;
    if !c.Finished? {
      AdvanceDescends(t, c);
      AdvanceKeeps(t, c);
      OneStatement(t, c);
      SuccessEnds(t, c);
      var (t', c') := Advance(t, c);
      CompleteKeeps(t', c');
      if !WritesRow(t, c) {
        OtherStatementsInvisible(t, c);
      }
    }
  }

  ghost predicate DraftCall(t: Tables, c: Call) {
    (c.CheckingRoles? || c.CheckingEndpoints? || c.Writing?)
    && (!c.create ==> c.value.status != Published && !LivePublished(t, c.value.id))
  }

  /** A call that carries an unpublished policy leaves the policies in force alone. */
  lemma {:induction false} DraftInvisible(t: Tables, c: Call)
    requires TablesOk(t) && CallOk(t, c) && (DraftCall(t, c) || c.Finished?)
    ensures View(Complete(t, c).0) == View(t)
    decreases Phase(c), Left(c)
  {
    assert c.Writing? && c.create ==> c.value.status == Draft;
    hide TablesOk, CallOk, View, SaveError, Saved, RoleChecked, EndpointChecked, Checked;
    if c.Finished? {
      return;
    }
    AdvanceKeeps(t, c);
    if c.Writing? {
      WritingEnds(t, c.create, c.value);
      if SaveError(t, c.value, c.create).None? {
        WritingView(t, c.value, c.create);
        NotInForce(t, c.value, c.create);
      }
      return;
    }
    AdvanceDescends(t, c);
    DraftStays(t, c);
    OneStatement(t, c);
    DraftInvisible(t, Advance(t, c).1);
  }

  lemma NotInForce(t: Tables, v: Policy, create: bool)
    requires SaveError(t, v, create).None? && (!create ==> !LivePublished(t, v.id))
    ensures View(t) - {v.id} == View(t)
  {
    assert v.id !in View(t);
  }

  lemma DraftStays(t: Tables, c: Call)
    requires DraftCall(t, c) && !c.Writing?
    ensures Advance(t, c).0 == t
    ensures DraftCall(t, Advance(t, c).1) || Advance(t, c).1.Finished?
  {
    hide Compiled, LivePublished;
  }

  /** What Get returns. */
  ghost function Gotten(t: Tables, id: Uuid): Result<Policy, Error> {
    var row := RowRead(t, id);
    if row.Failure? then row
    else Success(row.value.(roleIDs := BoundInOrder(t, id), endpointIDs := TargetedInOrder(t, id)))
  }

  /** The policies in force after a call that succeeded. */
  ghost predicate InForceAfter(t: Tables, t': Tables, req: Request) {
    match req
    case CreateReq(_) => View(t') == View(t)
    case UpdateReq(_) => View(t') == View(t)
    case PublishReq(id) =>
      && Gotten(t, id).Success?
      && var v := Gotten(t, id).value;
         var s := Compiled(AsSnapshot(v, v.currentVersion + 1));
         s.Success? && View(t') == View(t)[id := s.value]
    case RollbackReq(id, version) =>
      VersionOf(t, id, version).Success? && View(t') == View(t)[id := VersionOf(t, id, version).value]
    case DeleteReq(id) => View(t') == View(t) - {id}
  }

  lemma CreateEffect(t: Tables, v: Policy)
    requires TablesOk(t)
    ensures View(Complete(t, Started(CreateReq(v))).0) == View(t)
  {
    OneStatement(t, Started(CreateReq(v)));
    hide TablesOk, View, SaveError, Normalized;
    var next := AfterValidation(t, true, v);
    NormalizedOk(t, true, v);
    DraftInvisible(t, next);
  }

  /** normalizeAndValidate keeps the id, the scope of a stored policy, and its status. */
  lemma NormalizedOk(t: Tables, create: bool, v: Policy)
    requires !create ==> CarriesRow(t, v) && Trimmed(v.scope) && !LivePublished(t, v.id) && v.status != Published
    ensures CallOk(t, AfterValidation(t, create, v))
    ensures AfterValidation(t, create, v).Finished? || DraftCall(t, AfterValidation(t, create, v))
  {
    TrimIsTrimmed(v.scope);
  }

  lemma UpdateEffect(t: Tables, v: Policy)
    requires TablesOk(t) && Complete(t, Started(UpdateReq(v))).1.Success?
    ensures View(Complete(t, Started(UpdateReq(v))).0) == View(t)
  {
    var req := UpdateReq(v);
    LoadsGotten(t, req, v.id);
    hide View, SaveError, Normalized, Gotten, BoundInOrder, TargetedInOrder, LoadVersion, RowAgrees, TrimmedRoles;
    var found := Gotten(t, v.id).value;
    GottenRow(t, v.id);
    var value := v.(scope := found.scope, status := found.status, currentVersion := found.currentVersion);
    assert found.status != Published;
    NormalizedOk(t, false, value);
    DraftInvisible(t, AfterValidation(t, false, value));
  }

  /** Get comes first: a call that succeeds has found its policy. */
  lemma LoadsGotten(t: Tables, req: Request, id: Uuid)
    requires req.UpdateReq? || req.PublishReq? || req.RollbackReq?
    requires RequestID(req) == id && Complete(t, Started(req)).1.Success?
    ensures Gotten(t, id).Success? && Complete(t, Started(req)) == Complete(t, Loaded(req, Gotten(t, id).value))
    ensures req.RollbackReq? ==> req.version >= 1
  {
    OneStatement(t, Started(req));
    hide Loaded, BoundInOrder, TargetedInOrder, RowRead;
    assert id != NIL_UUID && (req.RollbackReq? ==> req.version >= 1);
    GetRuns(t, req, id);
  }

  lemma GottenRow(t: Tables, id: Uuid)
    requires Gotten(t, id).Success?
    ensures var v := Gotten(t, id).value;
            && LivePolicy(t, id) && v.id == id && CarriesRow(t, v) && v.status == t.policies[id].status
            && v.currentVersion == t.policies[id].currentVersion
  {
    hide BoundInOrder, TargetedInOrder, Load;
  }

  lemma GottenOk(t: Tables, req: Request, id: Uuid)
    requires TablesOk(t) && RequestID(req) == id && Gotten(t, id).Success?
    ensures CallOk(t, Loaded(req, Gotten(t, id).value))
  {
    GottenRow(t, id);
    LexOrder();
    SortSetOnce(Bound(t, id), LexLe);
    LoadedKeeps(t, req, Gotten(t, id).value);
  }

  /** A write of a published row that succeeds puts its stored version in force. */
  lemma WriteInForce(t: Tables, v: Policy)
    requires TablesOk(t) && CallOk(t, Writing(false, v)) && v.status == Published
    requires Complete(t, Writing(false, v)).1.Success?
    ensures (v.id, v.currentVersion) in t.versions && LoadVersion(t.versions[(v.id, v.currentVersion)]).Success?
    ensures View(Complete(t, Writing(false, v)).0)
            == View(t)[v.id := LoadVersion(t.versions[(v.id, v.currentVersion)]).value]
  {
    hide TablesOk, CallOk, SaveError, LoadVersion, View, Saved;
    WritingEnds(t, false, v);
    WritingView(t, v, false);
  }

  /** The last two transactions of Publish. */
  lemma PublishWrites(t: Tables, v: Policy, s: Snapshot)
    requires TablesOk(t) && CallOk(t, SavingVersion(v, s)) && VersionError(t, s).None?
    requires var last := Writing(false, v.(status := Published, currentVersion := s.version));
             Complete(VersionSaved(t, s), last).1.Success?
    ensures var last := Writing(false, v.(status := Published, currentVersion := s.version));
            View(Complete(VersionSaved(t, s), last).0) == View(t)[v.id := s]
  {
    hide TablesOk, CallOk, Compiled, VersionError, StoreVersion, LoadVersion, View, Complete, CarriesRow;
    StoredBack(t, v, s);
    SavingVersionKeeps(t, v, s);
    SaveVersionInvisible(t, s);
    var t1, v1 := VersionSaved(t, s), v.(status := Published, currentVersion := s.version);
    WriteInForce(t1, v1);
    assert t1.versions[(v.id, s.version)] == StoreVersion(s);
  }

  lemma StoredBack(t: Tables, v: Policy, s: Snapshot)
    requires TablesOk(t) && CallOk(t, SavingVersion(v, s))
    ensures LoadVersion(StoreVersion(s)) == Success(s) && s.policyID == v.id
  {
    assert Trimmed(v.scope);
    hide TablesOk;
    StoredVersionOk(t, v, s);
  }

  /** A Publish that succeeds has compiled what it loaded and stored that version. */
  lemma PublishStores(t: Tables, v: Policy)
    requires Complete(t, Loaded(PublishReq(v.id), v)).1.Success?
    ensures var s := Compiled(AsSnapshot(v, v.currentVersion + 1));
            && s.Success? && Loaded(PublishReq(v.id), v) == SavingVersion(v, s.value)
            && VersionError(t, s.value).None?
            && var last := Writing(false, v.(status := Published, currentVersion := s.value.version));
               Complete(t, SavingVersion(v, s.value)) == Complete(VersionSaved(t, s.value), last)
  {
    hide VersionSaved, VersionError, Compiled, Complete;
    FinishedFails(t, Conflict);
    FinishedFails(t, InvalidArgument);
    var s := Compiled(AsSnapshot(v, v.currentVersion + 1));
    if s.Success? {
      SavingVersionRuns(t, v, s.value);
    }
  }

  lemma PublishEffect(t: Tables, id: Uuid)
    requires TablesOk(t) && Complete(t, Started(PublishReq(id))).1.Success?
    ensures InForceAfter(t, Complete(t, Started(PublishReq(id))).0, PublishReq(id))
  {
    hide TablesOk, Gotten, CallOk, VersionSaved, VersionError, Compiled, View, Complete, CarriesRow, LivePolicy, Loaded;
    LoadsGotten(t, PublishReq(id), id);
    GottenRow(t, id);
    GottenOk(t, PublishReq(id), id);
    var v := Gotten(t, id).value;
    PublishStores(t, v);
    PublishWrites(t, v, Compiled(AsSnapshot(v, v.currentVersion + 1)).value);
  }

  lemma FailuresEnd(t: Tables)
    ensures forall e: Error :: Complete(t, Failed(e)) == (t, Failure(e))
  {
  }

  lemma FinishedFails(t: Tables, e: Error)
    ensures Complete(t, Failed(e)) == (t, Failure(e))
  {
  }

  lemma RollbackEffect(t: Tables, id: Uuid, version: int)
    requires TablesOk(t) && Complete(t, Started(RollbackReq(id, version))).1.Success?
    ensures InForceAfter(t, Complete(t, Started(RollbackReq(id, version))).0, RollbackReq(id, version))
  {
    var req := RollbackReq(id, version);
    LoadsGotten(t, req, id);
    GottenRow(t, id);
    hide TablesOk, Gotten, SaveError, View, LoadVersion, Saved;
    var v := Gotten(t, id).value;
    VersionDueRuns(t, v, version);
    VersionDueKeeps(t, v, version);
    var s := VersionOf(t, id, version).value;
    hide CallOk;
    WritingEnds(t, false, Restored(v, s, version));
    WritingView(t, Restored(v, s, version), false);
  }

  lemma DeletionView(t: Tables, id: Uuid)
    requires LivePolicy(t, id)
    ensures View(SoftDeleted(t, id)) == View(t) - {id}
  {
    hide View;
    RowChangeView(t, SoftDeleted(t, id), id);
  }

  lemma DeleteEffect(t: Tables, id: Uuid)
    requires TablesOk(t) && Complete(t, Started(DeleteReq(id))).1.Success?
    ensures View(Complete(t, Started(DeleteReq(id))).0) == View(t) - {id}
  {
    hide TablesOk, View, SoftDeleted;
    OneStatement(t, Started(DeleteReq(id)));
    if LivePolicy(t, id) {
      DeletionView(t, id);
    }
  }

  /**
   * A call that fails leaves every policy in force as it was. Create and Update never change what is in
   * force; Publish puts in force exactly the compiled content of the policy it loaded, at the next
   * version; Rollback exactly the stored version; Delete takes its policy out of force; no call touches
   * any other policy in force.
   */
  lemma {:induction false} CallEffect(t: Tables, req: Request)
    requires TablesOk(t)
    ensures var (t', result) := Complete(t, Started(req));
            TablesOk(t') && (if result.Failure? then View(t') == View(t) else InForceAfter(t, t', req))
  {
    hide TablesOk, View, CallOk, Advance, SaveError, BoundInOrder, TargetedInOrder, Compiled;
    StartedOk(t, req);
    CompleteKeeps(t, Started(req));
    if Complete(t, Started(req)).1.Failure? {
      return;
    }
    match req
    case CreateReq(v) => CreateEffect(t, v);
    case UpdateReq(v) => UpdateEffect(t, v);
    case PublishReq(id) => PublishEffect(t, id);
    case RollbackReq(id, version) => RollbackEffect(t, id, version);
    case DeleteReq(id) => DeleteEffect(t, id);
  }
}
