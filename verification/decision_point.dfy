/** AuthorizationPolicyService.Decide, and what its answers depend on. */
module DecisionPoint {
  import opened Wrappers
  import opened Text
  import opened Sorting
  import opened PolicyModel
  import opened Validate
  import opened ConditionJson
  import opened Compile
  import opened Eval
  import opened Tables
  import opened PolicyRepo
  import opened Rbac
  import opened PolicyMachine

  datatype Answer =
    | Answered(result: EvalResult)
    | AnsweredWithError(result: EvalResult, error: Error)
    | NoAnswer(error: Error)
    | EngineCrash

  function Denied(reason: ReasonCode): EvalResult {
    EvalResult(DecisionDeny, reason, [], 0)
  }

  function TrimInput(input: Input): Input {
    input.(serviceResource := Trim(input.serviceResource), subject := input.subject.(id := Trim(input.subject.id)))
  }

  function WithRoles(input: Input, roleIDs: seq<string>): Input {
    input.(subject := input.subject.(roleIDs := roleIDs))
  }

  function FromEngine(outcome: Outcome): Answer {
    match outcome
    case Decided(result) => Answered(result)
    case Refused(result) => AnsweredWithError(result, InvalidArgument)
    case Crashed => EngineCrash
  }

  /** Everything Decide settles before it asks for policies. */
  ghost function Settled(t: Tables, input: Input): Option<Answer> {
    var id := input.resource.endpointID;
    if input.authorizationType.OtherAuthorization? then Some(AnsweredWithError(INVALID, InvalidArgument))
    else if ScopeError(t, input.serviceResource).Some? then Some(NoAnswer(ScopeError(t, input.serviceResource).value))
    else if id == NIL_UUID then Some(NoAnswer(InvalidArgument))
    else if !LiveEndpoint(t, id) then Some(NoAnswer(NotFound))
    else if t.endpoints[id].scope != input.serviceResource then Some(Answered(Denied(ScopeMismatch)))
    else if !t.endpoints[id].enabled then Some(Answered(Denied(EndpointDisabled)))
    else
      var roleIDs := RoleIDsOf(t, input.subject.id, input.serviceResource);
      if roleIDs.Failure? then Some(NoAnswer(roleIDs.error)) else None
  }

  /** The input the engine sees: the subject's roles come from the tables, never from the request. */
  ghost function Trusted(t: Tables, input: Input): Input {
    var roleIDs := RoleIDsOf(t, input.subject.id, input.serviceResource);
    WithRoles(input, if roleIDs.Success? then roleIDs.value else [])
  }

  /** Decide on one state of the tables. */
  ghost function Decide(t: Tables, request: Input): Answer {
    var input := TrimInput(request);
    var settled := Settled(t, input);
    if settled.Some? then settled.value
    else
      var listed := Listed(t, input.serviceResource, input.resource.endpointID);
      if listed.Failure? then NoAnswer(listed.error)
      else FromEngine(Evaluation(Trusted(t, input), listed.value))
  }

  // ---- the published view ------------------------------------------------------------------

  /** The snapshots in force: one for each live published policy. */
  ghost function View(t: Tables): map<Uuid, Snapshot> {
    map p | p in t.policies && LivePublished(t, p) && HasCurrentVersion(t, p) && Current(t, p).Success?
      :: Current(t, p).value
  }

  ghost function ViewKeys(view: map<Uuid, Snapshot>, scope: string, endpoint: Uuid): set<RankedKey> {
    set p | p in view && view[p].serviceResource == scope && endpoint in view[p].endpointIDs :: (view[p].priority, p)
  }

  ghost function Pick(view: map<Uuid, Snapshot>, keys: seq<RankedKey>): (ss: seq<Snapshot>)
    requires forall k <- keys :: k.1 in view
    ensures |ss| == |keys| && forall i :: 0 <= i < |ss| ==> ss[i] == view[keys[i].1]
  {
    if keys == [] then []
    else
      var last := keys[|keys| - 1];
      assert last in keys;
      Pick(view, keys[..|keys| - 1]) + [view[last.1]]
  }

  ghost function ViewInOrder(view: map<Uuid, Snapshot>, scope: string, endpoint: Uuid): (keys: seq<RankedKey>)
    ensures forall k :: k in keys <==> k in ViewKeys(view, scope, endpoint)
  {
    RankOrder();
    SortSetOnce(ViewKeys(view, scope, endpoint), RankLe);
    SortSet(ViewKeys(view, scope, endpoint), RankLe)
  }

  /** A snapshot in force carries the ids, scope, priority and endpoints of its row and bindings. */
  lemma ViewAgrees(t: Tables, p: Uuid)
    requires TablesOk(t) && LivePublished(t, p)
    ensures p in View(t) && HasCurrentVersion(t, p) && Current(t, p) == Success(View(t)[p])
    ensures var s := View(t)[p];
            && s.policyID == p && s.version == t.policies[p].currentVersion
            && s.serviceResource == t.policies[p].scope && s.priority == t.policies[p].priority
            && (forall e :: e in s.endpointIDs <==> e in Targeted(t, p))
            && ValidCondition(s.condition)
  {
    assert RowAgrees(t, p);
    assert VersionOk(t, (p, t.policies[p].currentVersion));
    hide LoadVersion, Load;
    var s := Current(t, p).value;
    forall e ensures e in s.endpointIDs <==> e in Targeted(t, p) {
      assert e in s.endpointIDs <==> e in SetOf(s.endpointIDs);
    }
  }

  lemma KeysAgree(t: Tables, scope: string, endpoint: Uuid)
    requires TablesOk(t)
    ensures ListedKeys(t, scope, endpoint) == ViewKeys(View(t), scope, endpoint)
  {
    hide TablesOk, LoadVersion, ValidCondition;
    forall p | LivePublished(t, p) ensures p in View(t) && HasCurrentVersion(t, p) {
      ViewAgrees(t, p);
    }
    forall key ensures key in ListedKeys(t, scope, endpoint) <==> key in ViewKeys(View(t), scope, endpoint) {
      if LivePublished(t, key.1) {
        ViewAgrees(t, key.1);
      }
    }
  }

  lemma {:induction false} LoadedIsPicked(t: Tables, keys: seq<RankedKey>)
    requires TablesOk(t) && forall k <- keys :: LivePublished(t, k.1) && HasCurrentVersion(t, k.1) && k.1 in View(t)
    ensures LoadListed(t, keys) == Success(Pick(View(t), keys))
  {
    if keys != [] {
      var last := keys[|keys| - 1];
      assert last in keys;
      LoadedIsPicked(t, keys[..|keys| - 1]);
      ViewAgrees(t, last.1);
      hide TablesOk, View, LoadVersion;
    }
  }

  /** The indexed listing is a function of the view alone, and never fails. */
  lemma ListedIsView(t: Tables, scope: string, endpoint: Uuid)
    requires TablesOk(t)
    ensures Listed(t, scope, endpoint) == Success(Pick(View(t), ViewInOrder(View(t), scope, endpoint)))
  {
    KeysAgree(t, scope, endpoint);
    var keys := KeysInOrder(t, scope, endpoint);
    assert keys == ViewInOrder(View(t), scope, endpoint);
    forall k | k in keys ensures LivePublished(t, k.1) && HasCurrentVersion(t, k.1) && k.1 in View(t) {
      assert k in ListedKeys(t, scope, endpoint) && k in ViewKeys(View(t), scope, endpoint);
    }
    LoadedIsPicked(t, keys);
  }

  /** Exactly the snapshots in force for the scope that list the endpoint. */
  ghost predicate ListsExactly(view: map<Uuid, Snapshot>, scope: string, endpoint: Uuid, listed: seq<Snapshot>) {
    forall s :: s in listed <==> s in view.Values && s.serviceResource == scope && endpoint in s.endpointIDs
  }

  /** Each policy once, by falling priority. */
  ghost predicate ByPriority(listed: seq<Snapshot>) {
    forall i, j :: 0 <= i < j < |listed| ==>
      || listed[i].priority > listed[j].priority
      || (listed[i].priority == listed[j].priority && listed[i].policyID < listed[j].policyID)
  }

  ghost predicate PickedBy(view: map<Uuid, Snapshot>, keys: seq<RankedKey>, listed: seq<Snapshot>) {
    |listed| == |keys| && forall i :: 0 <= i < |keys| ==> keys[i].1 in view && listed[i] == view[keys[i].1]
  }

  lemma PickedMembers(
      view: map<Uuid, Snapshot>, scope: string, endpoint: Uuid, keys: seq<RankedKey>, listed: seq<Snapshot>)
    requires forall k :: k in keys <==> k in ViewKeys(view, scope, endpoint)
    requires PickedBy(view, keys, listed)
    ensures ListsExactly(view, scope, endpoint, listed)
  {
    forall s | s in listed ensures s in view.Values && s.serviceResource == scope && endpoint in s.endpointIDs {
      var i :| 0 <= i < |listed| && listed[i] == s;
      assert keys[i] in keys;
    }
    forall s | s in view.Values && s.serviceResource == scope && endpoint in s.endpointIDs ensures s in listed {
      var p :| p in view && view[p] == s;
      var key := (view[p].priority, p);
      assert key in keys;
      var i :| 0 <= i < |keys| && keys[i] == key;
      assert listed[i] == s;
    }
  }

  lemma PickedOrder(
      view: map<Uuid, Snapshot>, scope: string, endpoint: Uuid, keys: seq<RankedKey>, listed: seq<Snapshot>)
    requires forall p <- view :: view[p].policyID == p
    requires forall k :: k in keys <==> k in ViewKeys(view, scope, endpoint)
    requires PickedBy(view, keys, listed) && Ordered(keys, RankLe) && NoDuplicates(keys)
    ensures ByPriority(listed)
  {
    forall i, j | 0 <= i < j < |listed|
      ensures listed[i].priority > listed[j].priority
              || (listed[i].priority == listed[j].priority && listed[i].policyID < listed[j].policyID)
    {
      assert keys[i] in keys && keys[j] in keys;
      assert keys[i] != keys[j] && RankLe(keys[i], keys[j]);
    }
  }

  lemma ViewOrdered(view: map<Uuid, Snapshot>, scope: string, endpoint: Uuid)
    ensures Ordered(ViewInOrder(view, scope, endpoint), RankLe) && NoDuplicates(ViewInOrder(view, scope, endpoint))
  {
    RankOrder();
    SortSetOnce(ViewKeys(view, scope, endpoint), RankLe);
  }

  lemma PickIsPicked(view: map<Uuid, Snapshot>, keys: seq<RankedKey>)
    requires forall k <- keys :: k.1 in view
    ensures PickedBy(view, keys, Pick(view, keys))
  {
    assert forall i :: 0 <= i < |keys| ==> keys[i] in keys;
  }

  lemma PickedIsListing(view: map<Uuid, Snapshot>, scope: string, endpoint: Uuid)
    requires forall p <- view :: view[p].policyID == p
    ensures var listed := Pick(view, ViewInOrder(view, scope, endpoint));
            ListsExactly(view, scope, endpoint, listed) && ByPriority(listed)
  {
    var keys := ViewInOrder(view, scope, endpoint);
    ViewOrdered(view, scope, endpoint);
    var listed := Pick(view, keys);
    PickIsPicked(view, keys);
    hide ViewInOrder, ViewKeys, Pick, Ordered, NoDuplicates, RankLe, PickedBy, ListsExactly, ByPriority;
    PickedMembers(view, scope, endpoint, keys, listed);
    PickedOrder(view, scope, endpoint, keys, listed);
  }

  /**
   * Index agreement: the join through api_targets returns exactly the snapshots in force for the scope
   * whose own endpoint list contains the endpoint, each once, by falling priority.
   */
  lemma {:induction false} IndexAgreement(t: Tables, scope: string, endpoint: Uuid)
    requires TablesOk(t)
    ensures Listed(t, scope, endpoint).Success?
    ensures ListsExactly(View(t), scope, endpoint, Listed(t, scope, endpoint).value)
    ensures ByPriority(Listed(t, scope, endpoint).value)
    ensures ValidSnapshots(Listed(t, scope, endpoint).value)
    ensures forall s <- View(t).Values :: ValidCondition(s.condition)
  {
    forall p | p in View(t) ensures View(t)[p].policyID == p && ValidCondition(View(t)[p].condition) {
      ViewAgrees(t, p);
    }
    ListedIsView(t, scope, endpoint);
    hide View, TablesOk, Listed, ValidCondition, ViewInOrder, ByPriority;
    PickedIsListing(View(t), scope, endpoint);
  }

  // ---- decisions over the tables -----------------------------------------------------------

  ghost predicate AnswerIs(answer: Answer, verdict: (Decision, ReasonCode)) {
    answer.Answered? && (answer.result.decision, answer.result.reason) == verdict
  }

  /**
   * For a request that reaches the engine with valid input, Decide gives the verdict of deny-overrides over
   * every snapshot in force, unfiltered and in any order. It neither fails nor crashes.
   */
  lemma DecideIsDenyOverrides(t: Tables, request: Input, all: seq<Snapshot>)
    requires TablesOk(t)
    requires forall s :: s in all <==> s in View(t).Values
    requires var input := TrimInput(request); Settled(t, input).None? && ValidInput(Trusted(t, input))
    ensures var input := Trusted(t, TrimInput(request));
            && AnswerIs(Decide(t, request), Verdict(all, input))
            && Evaluation(input, all).Decided?
            && Verdict(all, input) == (Evaluation(input, all).result.decision, Evaluation(input, all).result.reason)
  {
    var input := Trusted(t, TrimInput(request));
    var scope, endpoint := input.serviceResource, input.resource.endpointID;
    IndexAgreement(t, scope, endpoint);
    var listed := Listed(t, scope, endpoint).value;
    hide TablesOk, View, Evaluation, Listed, ValidCondition, RoleIDsOf, ConditionHolds;
    assert Evaluable(input);
    assert Covers(listed, all, input);
    assert Covers(all, listed, input);
    SameVotesSameAnswer(input, listed, all);
    DenyOverrides(input, listed);
    DenyOverrides(input, all);
  }

  /** The same for every state that any interleaving of calls reaches, torn reads and abandoned calls included. */
  lemma {:induction false} EveryReachableDecision(w: World, events: seq<Event>, request: Input, all: seq<Snapshot>)
    requires WorldOk(w)
    requires forall s :: s in all <==> s in View(After(w, events).tables).Values
    ensures var t := After(w, events).tables;
            var input := Trusted(t, TrimInput(request));
            && (Settled(t, TrimInput(request)).None? && ValidInput(input)
                ==> AnswerIs(Decide(t, request), Verdict(all, input)))
            && !Decide(t, request).EngineCrash?
            && (Decide(t, request).AnsweredWithError? ==> !Evaluable(input))
  {
    hide View, TablesOk, CallOk, Decide, Settled, Verdict, Trusted, ValidInput, Evaluable, After;
    EveryRunIsSafe(w, events);
    var t := After(w, events).tables;
    DecideNeverFailsEvaluation(t, request);
    if Settled(t, TrimInput(request)).None? && ValidInput(Trusted(t, TrimInput(request))) {
      DecideIsDenyOverrides(t, request, all);
    }
  }

  /** Over any tables that satisfy the invariant, Decide never hits an evaluation error on valid input. */
  lemma DecideNeverFailsEvaluation(t: Tables, request: Input)
    requires TablesOk(t)
    ensures !Decide(t, request).EngineCrash?
    ensures var input := Trusted(t, TrimInput(request));
            Decide(t, request).AnsweredWithError? ==> !Evaluable(input)
  {
    var input := Trusted(t, TrimInput(request));
    IndexAgreement(t, input.serviceResource, input.resource.endpointID);
    hide TablesOk, View, Listed, ValidSnapshots, RoleIDsOf, Evaluation, Evaluable, Settled, ListsExactly, ByPriority;
    var listed := Listed(t, input.serviceResource, input.resource.endpointID).value;
    assert Evaluation(input, listed).Decided? || !Evaluable(input) by {
      if Evaluable(input) {
        DenyOverrides(input, listed);
      }
    }
    assert !Evaluation(input, listed).Crashed? by {
      if !Evaluable(input) {
        InvalidIsRefused(input, listed);
      }
    }
    if Settled(t, TrimInput(request)).Some? {
      SettledNeverErrs(t, TrimInput(request));
    }
  }

  // ---- reads that interleave with other calls ----------------------------------------------

  /** Settled, with the catalog, the endpoint and the roles each read from a state of their own. */
  ghost function SettledAcross(c: Tables, e: Tables, r: Tables, input: Input): Option<Answer> {
    var id := input.resource.endpointID;
    if input.authorizationType.OtherAuthorization? then Some(AnsweredWithError(INVALID, InvalidArgument))
    else if ScopeError(c, input.serviceResource).Some? then Some(NoAnswer(ScopeError(c, input.serviceResource).value))
    else if id == NIL_UUID then Some(NoAnswer(InvalidArgument))
    else if !LiveEndpoint(e, id) then Some(NoAnswer(NotFound))
    else if e.endpoints[id].scope != input.serviceResource then Some(Answered(Denied(ScopeMismatch)))
    else if !e.endpoints[id].enabled then Some(Answered(Denied(EndpointDisabled)))
    else
      var roleIDs := RoleIDsOf(r, input.subject.id, input.serviceResource);
      if roleIDs.Failure? then Some(NoAnswer(roleIDs.error)) else None
  }

  /** Decide with its four reads on four states: the catalog, the endpoint, the roles, the listing. */
  ghost function DecideAcross(c: Tables, e: Tables, r: Tables, p: Tables, request: Input): Answer {
    var input := TrimInput(request);
    var settled := SettledAcross(c, e, r, input);
    if settled.Some? then settled.value
    else
      var listed := Listed(p, input.serviceResource, input.resource.endpointID);
      if listed.Failure? then NoAnswer(listed.error)
      else FromEngine(Evaluation(Trusted(r, input), listed.value))
  }

  lemma DecideOnOneState(t: Tables, request: Input)
    ensures DecideAcross(t, t, t, t, request) == Decide(t, request)
  {
    hide Listed, RoleIDsOf, Evaluation;
  }

  /** The engine over the indexed listing gives the verdict over everything in force. */
  lemma EngineVerdict(p: Tables, input: Input, all: seq<Snapshot>)
    requires TablesOk(p)
    requires forall s :: s in all <==> s in View(p).Values
    ensures Listed(p, input.serviceResource, input.resource.endpointID).Success?
    ensures var listed := Listed(p, input.serviceResource, input.resource.endpointID).value;
            if Evaluable(input) then AnswerIs(FromEngine(Evaluation(input, listed)), Verdict(all, input))
            else FromEngine(Evaluation(input, listed)).AnsweredWithError?
  {
    var scope, endpoint := input.serviceResource, input.resource.endpointID;
    IndexAgreement(p, scope, endpoint);
    var listed := Listed(p, scope, endpoint).value;
    hide TablesOk, View, Evaluation, Listed, ValidCondition, Evaluable;
    if !Evaluable(input) {
      InvalidIsRefused(input, listed);
      return;
    }
    assert Covers(listed, all, input) && Covers(all, listed, input);
    SameVotesSameAnswer(input, listed, all);
    DenyOverrides(input, listed);
    DenyOverrides(input, all);
  }

  ghost predicate Allowed(answer: Answer) {
    answer.Answered? && answer.result.decision == DecisionAllow
  }

  /**
   * Decide among other calls: its four reads may fall anywhere in a run, in their order. It never crashes
   * and errs only on invalid input; a request that gets to the engine gets the deny-overrides verdict of
   * everything in force when the policies are listed, for the roles held when the roles are read; and it is
   * allowed only if the scope was active and the endpoint live, enabled and of the scope when they were read.
   */
  lemma {:induction false} InterleavedDecide(
    w: World, events: seq<Event>, i: nat, j: nat, k: nat, l: nat, request: Input, all: seq<Snapshot>)
    requires WorldOk(w) && i <= j <= k <= l <= |events|
    requires forall s :: s in all <==> s in View(After(w, events[..l]).tables).Values
    ensures var c, e := After(w, events[..i]).tables, After(w, events[..j]).tables;
            var r, p := After(w, events[..k]).tables, After(w, events[..l]).tables;
            var input, answer := Trusted(r, TrimInput(request)), DecideAcross(c, e, r, p, request);
            && !answer.EngineCrash? && (answer.AnsweredWithError? ==> !Evaluable(input))
            && (SettledAcross(c, e, r, TrimInput(request)).None? && ValidInput(input) ==>
                  AnswerIs(answer, Verdict(all, input)))
            && (Allowed(answer) ==>
                  && ScopeError(c, input.serviceResource).None? && LiveEndpoint(e, input.resource.endpointID)
                  && e.endpoints[input.resource.endpointID].scope == input.serviceResource
                  && e.endpoints[input.resource.endpointID].enabled
                  && Verdict(all, input) == (DecisionAllow, AllowedByPolicy))
  {
    hide TablesOk, View, CallOk, After, RoleIDsOf, Evaluation, Listed, Verdict, ScopeError, LiveEndpoint, ValidInput,
      Trim;
    EveryRunIsSafe(w, events[..l]);
    var c, e := After(w, events[..i]).tables, After(w, events[..j]).tables;
    var r, p := After(w, events[..k]).tables, After(w, events[..l]).tables;
    EngineVerdict(p, Trusted(r, TrimInput(request)), all);
    VerdictAllows(all, Trusted(r, TrimInput(request)));
  }

  lemma VerdictAllows(all: seq<Snapshot>, input: Input)
    ensures Verdict(all, input).0 == DecisionAllow ==> Verdict(all, input) == (DecisionAllow, AllowedByPolicy)
  {
  }

  lemma InvalidIsRefused(input: Input, ss: seq<Snapshot>)
    requires !Evaluable(input)
    ensures Evaluation(input, ss).Refused?
  {
  }

  lemma SettledNeverErrs(t: Tables, input: Input)
    requires Settled(t, input).Some?
    ensures !Settled(t, input).value.EngineCrash?
    ensures Settled(t, input).value.AnsweredWithError? ==> !Evaluable(Trusted(t, input))
  {
    hide RoleIDsOf;
  }

  lemma SameRoleIDs(t: Tables, t': Tables, subject: string, scope: string)
    requires t.roles == t'.roles && t.userRoles == t'.userRoles
    ensures RoleIDsOf(t, subject, scope) == RoleIDsOf(t', subject, scope)
  {
    forall u, s ensures HeldRoles(t, u, s) == HeldRoles(t', u, s) {}
  }

  lemma SameListing(t: Tables, t': Tables, scope: string, endpoint: Uuid)
    requires TablesOk(t) && TablesOk(t') && View(t) == View(t')
    ensures Listed(t, scope, endpoint) == Listed(t', scope, endpoint)
  {
    ListedIsView(t, scope, endpoint);
    ListedIsView(t', scope, endpoint);
  }

  /** Decide depends on the policies only through the view. */
  lemma {:induction false} DecideDependsOnView(t: Tables, t': Tables, request: Input)
    requires TablesOk(t) && TablesOk(t') && View(t) == View(t')
    requires t.endpoints == t'.endpoints && t.roles == t'.roles && t.userRoles == t'.userRoles
             && t.catalog == t'.catalog
    ensures Decide(t, request) == Decide(t', request)
  {
    hide TablesOk, View, Listed, RoleIDsOf, Evaluation;
    var input := TrimInput(request);
    SameRoleIDs(t, t', input.subject.id, input.serviceResource);
    SameListing(t, t', input.serviceResource, input.resource.endpointID);
  }

  // ---- publishing and rolling back ---------------------------------------------------------

  /** The only statements that can change the view: a successful write of a row, and a deletion. */
  ghost predicate WritesRow(t: Tables, c: Call) {
    || (c.Writing? && SaveError(t, c.value, c.create).None?)
    || (c.Started? && c.req.DeleteReq? && LivePolicy(t, c.req.id))
  }

  lemma SaveVersionInvisible(t: Tables, s: Snapshot)
    requires TablesOk(t) && VersionError(t, s).None?
    ensures View(VersionSaved(t, s)) == View(t)
  {
    var t' := VersionSaved(t, s);
    forall p | LivePublished(t, p)
      ensures HasCurrentVersion(t, p) && HasCurrentVersion(t', p) && Current(t', p) == Current(t, p)
    {
      assert RowAgrees(t, p);
      hide StoreVersion, LoadVersion, SameContent, Load;
    }
    hide TablesOk, StoreVersion, VersionError, Current, View;
    SameCurrentSameView(t, t');
  }

  lemma SameCurrentSameView(t: Tables, t': Tables)
    requires t'.policies == t.policies
    requires forall p | LivePublished(t, p) ::
               HasCurrentVersion(t, p) && HasCurrentVersion(t', p) && Current(t', p) == Current(t, p)
    ensures View(t') == View(t)
  {
    hide LoadVersion;
    assert forall p :: LivePublished(t', p) == LivePublished(t, p);
  }

  lemma OtherStatementsInvisible(t: Tables, c: Call)
    requires TablesOk(t) && !WritesRow(t, c)
    ensures View(Advance(t, c).0) == View(t)
  {
    hide View, TablesOk, SaveError, VersionError, Saved, VersionSaved, Found, AfterValidation, BoundInOrder,
      TargetedInOrder, Loaded, RoleChecked, EndpointChecked, VersionOf, Restored, LivePolicy, SoftDeleted;
    if c.SavingVersion? {
      if VersionError(t, c.snapshot).None? {
        SaveVersionInvisible(t, c.snapshot);
      }
    } else if !c.Writing? && !(c.Started? && c.req.DeleteReq?) {
      OnlyReads(t, c);
    }
  }

  /** Roles, menus, assignments, endpoints and the catalog put no policy in force. */
  lemma ElsewhereInvisible(t: Tables, step: Step)
    ensures View(Apply(t, step)) == View(t)
  {
    hide Apply, LoadVersion;
    ApplyKeepsPolicies(t, step);
    var t' := Apply(t, step);
    assert forall p :: LivePublished(t', p) == LivePublished(t, p);
  }

  /** An event that neither writes a policy row nor deletes one. */
  ghost predicate Quiet(w: World, e: Event) {
    e.Proceed? && e.k in w.calls ==> !WritesRow(w.tables, w.calls[e.k])
  }

  /** Until a call's final write succeeds, nothing it does changes the view or a listing; no other service does. */
  lemma UnfinishedCallsInvisible(w: World, e: Event, scope: string, endpoint: Uuid)
    requires WorldOk(w) && Quiet(w, e)
    ensures View(Next(w, e).tables) == View(w.tables)
    ensures Listed(Next(w, e).tables, scope, endpoint) == Listed(w.tables, scope, endpoint)
  {
    hide TablesOk, CallOk, View, Advance, Apply, WritesRow, Listed;
    NextKeeps(w, e);
    if e.Proceed? && e.k in w.calls {
      OtherStatementsInvisible(w.tables, w.calls[e.k]);
    } else if e.Elsewhere? {
      ElsewhereInvisible(w.tables, e.step);
    }
    ListedIsView(w.tables, scope, endpoint);
    ListedIsView(Next(w, e).tables, scope, endpoint);
  }

  ghost predicate QuietRun(w: World, events: seq<Event>) {
    events == []
    || (QuietRun(w, events[..|events| - 1]) && Quiet(After(w, events[..|events| - 1]), events[|events| - 1]))
  }

  /** However many calls are in flight: a run with no successful row write and no deletion changes no listing. */
  lemma {:induction false} QuietRunInvisible(w: World, events: seq<Event>, scope: string, endpoint: Uuid)
    requires WorldOk(w) && QuietRun(w, events)
    ensures View(After(w, events).tables) == View(w.tables)
    ensures Listed(After(w, events).tables, scope, endpoint) == Listed(w.tables, scope, endpoint)
  {
    hide WorldOk, View, Listed, Quiet, Next;
    if events != [] {
      var front := events[..|events| - 1];
      QuietRunInvisible(w, front, scope, endpoint);
      EveryRunIsSafe(w, front);
      UnfinishedCallsInvisible(After(w, front), events[|events| - 1], scope, endpoint);
    }
  }

  ghost predicate Succeeded(w: World, k: nat) {
    k in w.calls && w.calls[k].Finished? && w.calls[k].result.Success?
  }

  /** A statement after which call k has not succeeded wrote no row. */
  lemma NotYetWritten(w: World, k: nat)
    requires k in w.calls && !Succeeded(Next(w, Proceed(k)), k)
    ensures !WritesRow(w.tables, w.calls[k]) && !Succeeded(w, k)
  {
    SuccessEnds(w.tables, w.calls[k]);
    hide Advance, WritesRow;
  }

  /** The statement of call k between two points of a run changed neither the view nor a listing. */
  ghost predicate LeftInForce(w: World, w': World, scope: string, endpoint: Uuid) {
    && View(w'.tables) == View(w.tables)
    && Listed(w'.tables, scope, endpoint) == Listed(w.tables, scope, endpoint)
  }

  /**
   * In any interleaving, a Publish (or any call) that does not succeed leaves every listing alone with each
   * of its statements, wherever it stops; storing the version before the row update fails is no exception.
   */
  lemma {:induction false} FailedPublishInvisible(w: World, events: seq<Event>, k: nat, scope: string, endpoint: Uuid)
    requires WorldOk(w)
    requires forall i :: 0 <= i <= |events| ==> !Succeeded(After(w, events[..i]), k)
    ensures forall i :: 0 <= i < |events| && events[i] == Proceed(k) ==>
              LeftInForce(After(w, events[..i]), After(w, events[..i + 1]), scope, endpoint)
  {
    hide WorldOk, LeftInForce, Succeeded, After;
    forall i | 0 <= i < |events| && events[i] == Proceed(k)
      ensures LeftInForce(After(w, events[..i]), After(w, events[..i + 1]), scope, endpoint)
    {
      EveryRunIsSafe(w, events[..i]);
      AfterOneMore(w, events, i);
      assert !Succeeded(After(w, events[..i + 1]), k);
      FailingStatementInvisible(After(w, events[..i]), k, scope, endpoint);
    }
  }

  lemma AfterOneMore(w: World, events: seq<Event>, i: nat)
    requires i < |events|
    ensures After(w, events[..i + 1]) == Next(After(w, events[..i]), events[i])
  {
    hide Next;
    assert events[..i + 1][..i] == events[..i];
  }

  lemma FailingStatementInvisible(w: World, k: nat, scope: string, endpoint: Uuid)
    requires WorldOk(w) && !Succeeded(Next(w, Proceed(k)), k)
    ensures LeftInForce(w, Next(w, Proceed(k)), scope, endpoint)
  {
    hide WorldOk, Succeeded, WritesRow, View, Listed, Advance;
    if k in w.calls {
      NotYetWritten(w, k);
      UnfinishedCallsInvisible(w, Proceed(k), scope, endpoint);
    }
  }

  /** A call that has not succeeded after a statement did not write a row with it. */
  lemma SuccessEnds(t: Tables, c: Call)
    ensures WritesRow(t, c) ==> Advance(t, c).1.Finished? && Advance(t, c).1.result.Success?
    ensures c.Finished? ==> Advance(t, c) == (t, c)
  {
    hide SaveError, Saved, SoftDeleted, BoundInOrder, TargetedInOrder;
  }

  /** What stays equal between two states, apart from one policy. */
  ghost predicate SameOutside(t: Tables, t': Tables, p: Uuid) {
    && (forall q <- View(t) | q != p :: q in View(t') && View(t')[q] == View(t)[q])
    && (forall q <- View(t') | q != p :: q in View(t))
    && t.endpoints == t'.endpoints && t.roles == t'.roles && t.userRoles == t'.userRoles && t.catalog == t'.catalog
  }

  /** A version number always stands for the same snapshot. */
  lemma VersionFixesSnapshot(t: Tables, t': Tables, p: Uuid)
    requires TablesOk(t) && TablesOk(t') && Grows(t, t')
    requires LivePublished(t, p) && LivePublished(t', p)
             && t.policies[p].currentVersion == t'.policies[p].currentVersion
    ensures View(t)[p] == View(t')[p]
  {
    ViewAgrees(t, p);
    ViewAgrees(t', p);
  }

  /**
   * A successful Rollback to v makes every decision equal to the one given when v was current, other
   * state being equal, whatever happened in between.
   */
  lemma {:induction false} RollbackRestores(past: World, events: seq<Event>, k: nat, request: Input)
    requires WorldOk(past)
    requires var w := After(past, events);
             && k in w.calls && w.calls[k].Writing? && !w.calls[k].create
             && var v := w.calls[k].value;
                && v.status == Published && SaveError(w.tables, v, false).None?
                && LivePublished(past.tables, v.id) && past.tables.policies[v.id].currentVersion == v.currentVersion
                && SameOutside(past.tables, Next(w, Proceed(k)).tables, v.id)
    ensures Decide(Next(After(past, events), Proceed(k)).tables, request) == Decide(past.tables, request)
  {
    var w := After(past, events);
    var v := w.calls[k].value;
    var now := Next(w, Proceed(k));
    EveryRunIsSafe(past, events);
    WriteTakesEffect(w, k);
    hide After, Next, CallOk, SaveError, Decide, TablesOk, Saved, SameOutside;
    GrowsTransitive(past.tables, w.tables, now.tables);
    SameSnapshotSameView(past.tables, now.tables, v.id);
    DecideDependsOnView(past.tables, now.tables, request);
  }

  lemma WriteTakesEffect(w: World, k: nat)
    requires WorldOk(w) && k in w.calls && w.calls[k].Writing? && !w.calls[k].create
    requires w.calls[k].value.status == Published && SaveError(w.tables, w.calls[k].value, false).None?
    ensures var now, v := Next(w, Proceed(k)).tables, w.calls[k].value;
            && TablesOk(now) && Grows(w.tables, now)
            && LivePublished(now, v.id) && now.policies[v.id].currentVersion == v.currentVersion
  {
    NextKeeps(w, Proceed(k));
    hide SaveError, BoundInOrder, TargetedInOrder, TablesOk, CallOk, Grows, Store;
  }

  lemma GrowsTransitive(a: Tables, b: Tables, c: Tables)
    requires Grows(a, b) && Grows(b, c)
    ensures Grows(a, c)
  {
  }

  lemma SameSnapshotSameView(t: Tables, t': Tables, p: Uuid)
    requires TablesOk(t) && TablesOk(t') && Grows(t, t') && SameOutside(t, t', p)
    requires LivePublished(t, p) && LivePublished(t', p)
             && t.policies[p].currentVersion == t'.policies[p].currentVersion
    ensures View(t) == View(t')
    ensures t.endpoints == t'.endpoints && t.roles == t'.roles && t.userRoles == t'.userRoles && t.catalog == t'.catalog
  {
    assert p in View(t) && p in View(t') by {
      ViewAgrees(t, p);
      ViewAgrees(t', p);
    }
    VersionFixesSnapshot(t, t', p);
    hide View, TablesOk, Grows, LivePublished;
    EqualOutside(View(t), View(t'), p);
  }

  lemma EqualOutside(v: map<Uuid, Snapshot>, v': map<Uuid, Snapshot>, p: Uuid)
    requires p in v && p in v' && v[p] == v'[p]
    requires forall q <- v | q != p :: q in v' && v'[q] == v[q]
    requires forall q <- v' | q != p :: q in v
    ensures v == v'
  {
    assert forall q :: q in v <==> q in v';
  }
}
