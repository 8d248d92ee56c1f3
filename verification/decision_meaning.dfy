/** What Decide answers, in terms of the request's fields and the tables' rows alone. */
module DecisionMeaning {
  import opened Wrappers
  import opened Text
  import opened PolicyModel
  import opened Validate
  import opened ConditionJson
  import opened Eval
  import opened Tables
  import opened PolicyRepo
  import opened Rbac
  import opened RbacRepo
  import opened PolicyMachine
  import opened DecisionPoint

  // ---- the vocabulary: rows and fields -----------------------------------------------------

  /** A role the subject holds: a live, enabled role of the scope with a live assignment. */
  ghost predicate RoleHeld(t: Tables, subject: string, scope: string, r: string) {
    && r in t.roles && !t.roles[r].deleted && t.roles[r].enabled && t.roles[r].scope == scope
    && (subject, r) in t.userRoles && t.userRoles[(subject, r)]
  }

  /** The snapshot a live row with status published points at. */
  ghost predicate PublishedAs(t: Tables, p: Uuid, s: Snapshot) {
    && p in t.policies && !t.policies[p].deleted && t.policies[p].status == Published
    && (p, t.policies[p].currentVersion) in t.versions
    && var row := t.versions[(p, t.policies[p].currentVersion)];
       Load(row.condition) == Some(s.condition) && s == row.body.(condition := s.condition)
  }

  /** The request as conditions see it: with its scope and subject id trimmed. */
  ghost function Cleaned(request: Input): Input {
    request.(serviceResource := Trim(request.serviceResource),
             subject := request.subject.(id := Trim(request.subject.id)))
  }

  /** A snapshot that takes part: of the request's type, scope and endpoint, naming a held role, its condition true. */
  ghost predicate TakesPart(roles: Tables, s: Snapshot, request: Input) {
    && s.authorizationType == request.authorizationType
    && s.serviceResource == Trim(request.serviceResource)
    && request.resource.endpointID in s.endpointIDs
    && (exists r <- s.roleIDs :: RoleHeld(roles, Trim(request.subject.id), Trim(request.serviceResource), r))
    && (s.condition.Some? ==> Holds(s.condition.value, Cleaned(request)))
  }

  ghost predicate SomeoneAllows(roles: Tables, policies: Tables, request: Input) {
    exists p, s :: PublishedAs(policies, p, s) && TakesPart(roles, s, request)
  }

  ghost predicate SomeoneDenies(roles: Tables, policies: Tables, request: Input) {
    exists p, s :: PublishedAs(policies, p, s) && TakesPart(roles, s, request) && s.effect == Deny
  }

  /** The request names a known type, an active scope, and a live endpoint. */
  ghost predicate FindsEndpoint(catalog: Tables, endpoints: Tables, request: Input) {
    var scope, e := Trim(request.serviceResource), request.resource.endpointID;
    && (request.authorizationType == Api || request.authorizationType == Data)
    && scope in catalog.catalog && catalog.catalog[scope]
    && e != 0 && e in endpoints.endpoints && !endpoints.endpoints[e].deleted
  }

  /** The endpoint is enabled and of the request's scope, and scope and subject are well-formed names. */
  ghost predicate ReachesEngine(catalog: Tables, endpoints: Tables, request: Input) {
    var scope, subject, e := Trim(request.serviceResource), Trim(request.subject.id), request.resource.endpointID;
    && FindsEndpoint(catalog, endpoints, request)
    && endpoints.endpoints[e].scope == scope && endpoints.endpoints[e].enabled
    && 0 < |scope| <= 128 && 0 < ByteLength(subject) <= 80
  }

  ghost predicate WellFormedRequest(request: Input) {
    && !AllSpace(request.tenantID) && request.resource.kind == ApiEndpoint && request.action.kind == Http
  }

  ghost predicate Says(answer: Answer, decision: Decision, reason: ReasonCode) {
    answer.Answered? && answer.result.decision == decision && answer.result.reason == reason
  }

  // ---- roles -------------------------------------------------------------------------------

  lemma AcceptedNames(subject: string, scope: string)
    ensures ValidID(Trim(subject)).Success? <==> 0 < ByteLength(Trim(subject)) <= 80
    ensures ValidScope(Trim(scope)).Success? <==> 0 < |Trim(scope)| <= 128
    ensures Trim(Trim(subject)) == Trim(subject) && Trim(Trim(scope)) == Trim(scope)
  {
    TrimIsTrimmed(subject);
    TrimIsTrimmed(scope);
    ByteLengthBounds(Trim(subject));
    hide Trim;
  }

  /** The engine's roles are exactly those the tables say the subject holds; the request's own are never among them. */
  lemma {:induction false} RolesComeFromTables(t: Tables, request: Input)
    requires 0 < |Trim(request.serviceResource)| <= 128 && 0 < ByteLength(Trim(request.subject.id)) <= 80
    ensures forall r :: r in Trusted(t, TrimInput(request)).subject.roleIDs <==>
                        RoleHeld(t, Trim(request.subject.id), Trim(request.serviceResource), r)
  {
    var subject, scope := Trim(request.subject.id), Trim(request.serviceResource);
    AcceptedNames(request.subject.id, request.serviceResource);
    hide Trim, ByteLength, ValidID, ValidScope, HeldRoles, SecondOf;
    RoleIDsAccepted(t, subject, scope);
    ListedAreHeld(t, subject, scope);
  }

  lemma RoleIDsAccepted(t: Tables, subject: string, scope: string)
    ensures RoleIDsOf(t, subject, scope).Success? <==> ValidID(subject).Success? && ValidScope(scope).Success?
  {
    hide ValidID, ValidScope, HeldRoles, SecondOf;
  }

  /** Requests that differ only in the roles they bring get the same answer, wherever the four reads fall. */
  lemma {:induction false} OwnRolesDoNotCount(
    c: Tables, e: Tables, r: Tables, p: Tables, request: Input, other: seq<string>)
    ensures DecideAcross(c, e, r, p, request.(subject := request.subject.(roleIDs := other)))
            == DecideAcross(c, e, r, p, request)
    ensures Decide(p, request.(subject := request.subject.(roleIDs := other))) == Decide(p, request)
  {
    hide Listed, RoleIDsOf, Evaluation, Trim, ScopeError;
  }

  // ---- votes -------------------------------------------------------------------------------

  lemma SameMeaning(c: Condition, a: Input, b: Input)
    requires WellFormed(c) && a.subject.id == b.subject.id && a.subject.attributes == b.subject.attributes
    requires a.resource == b.resource && a.tenantID == b.tenantID && a.action == b.action && a.context == b.context
    ensures Holds(c, a) <==> Holds(c, b)
  {
    WellFormedEvaluates(c, a);
    WellFormedEvaluates(c, b);
    hide Holds;
    var everything := {FromSubject, FromResource, FromRequest, FromContext, Literal};
    WellFormedReads(c, everything);
    RootsAreIndependent(c, a, b, everything);
  }

  lemma {:induction false} WellFormedReads(c: Condition, sources: set<Source>)
    requires WellFormed(c) && sources == {FromSubject, FromResource, FromRequest, FromContext, Literal}
    ensures ReadsOnly(c, sources)
  {
    forall k | k in c.all ensures ReadsOnly(k, sources) {
      WellFormedReads(k, sources);
    }
    forall k | k in c.any ensures ReadsOnly(k, sources) {
      WellFormedReads(k, sources);
    }
    if c.not.Some? {
      WellFormedReads(c.not.value, sources);
    }
    if c.comparison.Some? {
      LeafReads(c.comparison.value, sources);
    }
  }

  lemma LeafReads(leaf: Comparison, sources: set<Source>)
    requires sources == {FromSubject, FromResource, FromRequest, FromContext, Literal}
    requires LeafOk(leaf)
    ensures leaf.left.source in sources && (leaf.right.Some? ==> leaf.right.value.source in sources)
  {
    hide Blank, Contains;
  }

  lemma ViewIsPublished(t: Tables, p: Uuid, s: Snapshot)
    requires TablesOk(t)
    ensures PublishedAs(t, p, s) <==> p in View(t) && View(t)[p] == s
  {
    hide TablesOk, Load;
  }

  /** On a listed snapshot, the engine's vote is the declared one. */
  lemma VoteIsTakingPart(r: Tables, s: Snapshot, request: Input)
    requires ValidCondition(s.condition)
    requires 0 < |Trim(request.serviceResource)| <= 128 && 0 < ByteLength(Trim(request.subject.id)) <= 80
    ensures Votes(s, Trusted(r, TrimInput(request))) <==> TakesPart(r, s, request)
  {
    RolesComeFromTables(r, request);
    var input := Trusted(r, TrimInput(request));
    if s.condition.Some? {
      SameMeaning(s.condition.value, input, Cleaned(request));
    }
    hide Holds, RoleIDsOf, RoleHeld, Trim, ByteLength, ValidCondition;
  }

  /** The verdict over the listing is the verdict over the rows. */
  lemma ListingVerdict(r: Tables, p: Tables, request: Input, listed: seq<Snapshot>)
    requires TablesOk(p)
    requires 0 < |Trim(request.serviceResource)| <= 128 && 0 < ByteLength(Trim(request.subject.id)) <= 80
    requires ListsExactly(View(p), Trim(request.serviceResource), request.resource.endpointID, listed)
    ensures SomeVote(listed, Trusted(r, TrimInput(request))) <==> SomeoneAllows(r, p, request)
    ensures SomeDeny(listed, Trusted(r, TrimInput(request))) <==> SomeoneDenies(r, p, request)
  {
    hide TablesOk, Trusted, Trim, TakesPart, ValidCondition, ByteLength, Votes, PublishedAs;
    var input := Trusted(r, TrimInput(request));
    forall q, s ensures PublishedAs(p, q, s) <==> q in View(p) && View(p)[q] == s {
      ViewIsPublished(p, q, s);
    }
    hide View;
    forall s | s in listed ensures Votes(s, input) <==> TakesPart(r, s, request) {
      InForceValid(p, s);
      VoteIsTakingPart(r, s, request);
    }
    forall q, s | PublishedAs(p, q, s) && TakesPart(r, s, request) ensures s in listed {
      assert s in View(p).Values;
      TakingPartIsLocal(r, s, request);
    }
    forall s | s in listed ensures exists q :: PublishedAs(p, q, s) {
      var q :| q in View(p) && View(p)[q] == s;
      assert PublishedAs(p, q, s);
    }
  }

  lemma TakingPartIsLocal(r: Tables, s: Snapshot, request: Input)
    requires TakesPart(r, s, request)
    ensures s.serviceResource == Trim(request.serviceResource) && request.resource.endpointID in s.endpointIDs
  {
  }

  lemma InForceValid(t: Tables, s: Snapshot)
    requires TablesOk(t) && s in View(t).Values
    ensures ValidCondition(s.condition)
  {
    var q :| q in View(t) && View(t)[q] == s;
    ViewAgrees(t, q);
  }

  // ---- the answer --------------------------------------------------------------------------

  /**
   * What Decide answers, exactly, with its reads on four states of tables in order: an allow if and only if
   * the request gets to the engine, is well formed, some published snapshot takes part and none that takes
   * part denies; an explicit deny if and only if one does; a default deny if and only if none takes part; and
   * for an endpoint it finds, the two denials that need no policy.
   */
  lemma {:induction false} DecideExactly(c: Tables, e: Tables, r: Tables, p: Tables, request: Input)
    requires TablesOk(p)
    ensures var answer := DecideAcross(c, e, r, p, request);
            var reaches := ReachesEngine(c, e, request) && WellFormedRequest(request);
            && (Says(answer, DecisionAllow, AllowedByPolicy) <==>
                  reaches && SomeoneAllows(r, p, request) && !SomeoneDenies(r, p, request))
            && (Says(answer, DecisionDeny, ExplicitDeny) <==> reaches && SomeoneDenies(r, p, request))
            && (Says(answer, DecisionDeny, DefaultDeny) <==> reaches && !SomeoneAllows(r, p, request))
            && (Allowed(answer) ==> Says(answer, DecisionAllow, AllowedByPolicy))
    ensures var answer, id := DecideAcross(c, e, r, p, request), request.resource.endpointID;
            && (answer == Answered(EvalResult(DecisionDeny, ScopeMismatch, [], 0)) <==>
                  FindsEndpoint(c, e, request) && e.endpoints[id].scope != Trim(request.serviceResource))
            && (answer == Answered(EvalResult(DecisionDeny, EndpointDisabled, [], 0)) <==>
                  FindsEndpoint(c, e, request) && e.endpoints[id].scope == Trim(request.serviceResource)
                  && !e.endpoints[id].enabled)
  {
    hide TablesOk, View, Evaluation, Listed, RoleIDsOf, SomeoneAllows, SomeoneDenies, Trim, ByteLength, ListsExactly,
      ByPriority, ValidSnapshots, ValidID, ValidScope, SomeVote, SomeDeny;
    var input := TrimInput(request);
    AcceptedNames(request.subject.id, request.serviceResource);
    RoleIDsAccepted(r, input.subject.id, input.serviceResource);
    IndexAgreement(p, input.serviceResource, input.resource.endpointID);
    var listed := Listed(p, input.serviceResource, input.resource.endpointID).value;
    var trusted := Trusted(r, input);
    RefusesExactly(trusted, listed);
    TrimmedNotSpace(request.serviceResource);
    TrimmedNotSpace(request.subject.id);
    if ReachesEngine(c, e, request) {
      ListingVerdict(r, p, request, listed);
      if Evaluable(trusted) {
        DenyOverrides(trusted, listed);
        DenyVotes(listed, trusted);
      }
    }
  }

  lemma DenyVotes(listed: seq<Snapshot>, input: Input)
    ensures SomeDeny(listed, input) ==> SomeVote(listed, input)
  {
    hide Votes;
  }

  lemma TrimmedNotSpace(s: string)
    ensures 0 < |Trim(s)| ==> !AllSpace(Trim(s))
    ensures ByteLength(Trim(s)) > 0 ==> |Trim(s)| > 0
  {
    TrimIsTrimmed(s);
    hide Trim;
  }

  /** An allowed decision rests on a held role: live, enabled, of the scope, and assigned to the subject. */
  lemma AllowedNeedsHeldRole(c: Tables, e: Tables, r: Tables, p: Tables, request: Input)
    requires TablesOk(p) && Allowed(DecideAcross(c, e, r, p, request))
    ensures exists q, s, role ::
              && PublishedAs(p, q, s) && role in s.roleIDs && request.resource.endpointID in s.endpointIDs
              && RoleHeld(r, Trim(request.subject.id), Trim(request.serviceResource), role)
  {
    hide TablesOk, DecideAcross, ReachesEngine, PublishedAs, RoleHeld, Holds;
    DecideExactly(c, e, r, p, request);
    var q, s :| PublishedAs(p, q, s) && TakesPart(r, s, request);
    var role :| role in s.roleIDs && RoleHeld(r, Trim(request.subject.id), Trim(request.serviceResource), role);
  }
}
