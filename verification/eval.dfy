/** internal/policy/eval: the decision engine, and the declarative rule it implements. */
module Eval {
  import opened Wrappers
  import opened Text
  import opened Sorting
  import opened PolicyModel
  import opened Validate

  /** What evaluating a condition gives; the last two are an error and a nil dereference. */
  datatype Match = Matched(yes: bool) | Unsupported | NilDereference

  /** What evaluating a list of snapshots gives. */
  datatype Outcome = Decided(result: EvalResult) | Refused(result: EvalResult) | Crashed

  // ---- conditions --------------------------------------------------------------------------

  /** resolve: the value a reference denotes, if the input provides it. */
  function Resolve(ref: ValueRef, input: Input): Option<Json> {
    if ref.source.Literal? then Some(ref.value) else Lookup(ref.source, ref.path, input)
  }

  function Lookup(source: Source, path: string, input: Input): Option<Json> {
    match source
    case FromSubject => if path == "id" then Some(JString(input.subject.id)) else Get(input.subject.attributes, path)
    case FromResource => Get(input.resource.attributes, path)
    case FromRequest =>
      Get(map["tenant_id" := JString(input.tenantID), "method" := JString(input.action.method_)], path)
    case FromContext => Get(input.context, path)
    case _ => None
  }

  function Get(fields: map<string, Json>, path: string): Option<Json> {
    if path in fields then Some(fields[path]) else None
  }

  /** contains: membership in a list, or a substring of a string. */
  function ContainsValue(container: Json, value: Json): bool {
    match container
    case JArray(items) => value in items
    case JString(text) => value.JString? && Contains(text, value.text)
    case _ => false
  }

  function Compare(leaf: Comparison, input: Input): Match {
    var left := Resolve(leaf.left, input);
    if leaf.op.Exists? then Matched(left.Some?)
    else if left.None? then Matched(false)
    else if leaf.right.None? then NilDereference
    else
      var right := Resolve(leaf.right.value, input);
      if right.None? then Matched(false)
      else match leaf.op
        case Eq => Matched(left.value == right.value)
        case Neq => Matched(left.value != right.value)
        case In => Matched(ContainsValue(right.value, left.value))
        case NotIn => Matched(!ContainsValue(right.value, left.value))
        case Includes => Matched(ContainsValue(left.value, right.value))
        case _ => Unsupported
  }

  /** matchesCondition on a node. */
  function MatchNode(c: Condition, input: Input): Match
    decreases c, 1
  {
    if c.all != [] then MatchAll(c.all, input)
    else if c.any != [] then MatchAny(c.any, input)
    else if c.not.Some? then
      var m := MatchNode(c.not.value, input);
      if m.Matched? then Matched(!m.yes) else m
    else if c.comparison.None? then NilDereference
    else Compare(c.comparison.value, input)
  }

  function MatchAll(cs: seq<Condition>, input: Input): Match
    decreases cs, 0
  {
    if cs == [] then Matched(true)
    else
      var m := MatchNode(cs[0], input);
      if m == Matched(true) then MatchAll(cs[1..], input) else m
  }

  function MatchAny(cs: seq<Condition>, input: Input): Match
    decreases cs, 0
  {
    if cs == [] then Matched(false)
    else
      var m := MatchNode(cs[0], input);
      if m == Matched(false) then MatchAny(cs[1..], input) else m
  }

  function MatchesCondition(c: Option<Condition>, input: Input): Match {
    if c.None? then Matched(true) else MatchNode(c.value, input)
  }

  /** What a reference denotes, source by source. */
  ghost predicate Denotes(ref: ValueRef, input: Input, value: Json) {
    match ref.source
    case Literal => value == ref.value
    case FromSubject =>
      || (ref.path == "id" && value == JString(input.subject.id))
      || (ref.path != "id" && ref.path in input.subject.attributes && input.subject.attributes[ref.path] == value)
    case FromResource => ref.path in input.resource.attributes && input.resource.attributes[ref.path] == value
    case FromRequest =>
      || (ref.path == "tenant_id" && value == JString(input.tenantID))
      || (ref.path == "method" && value == JString(input.action.method_))
    case FromContext => ref.path in input.context && input.context[ref.path] == value
    case OtherSource(_) => false
  }

  /** A value is in a list if it is one of its items, in a string if it is text within it; nothing else holds one. */
  ghost predicate Within(value: Json, container: Json) {
    || (container.JArray? && exists i :: 0 <= i < |container.items| && container.items[i] == value)
    || (container.JString? && value.JString?
        && exists before, after :: Around(container.text, before, value.text, after))
  }

  ghost predicate OperatorHolds(op: Operator, left: Json, right: Json) {
    match op
    case Eq => left == right
    case Neq => left != right
    case In => Within(left, right)
    case NotIn => !Within(left, right)
    case Includes => Within(right, left)
    case _ => false
  }

  /** The meaning of a comparison: both operands denote values that the operator relates; exists needs the left only. */
  ghost predicate LeafHolds(leaf: Comparison, input: Input) {
    exists left ::
      && Denotes(leaf.left, input, left)
      && (leaf.op.Exists?
          || (leaf.right.Some?
              && exists right :: Denotes(leaf.right.value, input, right) && OperatorHolds(leaf.op, left, right)))
  }

  lemma ResolveDenotes(ref: ValueRef, input: Input, value: Json)
    ensures Resolve(ref, input) == Some(value) <==> Denotes(ref, input, value)
  {
  }

  lemma ContainsIsWithin(container: Json, value: Json)
    ensures ContainsValue(container, value) <==> Within(value, container)
  {
    if container.JString? && value.JString? {
      ContainsMeaning(container.text, value.text);
    }
  }

  /** A well-formed comparison evaluates to its meaning. */
  lemma LeafEvaluates(leaf: Comparison, input: Input)
    requires LeafOk(leaf)
    ensures Compare(leaf, input) == Matched(LeafHolds(leaf, input))
  {
    hide Resolve, Denotes, ContainsValue, Within, ReferenceOk;
    forall v ensures Resolve(leaf.left, input) == Some(v) <==> Denotes(leaf.left, input, v) {
      ResolveDenotes(leaf.left, input, v);
    }
    if leaf.right.Some? {
      forall v ensures Resolve(leaf.right.value, input) == Some(v) <==> Denotes(leaf.right.value, input, v) {
        ResolveDenotes(leaf.right.value, input, v);
      }
      if Resolve(leaf.left, input).Some? && Resolve(leaf.right.value, input).Some? {
        var left, right := Resolve(leaf.left, input).value, Resolve(leaf.right.value, input).value;
        ContainsIsWithin(left, right);
        ContainsIsWithin(right, left);
      }
    }
  }

  /** The meaning of a condition: all is for-every, any is for-some, not is negation. */
  ghost predicate Holds(c: Condition, input: Input) {
    if c.all != [] then forall k <- c.all :: Holds(k, input)
    else if c.any != [] then exists k <- c.any :: Holds(k, input)
    else if c.not.Some? then !Holds(c.not.value, input)
    else c.comparison.Some? && LeafHolds(c.comparison.value, input)
  }

  ghost predicate ConditionHolds(c: Option<Condition>, input: Input) {
    c.Some? ==> Holds(c.value, input)
  }

  /** A well-formed condition evaluates on every input, without error or nil dereference, to its meaning. */
  lemma {:induction false} WellFormedEvaluates(c: Condition, input: Input)
    requires WellFormed(c)
    ensures MatchNode(c, input) == Matched(Holds(c, input))
    decreases c, 1
  {
    if c.all != [] {
      AllEvaluates(c.all, input);
    } else if c.any != [] {
      AnyEvaluates(c.any, input);
    } else if c.not.Some? {
      WellFormedEvaluates(c.not.value, input);
    } else {
      LeafEvaluates(c.comparison.value, input);
    }
  }

  lemma {:induction false} AllEvaluates(cs: seq<Condition>, input: Input)
    requires forall k <- cs :: WellFormed(k)
    ensures MatchAll(cs, input) == Matched(forall k <- cs :: Holds(k, input))
    decreases cs, 0
  {
    if cs != [] {
      WellFormedEvaluates(cs[0], input);
      AllEvaluates(cs[1..], input);
      assert cs == [cs[0]] + cs[1..];
      assert forall k :: k in cs <==> k == cs[0] || k in cs[1..];
    }
  }

  lemma {:induction false} AnyEvaluates(cs: seq<Condition>, input: Input)
    requires forall k <- cs :: WellFormed(k)
    ensures MatchAny(cs, input) == Matched(exists k <- cs :: Holds(k, input))
    decreases cs, 0
  {
    if cs != [] {
      WellFormedEvaluates(cs[0], input);
      AnyEvaluates(cs[1..], input);
      assert cs == [cs[0]] + cs[1..];
      assert forall k :: k in cs <==> k == cs[0] || k in cs[1..];
    }
  }

  lemma {:induction false} ValidEvaluates(c: Option<Condition>, input: Input)
    requires ValidCondition(c)
    ensures MatchesCondition(c, input) == Matched(ConditionHolds(c, input))
  {
    if c.Some? {
      WellFormedEvaluates(c.value, input);
    }
  }

  // ---- snapshots ---------------------------------------------------------------------------

  predicate ValidInput(input: Input) {
    && !Blank(input.serviceResource) && !Blank(input.tenantID) && !Blank(input.subject.id)
    && input.resource.kind.ApiEndpoint? && input.resource.endpointID != NIL_UUID && input.action.kind.Http?
  }

  /** The filter before conditions are looked at. */
  predicate Applies(s: Snapshot, input: Input) {
    && s.authorizationType == input.authorizationType && s.serviceResource == input.serviceResource
    && input.resource.endpointID in s.endpointIDs
    && SharesRole(s.roleIDs, input.subject.roleIDs)
  }

  predicate SharesRole(policy: seq<string>, subject: seq<string>) {
    exists role <- policy :: role in subject
  }

  predicate Fires(s: Snapshot, input: Input) {
    Applies(s, input) && MatchesCondition(s.condition, input) == Matched(true)
  }

  predicate Breaks(s: Snapshot, input: Input) {
    Applies(s, input) && !MatchesCondition(s.condition, input).Matched?
  }

  predicate Stops(s: Snapshot, input: Input) {
    Breaks(s, input) || (Fires(s, input) && s.effect == Deny)
  }

  /** The position of the first snapshot that ends the evaluation early. */
  function StopAt(ss: seq<Snapshot>, input: Input): (k: nat)
    ensures k <= |ss|
    ensures forall i :: 0 <= i < k ==> !Stops(ss[i], input)
    ensures k < |ss| ==> Stops(ss[k], input)
  {
    if ss == [] || Stops(ss[0], input) then 0 else 1 + StopAt(ss[1..], input)
  }

  function Firing(ss: seq<Snapshot>, input: Input): seq<Snapshot> {
    if ss == [] then []
    else
      var front, last := Firing(ss[..|ss| - 1], input), ss[|ss| - 1];
      if Fires(last, input) then front + [last] else front
  }

  function Ids(ss: seq<Snapshot>): seq<Uuid> {
    if ss == [] then [] else Ids(ss[..|ss| - 1]) + [ss[|ss| - 1].policyID]
  }

  function MaxVersion(ss: seq<Snapshot>): int {
    if ss == [] then 0
    else
      var front := MaxVersion(ss[..|ss| - 1]);
      if ss[|ss| - 1].version > front then ss[|ss| - 1].version else front
  }

  function Summary(decision: Decision, reason: ReasonCode, fired: seq<Snapshot>): EvalResult {
    EvalResult(decision, reason, Ids(fired), MaxVersion(fired))
  }

  const INVALID := EvalResult(DecisionDeny, InvalidInput, [], 0)

  /** What Evaluate returns, told without the loop: where it stops, and what fired before. */
  function Evaluation(input: Input, ss: seq<Snapshot>): Outcome {
    if input.authorizationType.OtherAuthorization? || !ValidInput(input) then Refused(INVALID)
    else EvaluationAt(input, ss, StopAt(ss, input))
  }

  function EvaluationAt(input: Input, ss: seq<Snapshot>, k: nat): Outcome
    requires k <= |ss|
  {
    var fired := Firing(ss[..k], input);
    if k == |ss| then
      Decided(
        if fired == [] then Summary(DecisionDeny, DefaultDeny, fired)
        else Summary(DecisionAllow, AllowedByPolicy, fired))
    else if Fires(ss[k], input) then Decided(Summary(DecisionDeny, ExplicitDeny, fired + [ss[k]]))
    else if MatchesCondition(ss[k].condition, input).Unsupported? then
      Refused(Summary(DecisionDeny, DefaultDeny, fired))
    else Crashed
  }

  ghost predicate Evaluable(input: Input) {
    !input.authorizationType.OtherAuthorization? && ValidInput(input)
  }

  /** What the engine demands of an input, field by field; without it the answer is a bare invalid_input. */
  lemma RefusesExactly(input: Input, ss: seq<Snapshot>)
    ensures Evaluable(input) <==>
              && (input.authorizationType == Api || input.authorizationType == Data)
              && !AllSpace(input.serviceResource) && !AllSpace(input.tenantID) && !AllSpace(input.subject.id)
              && input.resource.kind == ApiEndpoint && input.resource.endpointID != 0 && input.action.kind == Http
    ensures !Evaluable(input) ==>
              Evaluation(input, ss) == Refused(EvalResult(DecisionDeny, InvalidInput, [], 0))
  {
    BlankIsSpace(input.serviceResource);
    BlankIsSpace(input.tenantID);
    BlankIsSpace(input.subject.id);
  }

  /** hasRole: two nested searches. */
  method HasRole(policy: seq<string>, subject: seq<string>) returns (found: bool)
    ensures found <==> SharesRole(policy, subject)
  {
    for i := 0 to |policy|
      invariant forall role <- policy[..i] :: role !in subject
    {
      for j := 0 to |subject|
        invariant policy[i] !in subject[..j]
      {
        if policy[i] == subject[j] {
          assert policy[i] in policy;
          return true;
        }
      }
      assert subject[..|subject|] == subject;
    }
    assert policy[..|policy|] == policy;
    return false;
  }

  /** hasEndpoint. */
  method HasEndpoint(values: seq<Uuid>, id: Uuid) returns (found: bool)
    ensures found <==> id in values
  {
    for i := 0 to |values|
      invariant id !in values[..i]
    {
      if values[i] == id {
        return true;
      }
    }
    return false;
  }

  /** The test that opens the loop body: type, scope, endpoint and role. */
  method PassesFilter(snapshot: Snapshot, input: Input) returns (applies: bool)
    ensures applies <==> Applies(snapshot, input)
  {
    if snapshot.authorizationType != input.authorizationType || snapshot.serviceResource != input.serviceResource {
      return false;
    }
    applies := HasEndpoint(snapshot.endpointIDs, input.resource.endpointID);
    if applies {
      applies := HasRole(snapshot.roleIDs, input.subject.roleIDs);
    }
  }

  /** Evaluate and evaluateByAuthorizationType: the loop, with its early returns. */
  method Evaluate(input: Input, snapshots: seq<Snapshot>) returns (outcome: Outcome)
    ensures outcome == Evaluation(input, snapshots)
  {
    if input.authorizationType.OtherAuthorization? || !ValidInput(input) {
      return Refused(INVALID);
    }
    hide Evaluation, EvaluationAt, ValidInput, MatchesCondition, StopAt, Firing, Ids, MaxVersion, Stops, Fires;
    var matched: seq<Uuid>, version, allow := [], 0, false;
    NothingFired(input);
    ghost var fired: seq<Snapshot> := [];
    assert snapshots[..0] == [];
    for i := 0 to |snapshots|
      invariant forall j :: 0 <= j < i ==> !Stops(snapshots[j], input)
      invariant fired == Firing(snapshots[..i], input)
      invariant matched == Ids(fired) && version == MaxVersion(fired)
      invariant allow <==> |fired| > 0
    {
      var snapshot := snapshots[i];
      OneMore(snapshots, i, input);
      var applies := PassesFilter(snapshot, input);
      if !applies {
        continue;
      }
      var matches := MatchesCondition(snapshot.condition, input);
      if !matches.Matched? {
        StopsHere(snapshots, i, input);
        return if matches.Unsupported? then Refused(EvalResult(DecisionDeny, DefaultDeny, matched, version))
          else Crashed;
      }
      if !matches.yes {
        continue;
      }
      matched := matched + [snapshot.policyID];
      if snapshot.version > version {
        version := snapshot.version;
      }
      if snapshot.effect == Deny {
        StopsHere(snapshots, i, input);
        return Decided(EvalResult(DecisionDeny, ExplicitDeny, matched, version));
      }
      allow := true;
      fired := fired + [snapshot];
    }
    StopsHere(snapshots, |snapshots|, input);
    return Decided(EvalResult(
      if allow then DecisionAllow else DecisionDeny, if allow then AllowedByPolicy else DefaultDeny, matched, version));
  }

  lemma NothingFired(input: Input)
    ensures Firing([], input) == [] && Ids([]) == [] && MaxVersion([]) == 0
  {
  }

  /** What one more snapshot does: whether it fires or stops, and what firing adds. */
  lemma OneMore(ss: seq<Snapshot>, i: nat, input: Input)
    requires i < |ss|
    ensures var s, fired, m := ss[i], Firing(ss[..i], input), MatchesCondition(ss[i].condition, input);
            && Firing(ss[..i + 1], input) == (if Fires(s, input) then fired + [s] else fired)
            && (Fires(s, input) <==> Applies(s, input) && m == Matched(true))
            && (Stops(s, input) <==> Applies(s, input) && (!m.Matched? || (m.yes && s.effect == Deny)))
            && Ids(fired + [s]) == Ids(fired) + [s.policyID]
            && MaxVersion(fired + [s]) == if s.version > MaxVersion(fired) then s.version else MaxVersion(fired)
  {
    var fired := Firing(ss[..i], input);
    assert ss[..i + 1][..i] == ss[..i];
    assert (fired + [ss[i]])[..|fired|] == fired;
  }

  /** Evaluation ends at the first snapshot that stops it. */
  lemma StopsHere(ss: seq<Snapshot>, k: nat, input: Input)
    requires Evaluable(input) && k <= |ss| && (k < |ss| ==> Stops(ss[k], input))
    requires forall j :: 0 <= j < k ==> !Stops(ss[j], input)
    ensures StopAt(ss, input) == k && Evaluation(input, ss) == EvaluationAt(input, ss, k)
    ensures var fired := Firing(ss[..k], input);
            EvaluationAt(input, ss, k) ==
            if k == |ss| then
              Decided(EvalResult(
                if |fired| > 0 then DecisionAllow else DecisionDeny,
                if |fired| > 0 then AllowedByPolicy else DefaultDeny,
                Ids(fired), MaxVersion(fired)))
            else if Fires(ss[k], input) then
              Decided(EvalResult(DecisionDeny, ExplicitDeny, Ids(fired + [ss[k]]), MaxVersion(fired + [ss[k]])))
            else if MatchesCondition(ss[k].condition, input).Unsupported? then
              Refused(EvalResult(DecisionDeny, DefaultDeny, Ids(fired), MaxVersion(fired)))
            else Crashed
  {
  }

  // ---- deny overrides ----------------------------------------------------------------------

  ghost predicate ValidSnapshots(ss: seq<Snapshot>) {
    forall s <- ss :: ValidCondition(s.condition)
  }

  /** A snapshot that takes part in the decision: it applies and its condition holds. */
  ghost predicate Votes(s: Snapshot, input: Input) {
    Applies(s, input) && ConditionHolds(s.condition, input)
  }

  lemma VotesFire(ss: seq<Snapshot>, input: Input)
    requires ValidSnapshots(ss)
    ensures forall s <- ss :: (Fires(s, input) <==> Votes(s, input)) && !Breaks(s, input)
  {
    forall s | s in ss ensures (Fires(s, input) <==> Votes(s, input)) && !Breaks(s, input) {
      ValidEvaluates(s.condition, input);
    }
  }

  lemma {:induction false} FiringMembers(ss: seq<Snapshot>, input: Input)
    ensures forall s :: s in Firing(ss, input) <==> s in ss && Fires(s, input)
  {
    if ss != [] {
      FiringMembers(ss[..|ss| - 1], input);
      assert ss == ss[..|ss| - 1] + [ss[|ss| - 1]];
    }
  }

  lemma {:induction false} MaxVersionIsMax(ss: seq<Snapshot>)
    ensures forall s <- ss :: s.version <= MaxVersion(ss)
    ensures MaxVersion(ss) == 0 || exists s <- ss :: s.version == MaxVersion(ss)
    ensures MaxVersion(ss) >= 0
  {
    if ss != [] {
      MaxVersionIsMax(ss[..|ss| - 1]);
      assert ss == ss[..|ss| - 1] + [ss[|ss| - 1]];
    }
  }

  ghost predicate SomeVote(ss: seq<Snapshot>, input: Input) {
    exists s <- ss :: Votes(s, input)
  }

  ghost predicate SomeDeny(ss: seq<Snapshot>, input: Input) {
    exists s <- ss :: Votes(s, input) && s.effect == Deny
  }

  /** Cutting after k snapshots: no deny votes before the last of them, and if any are cut off it denies. */
  ghost predicate CutAt(ss: seq<Snapshot>, input: Input, k: nat) {
    && k <= |ss|
    && (forall i :: 0 <= i < k - 1 ==> !(Votes(ss[i], input) && ss[i].effect == Deny))
    && (k == |ss| || (k > 0 && Votes(ss[k - 1], input) && ss[k - 1].effect == Deny))
  }

  /** The votes in order, up to and including the first deny. */
  ghost predicate VotesUntilDeny(ss: seq<Snapshot>, input: Input, votes: seq<Snapshot>) {
    exists k: nat :: CutAt(ss, input, k) && votes == Firing(ss[..k], input)
  }

  /** The decision and reason the rule prescribes. */
  ghost function Verdict(ss: seq<Snapshot>, input: Input): (Decision, ReasonCode) {
    if SomeDeny(ss, input) then (DecisionDeny, ExplicitDeny)
    else if SomeVote(ss, input) then (DecisionAllow, AllowedByPolicy)
    else (DecisionDeny, DefaultDeny)
  }

  /**
   * Deny overrides: on a valid input and validated snapshots, evaluation allows exactly when something
   * votes and nothing that votes denies; it reports the votes in order up to the first deny.
   */
  lemma DenyOverrides(input: Input, ss: seq<Snapshot>)
    requires Evaluable(input) && ValidSnapshots(ss)
    ensures Evaluation(input, ss).Decided?
    ensures var r := Evaluation(input, ss).result;
            && (r.decision, r.reason) == Verdict(ss, input)
            && (exists votes :: VotesUntilDeny(ss, input, votes)
                                && r.matchedPolicyIDs == Ids(votes) && r.snapshotVersion == MaxVersion(votes))
  {
    VotesFire(ss, input);
    var k := StopAt(ss, input);
    var cut := if k < |ss| then k + 1 else k;
    FiringMembers(ss[..k], input);
    if k < |ss| {
      assert ss[..k + 1][..k] == ss[..k];
      assert ss[k] in ss;
    } else {
      assert ss[..k] == ss;
    }
    assert CutAt(ss, input, cut);
    assert VotesUntilDeny(ss, input, Firing(ss[..cut], input));
  }

  // ---- what the decision does not depend on ------------------------------------------------

  ghost predicate SameAnswer(input: Input, ss: seq<Snapshot>, ts: seq<Snapshot>) {
    && Evaluation(input, ss).Decided? && Evaluation(input, ts).Decided?
    && Evaluation(input, ss).result.decision == Evaluation(input, ts).result.decision
    && Evaluation(input, ss).result.reason == Evaluation(input, ts).result.reason
  }

  ghost predicate Covers(ss: seq<Snapshot>, ts: seq<Snapshot>, input: Input) {
    forall s <- ss | Votes(s, input) :: exists t <- ts :: Votes(t, input) && t.effect == s.effect
  }

  /** Decision and reason depend only on which effects vote. */
  lemma {:induction false} SameVotesSameAnswer(input: Input, ss: seq<Snapshot>, ts: seq<Snapshot>)
    requires Evaluable(input) && ValidSnapshots(ss) && ValidSnapshots(ts)
    requires Covers(ss, ts, input) && Covers(ts, ss, input)
    ensures SameAnswer(input, ss, ts)
  {
    hide Evaluation, Votes, VotesUntilDeny, SomeVote, SomeDeny, Covers;
    DenyOverrides(input, ss);
    DenyOverrides(input, ts);
    CoveredVerdict(input, ss, ts);
    CoveredVerdict(input, ts, ss);
  }

  lemma CoveredVerdict(input: Input, ss: seq<Snapshot>, ts: seq<Snapshot>)
    requires Covers(ss, ts, input)
    ensures SomeVote(ss, input) ==> SomeVote(ts, input)
    ensures SomeDeny(ss, input) ==> SomeDeny(ts, input)
  {
    hide Votes;
  }

  ghost predicate SameUpToPriority(s: Snapshot, t: Snapshot) {
    s == t.(priority := s.priority)
  }

  lemma PriorityDoesNotVote(s: Snapshot, t: Snapshot, input: Input)
    requires SameUpToPriority(s, t)
    ensures Votes(s, input) <==> Votes(t, input)
    ensures ValidCondition(s.condition) <==> ValidCondition(t.condition)
    ensures s.effect == t.effect
  {
  }

  /** Any permutation of the snapshots and any reassignment of priorities gives the same decision and reason. */
  lemma {:induction false} OrderAndPriorityIrrelevant(
    input: Input, ss: seq<Snapshot>, shuffled: seq<Snapshot>, ts: seq<Snapshot>)
    requires Evaluable(input) && ValidSnapshots(ss)
    requires multiset(shuffled) == multiset(ss)
    requires |ts| == |shuffled| && forall i :: 0 <= i < |ts| ==> SameUpToPriority(ts[i], shuffled[i])
    ensures SameAnswer(input, ss, ts)
  {
    SameElements(ss, shuffled);
    hide Votes, Evaluation, ValidCondition, SameUpToPriority;
    forall t | t in ts
      ensures ValidCondition(t.condition)
      ensures Votes(t, input) ==> exists s <- ss :: Votes(s, input) && t.effect == s.effect
    {
      var i :| 0 <= i < |ts| && ts[i] == t;
      PriorityDoesNotVote(t, shuffled[i], input);
      assert shuffled[i] in ss;
    }
    forall s | s in ss && Votes(s, input) ensures exists t <- ts :: Votes(t, input) && t.effect == s.effect {
      assert s in shuffled;
      var i :| 0 <= i < |shuffled| && shuffled[i] == s;
      PriorityDoesNotVote(ts[i], s, input);
      assert ts[i] in ts;
    }
    SameVotesSameAnswer(input, ss, ts);
  }

  /** Adding a deny snapshot anywhere never turns a deny into an allow. */
  lemma {:induction false} AddingDenyNeverAllows(
      input: Input, before: seq<Snapshot>, deny: Snapshot, after: seq<Snapshot>)
    requires Evaluable(input) && ValidSnapshots(before + [deny] + after) && deny.effect == Deny
    ensures Evaluation(input, before + [deny] + after).Decided? && Evaluation(input, before + after).Decided?
    ensures Evaluation(input, before + after).result.decision == DecisionDeny
            ==> Evaluation(input, before + [deny] + after).result.decision == DecisionDeny
  {
    var ss, ts := before + after, before + [deny] + after;
    hide Evaluation, Votes, ValidCondition;
    assert forall s :: s in ts <==> s in ss || s == deny;
    DenyOverrides(input, ss);
    DenyOverrides(input, ts);
    assert SomeDeny(ss, input) ==> SomeDeny(ts, input);
    assert Votes(deny, input) ==> SomeDeny(ts, input);
    assert SomeVote(ts, input) ==> SomeVote(ss, input) || Votes(deny, input);
  }

  // ---- locality and monotonicity -----------------------------------------------------------

  /** The input paths a condition mentions. */
  ghost function Mentioned(c: Condition): set<(Source, string)>
    decreases c, 1
  {
    MentionedByAll(c.all) + MentionedByAll(c.any)
    + (if c.not.Some? then Mentioned(c.not.value) else {})
    + (if c.comparison.Some? then MentionedByLeaf(c.comparison.value) else {})
  }

  ghost function MentionedByAll(cs: seq<Condition>): set<(Source, string)>
    decreases cs, 0
  {
    if cs == [] then {} else Mentioned(cs[0]) + MentionedByAll(cs[1..])
  }

  ghost function MentionedByLeaf(leaf: Comparison): set<(Source, string)> {
    {(leaf.left.source, leaf.left.path)}
    + (if leaf.right.Some? then {(leaf.right.value.source, leaf.right.value.path)} else {})
  }

  /** The path denotes the same in both inputs, or nothing in either. */
  ghost predicate Agree(a: Input, b: Input, source: Source, path: string) {
    match source
    case Literal => true
    case FromSubject =>
      if path == "id" then a.subject.id == b.subject.id else AgreeAt(a.subject.attributes, b.subject.attributes, path)
    case FromResource => AgreeAt(a.resource.attributes, b.resource.attributes, path)
    case FromRequest =>
      (path == "tenant_id" ==> a.tenantID == b.tenantID) && (path == "method" ==> a.action.method_ == b.action.method_)
    case FromContext => AgreeAt(a.context, b.context, path)
    case OtherSource(_) => true
  }

  ghost predicate AgreeAt(a: map<string, Json>, b: map<string, Json>, path: string) {
    (path in a <==> path in b) && (path in a ==> a[path] == b[path])
  }

  ghost predicate AgreeOn(a: Input, b: Input, paths: set<(Source, string)>) {
    forall p <- paths :: Agree(a, b, p.0, p.1)
  }

  /** A condition sees only the paths it mentions. */
  lemma {:induction false} ConditionLocality(c: Condition, a: Input, b: Input)
    requires AgreeOn(a, b, Mentioned(c))
    ensures MatchNode(c, a) == MatchNode(c, b)
    decreases c, 1
  {
    hide Compare, Agree;
    assert MentionedByAll(c.all) <= Mentioned(c) && MentionedByAll(c.any) <= Mentioned(c);
    ListLocality(c.all, a, b);
    ListLocality(c.any, a, b);
    if c.not.Some? {
      assert Mentioned(c.not.value) <= Mentioned(c);
      ConditionLocality(c.not.value, a, b);
    }
    if c.comparison.Some? {
      assert MentionedByLeaf(c.comparison.value) <= Mentioned(c);
      LeafLocality(c.comparison.value, a, b);
    }
  }

  lemma LeafLocality(leaf: Comparison, a: Input, b: Input)
    requires AgreeOn(a, b, MentionedByLeaf(leaf))
    ensures Compare(leaf, a) == Compare(leaf, b)
  {
    hide Agree, Resolve, ContainsValue;
    assert (leaf.left.source, leaf.left.path) in MentionedByLeaf(leaf);
    AgreeingResolve(leaf.left, a, b);
    if leaf.right.Some? {
      assert (leaf.right.value.source, leaf.right.value.path) in MentionedByLeaf(leaf);
      AgreeingResolve(leaf.right.value, a, b);
    }
  }

  lemma AgreeingResolve(ref: ValueRef, a: Input, b: Input)
    requires Agree(a, b, ref.source, ref.path)
    ensures Resolve(ref, a) == Resolve(ref, b)
  {
  }

  lemma {:induction false} ListLocality(cs: seq<Condition>, a: Input, b: Input)
    requires AgreeOn(a, b, MentionedByAll(cs))
    ensures MatchAll(cs, a) == MatchAll(cs, b) && MatchAny(cs, a) == MatchAny(cs, b)
    decreases cs, 0
  {
    if cs != [] {
      ConditionLocality(cs[0], a, b);
      ListLocality(cs[1..], a, b);
    }
  }

  /** The sources a condition reads from. */
  ghost predicate ReadsOnly(c: Condition, sources: set<Source>) {
    && (forall k <- c.all :: ReadsOnly(k, sources))
    && (forall k <- c.any :: ReadsOnly(k, sources))
    && (c.not.Some? ==> ReadsOnly(c.not.value, sources))
    && (c.comparison.Some? ==>
          && c.comparison.value.left.source in sources
          && (c.comparison.value.right.Some? ==> c.comparison.value.right.value.source in sources))
  }

  /** b differs from a in the roots outside these sources only. */
  ghost predicate SameRoots(a: Input, b: Input, sources: set<Source>) {
    && (FromSubject in sources ==> a.subject.id == b.subject.id && a.subject.attributes == b.subject.attributes)
    && (FromResource in sources ==> a.resource.attributes == b.resource.attributes)
    && (FromRequest in sources ==> a.tenantID == b.tenantID && a.action.method_ == b.action.method_)
    && (FromContext in sources ==> a.context == b.context)
  }

  /** Changing one root leaves every condition that reads only the others unchanged. */
  lemma {:induction false} RootsAreIndependent(c: Condition, a: Input, b: Input, sources: set<Source>)
    requires ReadsOnly(c, sources) && SameRoots(a, b, sources)
    ensures MatchNode(c, a) == MatchNode(c, b)
    decreases c, 1
  {
    hide Compare, SameRoots;
    ListRootsAreIndependent(c.all, a, b, sources);
    ListRootsAreIndependent(c.any, a, b, sources);
    if c.not.Some? {
      RootsAreIndependent(c.not.value, a, b, sources);
    }
    if c.comparison.Some? {
      LeafRoots(c.comparison.value, a, b, sources);
    }
  }

  lemma LeafRoots(leaf: Comparison, a: Input, b: Input, sources: set<Source>)
    requires leaf.left.source in sources && (leaf.right.Some? ==> leaf.right.value.source in sources)
    requires SameRoots(a, b, sources)
    ensures Compare(leaf, a) == Compare(leaf, b)
  {
    LeafLocality(leaf, a, b);
  }

  lemma {:induction false} ListRootsAreIndependent(cs: seq<Condition>, a: Input, b: Input, sources: set<Source>)
    requires (forall k <- cs :: ReadsOnly(k, sources)) && SameRoots(a, b, sources)
    ensures MatchAll(cs, a) == MatchAll(cs, b) && MatchAny(cs, a) == MatchAny(cs, b)
    decreases cs, 0
  {
    hide SameRoots;
    if cs != [] {
      RootsAreIndependent(cs[0], a, b, sources);
      ListRootsAreIndependent(cs[1..], a, b, sources);
    }
  }

  /** A leaf that compares a reference with a literal. */
  ghost function LeafOn(source: Source, path: string, op: Operator, literal: Json): Condition {
    Condition([], [], None, Some(Comparison(
      ValueRef(source, path, StringType, JNull), op, Some(ValueRef(Literal, "", StringType, literal)))))
  }

  /** A comparison with a literal gives what the operator says of the value the reference denotes, if any. */
  lemma LeafOnSees(source: Source, path: string, op: Operator, literal: Json, input: Input, value: Option<Json>)
    requires op in {Eq, Neq, In, NotIn, Includes}
    requires forall v :: Denotes(ValueRef(source, path, StringType, JNull), input, v) <==> value == Some(v)
    ensures MatchNode(LeafOn(source, path, op, literal), input)
            == Matched(value.Some? && OperatorHolds(op, value.value, literal))
  {
    hide Within, ContainsValue, Denotes, Lookup;
    var ref := ValueRef(source, path, StringType, JNull);
    forall v ensures Resolve(ref, input) == Some(v) <==> value == Some(v) {
      ResolveDenotes(ref, input, v);
    }
    if value.Some? {
      assert Resolve(ref, input) == value;
      ContainsIsWithin(value.value, literal);
      ContainsIsWithin(literal, value.value);
    } else {
      assert Resolve(ref, input).None?;
    }
  }

  /** The value at a path of a root, if there is one. */
  function ValueAt(root: map<string, Json>, path: string): Option<Json> {
    if path in root then Some(root[path]) else None
  }

  ghost predicate Sees(source: Source, path: string, op: Operator, literal: Json, input: Input, value: Option<Json>) {
    MatchNode(LeafOn(source, path, op, literal), input)
        == Matched(value.Some? && OperatorHolds(op, value.value, literal))
  }

  /** What a comparison with a literal sees, root by root; a path that the root lacks makes it false. */
  lemma {:induction false} ReferencesSee(path: string, op: Operator, literal: Json, input: Input)
    requires op in {Eq, Neq, In, NotIn, Includes}
    ensures Sees(FromSubject, "id", op, literal, input, Some(JString(input.subject.id)))
    ensures path != "id" ==> Sees(FromSubject, path, op, literal, input, ValueAt(input.subject.attributes, path))
    ensures Sees(FromResource, path, op, literal, input, ValueAt(input.resource.attributes, path))
    ensures Sees(FromContext, path, op, literal, input, ValueAt(input.context, path))
    ensures Sees(FromRequest, "tenant_id", op, literal, input, Some(JString(input.tenantID)))
    ensures Sees(FromRequest, "method", op, literal, input, Some(JString(input.action.method_)))
    ensures path != "tenant_id" && path != "method" ==> Sees(FromRequest, path, op, literal, input, None)
  {
    hide Sees, Denotes;
    SubjectSees(path, op, literal, input);
    AttributesSee(path, op, literal, input);
    RequestSees(path, op, literal, input);
  }

  lemma SubjectSees(path: string, op: Operator, literal: Json, input: Input)
    requires op in {Eq, Neq, In, NotIn, Includes}
    ensures Sees(FromSubject, "id", op, literal, input, Some(JString(input.subject.id)))
    ensures path != "id" ==> Sees(FromSubject, path, op, literal, input, ValueAt(input.subject.attributes, path))
  {
    hide MatchNode, OperatorHolds, LeafOn;
    LeafOnSees(FromSubject, "id", op, literal, input, Some(JString(input.subject.id)));
    if path != "id" {
      LeafOnSees(FromSubject, path, op, literal, input, ValueAt(input.subject.attributes, path));
    }
  }

  lemma AttributesSee(path: string, op: Operator, literal: Json, input: Input)
    requires op in {Eq, Neq, In, NotIn, Includes}
    ensures Sees(FromResource, path, op, literal, input, ValueAt(input.resource.attributes, path))
    ensures Sees(FromContext, path, op, literal, input, ValueAt(input.context, path))
  {
    hide MatchNode, OperatorHolds, LeafOn;
    LeafOnSees(FromResource, path, op, literal, input, ValueAt(input.resource.attributes, path));
    LeafOnSees(FromContext, path, op, literal, input, ValueAt(input.context, path));
  }

  lemma RequestSees(path: string, op: Operator, literal: Json, input: Input)
    requires op in {Eq, Neq, In, NotIn, Includes}
    ensures Sees(FromRequest, "tenant_id", op, literal, input, Some(JString(input.tenantID)))
    ensures Sees(FromRequest, "method", op, literal, input, Some(JString(input.action.method_)))
    ensures path != "tenant_id" && path != "method" ==> Sees(FromRequest, path, op, literal, input, None)
  {
    hide MatchNode, OperatorHolds, LeafOn;
    LeafOnSees(FromRequest, "tenant_id", op, literal, input, Some(JString(input.tenantID)));
    LeafOnSees(FromRequest, "method", op, literal, input, Some(JString(input.action.method_)));
    if path != "tenant_id" && path != "method" {
      LeafOnSees(FromRequest, path, op, literal, input, None);
    }
  }

  /** exists asks only whether the path is there. */
  lemma ExistsSees(path: string, input: Input)
    ensures var leaf := (source: Source) => Condition([], [], None, Some(Comparison(
              ValueRef(source, path, StringType, JNull), Exists, None)));
            && MatchNode(leaf(FromResource), input) == Matched(path in input.resource.attributes)
            && MatchNode(leaf(FromContext), input) == Matched(path in input.context)
            && MatchNode(leaf(FromSubject), input) == Matched(path == "id" || path in input.subject.attributes)
            && MatchNode(leaf(FromRequest), input) == Matched(path == "tenant_id" || path == "method")
  {
  }

  ghost predicate SameRequest(a: Input, b: Input) {
    && a.authorizationType == b.authorizationType && a.serviceResource == b.serviceResource
    && a.subject.roleIDs == b.subject.roleIDs && a.resource.endpointID == b.resource.endpointID
    && (ValidInput(a) <==> ValidInput(b))
  }

  /** Two inputs that agree on scope, type, roles, endpoint and the mentioned paths get the same outcome. */
  lemma {:induction false} Locality(a: Input, b: Input, ss: seq<Snapshot>)
    requires SameRequest(a, b)
    requires forall s <- ss | s.condition.Some? :: AgreeOn(a, b, Mentioned(s.condition.value))
    ensures Evaluation(a, ss) == Evaluation(b, ss)
  {
    forall s | s in ss ensures MatchesCondition(s.condition, a) == MatchesCondition(s.condition, b) {
      if s.condition.Some? {
        ConditionLocality(s.condition.value, a, b);
      }
    }
    hide MatchesCondition;
    if !Evaluable(a) {
      return;
    }
    var k := StopAt(ss, a);
    forall i | 0 <= i < |ss| ensures Stops(ss[i], a) == Stops(ss[i], b) {
      assert ss[i] in ss;
    }
    StopsHere(ss, k, b);
    FiringLocality(ss[..k], a, b);
    if k < |ss| {
      assert ss[k] in ss;
    }
  }

  lemma {:induction false} FiringLocality(ss: seq<Snapshot>, a: Input, b: Input)
    requires SameRequest(a, b)
    requires forall s <- ss :: MatchesCondition(s.condition, a) == MatchesCondition(s.condition, b)
    ensures Firing(ss, a) == Firing(ss, b)
  {
    hide MatchesCondition;
    if ss != [] {
      FiringLocality(ss[..|ss| - 1], a, b);
      assert ss[|ss| - 1] in ss;
    }
  }

  ghost predicate NotFree(c: Condition) {
    c.not.None? && (forall k <- c.all :: NotFree(k)) && (forall k <- c.any :: NotFree(k))
  }

  ghost predicate SubMap(a: map<string, Json>, b: map<string, Json>) {
    forall k <- a :: k in b && b[k] == a[k]
  }

  /** b is a with more attributes. */
  ghost predicate Extends(a: Input, b: Input) {
    && b == a.(subject := b.subject, resource := b.resource, context := b.context)
    && b.subject == a.subject.(attributes := b.subject.attributes)
    && b.resource == a.resource.(attributes := b.resource.attributes)
    && SubMap(a.subject.attributes, b.subject.attributes)
    && SubMap(a.resource.attributes, b.resource.attributes)
    && SubMap(a.context, b.context)
  }

  lemma LeafOnlyAdds(leaf: Comparison, a: Input, b: Input)
    requires Extends(a, b) && LeafHolds(leaf, a)
    ensures LeafHolds(leaf, b)
  {
    hide OperatorHolds;
    var left :| && Denotes(leaf.left, a, left)
                && (leaf.op.Exists?
                    || (leaf.right.Some?
                        && exists right :: Denotes(leaf.right.value, a, right) && OperatorHolds(leaf.op, left, right)));
    assert Denotes(leaf.left, b, left);
    if !leaf.op.Exists? {
      var right :| Denotes(leaf.right.value, a, right) && OperatorHolds(leaf.op, left, right);
      assert Denotes(leaf.right.value, b, right);
    }
  }

  /** Without negation, adding attributes never removes a match. */
  lemma {:induction false} AttributesOnlyAdd(c: Condition, a: Input, b: Input)
    requires NotFree(c) && Extends(a, b) && Holds(c, a)
    ensures Holds(c, b)
  {
    if c.all != [] {
      forall k | k in c.all ensures Holds(k, b) {
        AttributesOnlyAdd(k, a, b);
      }
    } else if c.any != [] {
      var k :| k in c.any && Holds(k, a);
      AttributesOnlyAdd(k, a, b);
    } else {
      LeafOnlyAdds(c.comparison.value, a, b);
    }
  }

  /** An explicit deny stays an explicit deny when attributes are added, if no denying condition negates. */
  lemma {:induction false} ExplicitDenyPersists(a: Input, b: Input, ss: seq<Snapshot>)
    requires Evaluable(a) && ValidSnapshots(ss) && Extends(a, b)
    requires forall s <- ss | s.effect == Deny && s.condition.Some? :: NotFree(s.condition.value)
    requires Evaluation(a, ss).Decided? && Evaluation(a, ss).result.reason == ExplicitDeny
    ensures Evaluation(b, ss).Decided? && Evaluation(b, ss).result.reason == ExplicitDeny
    ensures Evaluation(b, ss).result.decision == DecisionDeny
  {
    DenyOverrides(a, ss);
    DenyOverrides(b, ss);
    hide Evaluation, Holds, NotFree;
    var s :| s in ss && Votes(s, a) && s.effect == Deny;
    if s.condition.Some? {
      AttributesOnlyAdd(s.condition.value, a, b);
    }
    assert Votes(s, b);
  }
}
