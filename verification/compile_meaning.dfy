/** What compiling a snapshot does to decisions. */
module CompileMeaning {
  import opened Wrappers
  import opened Text
  import opened PolicyModel
  import opened Validate
  import opened Compile
  import opened Eval

  ghost predicate WhitespaceFree(s: Snapshot) {
    Trimmed(s.serviceResource) && forall r <- s.roleIDs :: Trimmed(r) && r != []
  }

  lemma CompiledKeepsMembers(s: Snapshot)
    requires Compiled(s).Success? && WhitespaceFree(s)
    ensures var c := Compiled(s).value;
            && c.serviceResource == s.serviceResource
            && SameMembers(c.roleIDs, s.roleIDs) && SameMembers(c.endpointIDs, s.endpointIDs)
  {
    var c := Compiled(s).value;
    CompiledShape(s);
    TrimIsTrimmed(s.serviceResource);
    RoleSetOfTrimmed(s.roleIDs);
    forall e ensures e in c.endpointIDs <==> e in s.endpointIDs {
      assert e in c.endpointIDs <==> e in multiset(c.endpointIDs);
      assert e in s.endpointIDs <==> e in multiset(s.endpointIDs);
    }
  }

  /** A policy without stray whitespace plays the same part in every decision before and after compiling. */
  lemma CompiledFiresAlike(s: Snapshot, input: Input)
    requires Compiled(s).Success? && WhitespaceFree(s)
    ensures Applies(s, input) <==> Applies(Compiled(s).value, input)
    ensures Fires(s, input) <==> Fires(Compiled(s).value, input)
    ensures Stops(s, input) <==> Stops(Compiled(s).value, input)
  {
    CompiledKeepsMembers(s);
  }

  /**
   * Compiling leaves the applicability of a policy unchanged on all inputs exactly when its scope and roles
   * carry no stray whitespace and no blank role.
   */
  lemma CompilingIsInvisible(s: Snapshot)
    requires Compiled(s).Success? && s.endpointIDs != [] && s.roleIDs != []
    ensures (forall input :: Applies(s, input) <==> Applies(Compiled(s).value, input)) <==> WhitespaceFree(s)
  {
    var c := Compiled(s).value;
    if WhitespaceFree(s) {
      forall input ensures Applies(s, input) <==> Applies(c, input) {
        CompiledFiresAlike(s, input);
      }
    } else {
      CompiledShape(s);
      TrimIsTrimmed(s.serviceResource);
      var r := s.roleIDs[0];
      if Trimmed(s.serviceResource) {
        r :| r in s.roleIDs && !(Trimmed(r) && r != []);
      }
      var sample := Input(s.authorizationType, s.serviceResource, "t", Subject("u", [r], map[]),
                            Action(Http, ""), Resource(ApiEndpoint, s.endpointIDs[0], map[]), map[]);
      assert SharesRole(s.roleIDs, [r]) by { assert r in s.roleIDs && r in [r]; }
      assert Applies(s, sample);
      assert !Applies(c, sample);
    }
  }

  ghost predicate CompiledEach(ss: seq<Snapshot>, cs: seq<Snapshot>) {
    && |ss| == |cs|
    && forall i :: 0 <= i < |ss| ==> Compiled(ss[i]) == Success(cs[i]) && WhitespaceFree(ss[i])
  }

  /** Evaluating the compiled snapshots gives the same result, ids and version included. */
  lemma {:induction false} CompiledEvaluation(ss: seq<Snapshot>, cs: seq<Snapshot>, input: Input)
    requires CompiledEach(ss, cs)
    ensures Evaluation(input, ss) == Evaluation(input, cs)
  {
    hide Stops, Fires, Compiled, Applies, ValidInput, MatchesCondition, Firing, Ids, MaxVersion, StopAt, WhitespaceFree,
      Evaluable, Evaluation, EvaluationAt;
    if !Evaluable(input) {
      RefusedAlike(ss, cs, input);
      return;
    }
    forall i | 0 <= i < |ss| ensures Stops(ss[i], input) == Stops(cs[i], input) {
      CompiledFiresAlike(ss[i], input);
    }
    var k := Stopping(ss, input);
    StopsHere(ss, k, input);
    StopsHere(cs, k, input);
    CompiledSummary(ss[..k], cs[..k], input);
    if k < |ss| {
      CompiledStop(ss, cs, k, input);
    }
  }

  lemma RefusedAlike(ss: seq<Snapshot>, cs: seq<Snapshot>, input: Input)
    requires !Evaluable(input)
    ensures Evaluation(input, ss) == Evaluation(input, cs)
  {
  }

  /** Where evaluation stops. */
  lemma Stopping(ss: seq<Snapshot>, input: Input) returns (k: nat)
    ensures k <= |ss| && (forall i :: 0 <= i < k ==> !Stops(ss[i], input)) && (k < |ss| ==> Stops(ss[k], input))
  {
    k := StopAt(ss, input);
  }

  /** The snapshot that stops the evaluation adds the same to both results. */
  lemma CompiledStop(ss: seq<Snapshot>, cs: seq<Snapshot>, k: nat, input: Input)
    requires CompiledEach(ss, cs) && k < |ss|
    requires Ids(Firing(ss[..k], input)) == Ids(Firing(cs[..k], input))
    requires MaxVersion(Firing(ss[..k], input)) == MaxVersion(Firing(cs[..k], input))
    ensures Fires(ss[k], input) == Fires(cs[k], input)
    ensures MatchesCondition(ss[k].condition, input) == MatchesCondition(cs[k].condition, input)
    ensures Ids(Firing(ss[..k], input) + [ss[k]]) == Ids(Firing(cs[..k], input) + [cs[k]])
    ensures MaxVersion(Firing(ss[..k], input) + [ss[k]]) == MaxVersion(Firing(cs[..k], input) + [cs[k]])
  {
    hide Fires, Compiled, MatchesCondition, Firing, Ids, MaxVersion, WhitespaceFree;
    CompiledFiresAlike(ss[k], input);
    CompiledKeepsRest(ss[k]);
    SummaryOfOneMore(Firing(ss[..k], input), ss[k]);
    SummaryOfOneMore(Firing(cs[..k], input), cs[k]);
  }

  lemma SummaryOfOneMore(fired: seq<Snapshot>, s: Snapshot)
    ensures Ids(fired + [s]) == Ids(fired) + [s.policyID]
    ensures MaxVersion(fired + [s]) == if s.version > MaxVersion(fired) then s.version else MaxVersion(fired)
  {
    assert (fired + [s])[..|fired|] == fired;
  }

  lemma CompiledKeepsRest(s: Snapshot)
    requires Compiled(s).Success?
    ensures var c := Compiled(s).value; c.policyID == s.policyID && c.version == s.version && c.condition == s.condition
  {
  }

  lemma {:induction false} CompiledSummary(ss: seq<Snapshot>, cs: seq<Snapshot>, input: Input)
    requires CompiledEach(ss, cs)
    ensures var f, g := Firing(ss, input), Firing(cs, input);
            |f| == |g| && Ids(f) == Ids(g) && MaxVersion(f) == MaxVersion(g)
  {
    if ss != [] {
      var n := |ss| - 1;
      CompiledSummary(ss[..n], cs[..n], input);
      CompiledFiresAlike(ss[n], input);
      CompiledKeepsRest(ss[n]);
      hide Fires, Compiled;
      SummaryOfOneMore(Firing(ss[..n], input), ss[n]);
      SummaryOfOneMore(Firing(cs[..n], input), cs[n]);
    }
  }
}
