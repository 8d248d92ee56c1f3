/** internal/policy/compile: turning an edited policy into the canonical snapshot that is published. */
module Compile {
  import opened Wrappers
  import opened Text
  import opened Sorting
  import opened PolicyModel
  import opened Validate

  predicate KnownType(t: AuthorizationType) { !t.OtherAuthorization? }

  /** The trimmed, non-blank values in order of first occurrence. */
  function UniqueTrimmed(values: seq<string>): seq<string> {
    if values == [] then []
    else
      var front, value := UniqueTrimmed(values[..|values| - 1]), Trim(values[|values| - 1]);
      if value == [] || value in front then front else front + [value]
  }

  /** compile.Snapshot as a function; it fails on an invalid condition or an unknown type. */
  function Compiled(value: Snapshot): Result<Snapshot, Error> {
    if !ValidCondition(value.condition) || !KnownType(value.authorizationType) then Failure(InvalidArgument)
    else Success(value.(
      serviceResource := Trim(value.serviceResource),
      roleIDs := Sort(UniqueTrimmed(value.roleIDs), LexLe),
      endpointIDs := Sort(value.endpointIDs, NumLe)))
  }

  // ---- the implementation ------------------------------------------------------------------

  /** uniqueStrings: a seen-set guards the appends. */
  method UniqueStrings(values: seq<string>) returns (result: seq<string>)
    ensures result == UniqueTrimmed(values)
  {
    var found: set<string> := {};
    result := [];
    for i := 0 to |values|
      invariant result == UniqueTrimmed(values[..i])
      invariant forall x :: x in found <==> x in result
    {
      assert values[..i + 1][..i] == values[..i];
      var value := Trim(values[i]);
      if value != [] && value !in found {
        found := found + {value};
        result := result + [value];
      }
    }
    assert values[..|values|] == values;
  }

  /**
   * compile.Snapshot: the caller's endpoint slice is sorted in place, and only on success; the roles
   * are rebuilt in a new slice.
   */
  method CompileSnapshot(value: Snapshot, endpoints: array<Uuid>) returns (result: Result<Snapshot, Error>)
    requires value.endpointIDs == endpoints[..]
    modifies endpoints
    ensures result == Compiled(value)
    ensures endpoints[..] == if result.Success? then result.value.endpointIDs else old(endpoints[..])
  {
    var problem, _ := CheckCondition(value.condition);
    if problem.Some? {
      return Failure(InvalidArgument);
    }
    if !KnownType(value.authorizationType) {
      return Failure(InvalidArgument);
    }
    var unique := UniqueStrings(value.roleIDs);
    var roles := new string[|unique|](i requires 0 <= i < |unique| => unique[i]);
    assert roles[..] == unique;
    SortInPlace(roles, LexLe);
    SortInPlace(endpoints, NumLe);
    return Success(value.(
      serviceResource := Trim(value.serviceResource), roleIDs := roles[..], endpointIDs := endpoints[..]));
  }

  // ---- canonical form ----------------------------------------------------------------------

  ghost predicate SameMembers<T(!new)>(s: seq<T>, t: seq<T>) {
    forall x :: x in s <==> x in t
  }

  /** The role ids a list stands for: its values trimmed, without the blank ones. */
  ghost function RoleSet(values: seq<string>): set<string> {
    set v | v in values && Trim(v) != [] :: Trim(v)
  }

  lemma {:induction false} UniqueTrimmedMembers(values: seq<string>)
    ensures NoDuplicates(UniqueTrimmed(values))
    ensures forall x :: x in UniqueTrimmed(values) <==> x in RoleSet(values)
  {
    if values != [] {
      var front, last := values[..|values| - 1], values[|values| - 1];
      assert values == front + [last];
      UniqueTrimmedMembers(front);
      assert RoleSet(values) == RoleSet(front) + (if Trim(last) != [] then {Trim(last)} else {});
    }
  }

  lemma NumOrder()
    ensures TotalOrder(NumLe)
  {
  }

  ghost predicate StrictlySorted(s: seq<string>) {
    Ordered(s, LexLe) && NoDuplicates(s)
  }

  /** Compilation fails exactly for an invalid condition or an unknown type, and keeps every other field. */
  lemma CompilesExactly(value: Snapshot)
    ensures Compiled(value).Success? <==>
              ValidCondition(value.condition) && (value.authorizationType == Api || value.authorizationType == Data)
    ensures Compiled(value).Failure? ==> Compiled(value).error == InvalidArgument
    ensures Compiled(value).Success? ==>
              var s := Compiled(value).value;
              && s.policyID == value.policyID && s.version == value.version
              && s.authorizationType == value.authorizationType && s.serviceResource == Trim(value.serviceResource)
              && s.effect == value.effect && s.priority == value.priority && s.condition == value.condition
  {
  }

  /** Ascending means ascending: roles in dictionary order, each before the next, endpoints by number. */
  lemma CompiledAscends(value: Snapshot)
    requires Compiled(value).Success?
    ensures var s := Compiled(value).value;
            && (forall i, j :: 0 <= i < j < |s.endpointIDs| ==> s.endpointIDs[i] <= s.endpointIDs[j])
            && (forall i, j :: 0 <= i < j < |s.roleIDs| ==> Earlier(s.roleIDs[i], s.roleIDs[j]))
  {
    CompiledShape(value);
    hide Compiled, LexLe;
    var s := Compiled(value).value;
    forall i, j | 0 <= i < j < |s.roleIDs| ensures Earlier(s.roleIDs[i], s.roleIDs[j]) {
      LexMeaning(s.roleIDs[i], s.roleIDs[j]);
    }
  }

  /** Strictly earlier in dictionary order. */
  ghost predicate Earlier(a: string, b: string) {
    a != b && (a <= b || exists i :: SmallerAt(a, b, i))
  }

  /** Roles come out strictly sorted, trimmed and non-blank, the same set; endpoints are a sorted permutation. */
  lemma CompiledShape(value: Snapshot)
    requires Compiled(value).Success?
    ensures var s := Compiled(value).value;
            && StrictlySorted(s.roleIDs)
            && (forall r <- s.roleIDs :: Trimmed(r) && r != [])
            && (forall r :: r in s.roleIDs <==> r in RoleSet(value.roleIDs))
            && Ordered(s.endpointIDs, NumLe) && multiset(s.endpointIDs) == multiset(value.endpointIDs)
            && Trimmed(s.serviceResource)
  {
    var s := Compiled(value).value;
    var unique := UniqueTrimmed(value.roleIDs);
    UniqueTrimmedMembers(value.roleIDs);
    LexOrder();
    NumOrder();
    SortSorts(unique, LexLe);
    SortSorts(value.endpointIDs, NumLe);
    SameElements(s.roleIDs, unique);
    NoDuplicatesCounts(unique);
    NoDuplicatesCounts(s.roleIDs);
    TrimIsTrimmed(value.serviceResource);
    forall r | r in s.roleIDs ensures Trimmed(r) && r != [] {
      assert r in RoleSet(value.roleIDs);
      var v :| v in value.roleIDs && Trim(v) == r;
      TrimIsTrimmed(v);
    }
  }

  lemma StrictlySortedUnique(s: seq<string>, t: seq<string>)
    requires StrictlySorted(s) && StrictlySorted(t) && SameMembers(s, t)
    ensures s == t
  {
    NoDuplicatesCounts(s);
    NoDuplicatesCounts(t);
    forall x ensures multiset(s)[x] == multiset(t)[x] {
      assert x in s <==> x in multiset(s);
      assert x in t <==> x in multiset(t);
    }
    LexOrder();
    OrderedUnique(s, t, LexLe);
  }

  /** Inputs equal up to role order, role duplicates, whitespace and endpoint order compile to the same snapshot. */
  lemma CompileCanonical(a: Snapshot, b: Snapshot)
    requires RoleSet(a.roleIDs) == RoleSet(b.roleIDs)
    requires multiset(a.endpointIDs) == multiset(b.endpointIDs)
    requires Trim(a.serviceResource) == Trim(b.serviceResource)
    requires a.(roleIDs := [], endpointIDs := [], serviceResource := "")
             == b.(roleIDs := [], endpointIDs := [], serviceResource := "")
    ensures Compiled(a) == Compiled(b)
  {
    if Compiled(a).Success? {
      CompiledShape(a);
      CompiledShape(b);
      StrictlySortedUnique(Compiled(a).value.roleIDs, Compiled(b).value.roleIDs);
      NumOrder();
      SortCanonical(a.endpointIDs, b.endpointIDs, NumLe);
    }
  }

  lemma RoleSetOfTrimmed(values: seq<string>)
    requires forall v <- values :: Trimmed(v) && v != []
    ensures RoleSet(values) == set v | v in values
  {
    forall v | v in values ensures Trim(v) == v && v in RoleSet(values) {
      TrimIsTrimmed(v);
    }
  }

  /** Compiling twice is compiling once. */
  lemma CompileIdempotent(value: Snapshot)
    requires Compiled(value).Success?
    ensures Compiled(Compiled(value).value) == Compiled(value)
  {
    var s := Compiled(value).value;
    CompiledShape(value);
    RoleSetOfTrimmed(s.roleIDs);
    TrimIsTrimmed(value.serviceResource);
    assert RoleSet(s.roleIDs) == RoleSet(value.roleIDs);
    CompileCanonical(s, value.(serviceResource := s.serviceResource));
    CompileCanonical(value, value.(serviceResource := s.serviceResource));
  }
}
