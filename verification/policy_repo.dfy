/** internal/data/db/repo/policy_repo.go: each repository call as one transaction on the tables. */
module PolicyRepo {
  import opened Wrappers
  import opened Text
  import opened Sorting
  import opened PolicyModel
  import opened Validate
  import opened ConditionJson
  import opened Compile
  import opened Tables

  /** biz.AuthorizationPolicy without its audit fields. */
  datatype Policy = Policy(
    id: Uuid, scope: string, code: string, name: string, description: string, effect: Effect, status: Status,
    authorizationType: AuthorizationType, priority: int, condition: Option<Condition>, currentVersion: int,
    roleIDs: seq<string>, endpointIDs: seq<Uuid>)

  // ---- what the transactions do ------------------------------------------------------------

  /** The CHECK constraints of authorization_policies on a live row. */
  predicate RowChecks(row: PolicyRow) {
    && !SqlBlank(row.scope) && !SqlBlank(row.code) && !SqlBlank(row.name)
    && !row.effect.OtherEffect? && KnownType(row.authorizationType)
    && row.currentVersion >= 0
  }

  /** The partial unique index on (service_resource, code). */
  predicate CodeTaken(t: Tables, id: Uuid, scope: string, code: string) {
    exists p <- t.policies :: p != id && !t.policies[p].deleted && t.policies[p].scope == scope
        && t.policies[p].code == code
  }

  function RowOf(v: Policy, scope: string): PolicyRow {
    PolicyRow(scope, v.code, v.name, v.description, v.effect, v.status, v.authorizationType, v.priority,
              Store(v.condition), v.currentVersion, false)
  }

  /** The row an INSERT or UPDATE writes; an UPDATE keeps the stored scope. */
  function WrittenRow(t: Tables, v: Policy, create: bool): PolicyRow {
    RowOf(v, if !create && v.id in t.policies then t.policies[v.id].scope else v.scope)
  }

  function RowError(t: Tables, v: Policy, create: bool): Option<Error> {
    var row := WrittenRow(t, v, create);
    if !create && !LivePolicy(t, v.id) then Some(NotFound)
    else if !RowChecks(row) then Some(Conflict)
    else if create && v.id in t.policies then Some(AlreadyExists)
    else if CodeTaken(t, v.id, row.scope, row.code) then Some(AlreadyExists)
    else None
  }

  /** The first failure when roles are bound one by one: the scope trigger, then the primary key. */
  function BindError(t: Tables, scope: string, roleIDs: seq<string>): Option<Error> {
    if roleIDs == [] then None
    else
      var front, last := roleIDs[..|roleIDs| - 1], roleIDs[|roleIDs| - 1];
      var earlier := BindError(t, scope, front);
      if earlier.Some? then earlier
      else if !LiveRole(t, last) || t.roles[last].scope != scope then Some(Conflict)
      else if last in front then Some(AlreadyExists)
      else None
  }

  function TargetError(t: Tables, scope: string, endpointIDs: seq<Uuid>): Option<Error> {
    if endpointIDs == [] then None
    else
      var front, last := endpointIDs[..|endpointIDs| - 1], endpointIDs[|endpointIDs| - 1];
      var earlier := TargetError(t, scope, front);
      if earlier.Some? then earlier
      else if !LiveEndpoint(t, last) || t.endpoints[last].scope != scope then Some(Conflict)
      else if last in front then Some(AlreadyExists)
      else None
  }

  function SaveError(t: Tables, v: Policy, create: bool): Option<Error> {
    var scope := WrittenRow(t, v, create).scope;
    if RowError(t, v, create).Some? then RowError(t, v, create)
    else if BindError(t, scope, v.roleIDs).Some? then BindError(t, scope, v.roleIDs)
    else TargetError(t, scope, v.endpointIDs)
  }

  ghost function SetOf<T>(s: seq<T>): set<T> {
    set x | x in s
  }

  /** save, committed: the row, and exactly the given bindings. */
  ghost function Saved(t: Tables, v: Policy, create: bool): Tables {
    t.(policies := t.policies[v.id := WrittenRow(t, v, create)],
       bindings := t.bindings[v.id := SetOf(v.roleIDs)],
       targets := t.targets[v.id := SetOf(v.endpointIDs)])
  }

  function SoftDeleted(t: Tables, id: Uuid): Tables
    requires LivePolicy(t, id)
  {
    t.(policies := t.policies[id := t.policies[id].(deleted := true, status := Archived)])
  }

  function StoreVersion(s: Snapshot): VersionRow {
    VersionRow(s.(condition := None), Store(s.condition))
  }

  function LoadVersion(row: VersionRow): Result<Snapshot, Error> {
    var condition := Load(row.condition);
    if condition.None? then Failure(Unavailable) else Success(row.body.(condition := condition.value))
  }

  function VersionError(t: Tables, s: Snapshot): Option<Error> {
    if s.version <= 0 then Some(Conflict)
    else if (s.policyID, s.version) in t.versions then Some(AlreadyExists)
    else if s.policyID !in t.policies then Some(Conflict)
    else None
  }

  function VersionSaved(t: Tables, s: Snapshot): Tables {
    t.(versions := t.versions[(s.policyID, s.version) := StoreVersion(s)])
  }

  function VersionOf(t: Tables, id: Uuid, version: int): Result<Snapshot, Error> {
    if (id, version) !in t.versions then Failure(NotFound) else LoadVersion(t.versions[(id, version)])
  }

  /** The first statement of Get: the row, before its bindings are loaded. */
  function RowRead(t: Tables, id: Uuid): Result<Policy, Error> {
    if !LivePolicy(t, id) then Failure(NotFound)
    else
      var row := t.policies[id];
      var condition := Load(row.condition);
      if condition.None? then Failure(Unavailable)
      else Success(Policy(
        id, row.scope, row.code, row.name, row.description, row.effect, row.status, row.authorizationType,
        row.priority, condition.value, row.currentVersion, [], []))
  }

  ghost function BoundInOrder(t: Tables, id: Uuid): seq<string> {
    LexOrder();
    SortSet(Bound(t, id), LexLe)
  }

  ghost function TargetedInOrder(t: Tables, id: Uuid): seq<Uuid> {
    NumOrder();
    SortSet(Targeted(t, id), NumLe)
  }

  // ---- the published policies --------------------------------------------------------------

  type RankedKey = (int, Uuid)

  /** ORDER BY p.priority DESC, p.id. */
  predicate RankLe(a: RankedKey, b: RankedKey) {
    a.0 > b.0 || (a.0 == b.0 && a.1 <= b.1)
  }

  lemma RankOrder()
    ensures TotalOrder(RankLe)
  {
  }

  predicate LivePublished(t: Tables, p: Uuid) {
    LivePolicy(t, p) && t.policies[p].status == Published
  }

  predicate HasCurrentVersion(t: Tables, p: Uuid) {
    p in t.policies && (p, t.policies[p].currentVersion) in t.versions
  }

  /** The snapshot a policy row points at. */
  function Current(t: Tables, p: Uuid): Result<Snapshot, Error>
    requires HasCurrentVersion(t, p)
  {
    LoadVersion(t.versions[(p, t.policies[p].currentVersion)])
  }

  /** The join of policies, targets and versions behind the listing. */
  function ListedKeys(t: Tables, scope: string, endpoint: Uuid): set<RankedKey> {
    set p | p in t.policies && LivePublished(t, p) && t.policies[p].scope == scope
            && endpoint in Targeted(t, p) && HasCurrentVersion(t, p) :: (t.policies[p].priority, p)
  }

  function LoadListed(t: Tables, keys: seq<RankedKey>): Result<seq<Snapshot>, Error>
    requires forall k <- keys :: HasCurrentVersion(t, k.1)
  {
    if keys == [] then Success([])
    else
      var front, key := LoadListed(t, keys[..|keys| - 1]), keys[|keys| - 1];
      assert key in keys;
      var last := Current(t, key.1);
      if front.Failure? then front
      else if last.Failure? then Failure(last.error)
      else Success(front.value + [last.value])
  }

  ghost function KeysInOrder(t: Tables, scope: string, endpoint: Uuid): (keys: seq<RankedKey>)
    ensures forall k :: k in keys <==> k in ListedKeys(t, scope, endpoint)
  {
    RankOrder();
    SortSetOnce(ListedKeys(t, scope, endpoint), RankLe);
    SortSet(ListedKeys(t, scope, endpoint), RankLe)
  }

  ghost function Listed(t: Tables, scope: string, endpoint: Uuid): Result<seq<Snapshot>, Error> {
    LoadListed(t, KeysInOrder(t, scope, endpoint))
  }

  // ---- the repository ----------------------------------------------------------------------

  /** Get, Create, Update, SoftDelete, SaveVersion, GetVersion and ListPublishedByEndpoint on a pool. */
  class AuthorizationPolicyRepository {
    const pool: Database

    constructor (pool: Database)
      ensures this.pool == pool
    {
      this.pool := pool;
    }

    /** save: writes the row, deletes the old bindings and inserts the new ones, all or nothing. */
    method Save(v: Policy, create: bool) returns (result: Result<Policy, Error>)
      modifies pool
      ensures var error := SaveError(old(pool.State()), v, create);
              if error.Some? then result == Failure(error.value) && pool.State() == old(pool.State())
              else pool.State() == Saved(old(pool.State()), v, create)
                   && result == Success(v.(scope := WrittenRow(old(pool.State()), v, create).scope))
    {
      var written := WriteRow(v, create);
      if written.Failure? {
        return Failure(written.error);
      }
      var row := written.value;
      var bound := BindRoles(row.scope, v.roleIDs);
      if bound.Failure? {
        return Failure(bound.error);
      }
      var targeted := BindTargets(row.scope, v.endpointIDs);
      if targeted.Failure? {
        return Failure(targeted.error);
      }
      pool.policies := pool.policies[v.id := row];
      pool.bindings := pool.bindings[v.id := bound.value];
      pool.targets := pool.targets[v.id := targeted.value];
      return Success(v.(scope := row.scope));
    }

    /** The INSERT or UPDATE of the row: an UPDATE sets every column but the scope. */
    method WriteRow(v: Policy, create: bool) returns (result: Result<PolicyRow, Error>)
      ensures var t := pool.State();
              result == if RowError(t, v, create).Some? then Failure(RowError(t, v, create).value)
                        else Success(WrittenRow(t, v, create))
    {
      hide CodeTaken, Store;
      var row := PolicyRow(v.scope, v.code, v.name, v.description, v.effect, v.status, v.authorizationType, v.priority,
                           Store(v.condition), v.currentVersion, false);
      if !create {
        if v.id !in pool.policies || pool.policies[v.id].deleted {
          return Failure(NotFound);
        }
        row := pool.policies[v.id].(
          code := v.code, name := v.name, description := v.description, effect := v.effect, status := v.status,
          authorizationType := v.authorizationType, priority := v.priority, condition := Store(v.condition),
          currentVersion := v.currentVersion);
      }
      if SqlBlank(row.scope) || SqlBlank(row.code) || SqlBlank(row.name) || row.currentVersion < 0 {
        return Failure(Conflict);
      }
      if (row.effect != Allow && row.effect != Deny)
         || (row.authorizationType != Api && row.authorizationType != Data)
      {
        return Failure(Conflict);
      }
      if create && v.id in pool.policies {
        return Failure(AlreadyExists);
      }
      if CodeTaken(pool.State(), v.id, row.scope, row.code) {
        return Failure(AlreadyExists);
      }
      return Success(row);
    }

    /** The loop that inserts the role bindings, under the scope trigger and the primary key. */
    method BindRoles(scope: string, roleIDs: seq<string>) returns (result: Result<set<string>, Error>)
      ensures var error := BindError(pool.State(), scope, roleIDs);
              result == if error.Some? then Failure(error.value) else Success(SetOf(roleIDs))
    {
      ghost var t := pool.State();
      var bound: set<string> := {};
      for i := 0 to |roleIDs|
        invariant bound == SetOf(roleIDs[..i]) && BindError(t, scope, roleIDs[..i]).None?
      {
        assert roleIDs[..i + 1][..i] == roleIDs[..i];
        var roleID := roleIDs[i];
        if roleID !in pool.roles || pool.roles[roleID].deleted || pool.roles[roleID].scope != scope {
          BindErrorStays(t, scope, roleIDs, i + 1);
          return Failure(Conflict);
        }
        if roleID in bound {
          BindErrorStays(t, scope, roleIDs, i + 1);
          return Failure(AlreadyExists);
        }
        bound := bound + {roleID};
      }
      assert roleIDs[..|roleIDs|] == roleIDs;
      return Success(bound);
    }

    /** The loop that inserts the endpoint targets. */
    method BindTargets(scope: string, endpointIDs: seq<Uuid>) returns (result: Result<set<Uuid>, Error>)
      ensures var error := TargetError(pool.State(), scope, endpointIDs);
              result == if error.Some? then Failure(error.value) else Success(SetOf(endpointIDs))
    {
      ghost var t := pool.State();
      var targeted: set<Uuid> := {};
      for i := 0 to |endpointIDs|
        invariant targeted == SetOf(endpointIDs[..i]) && TargetError(t, scope, endpointIDs[..i]).None?
      {
        assert endpointIDs[..i + 1][..i] == endpointIDs[..i];
        var endpointID := endpointIDs[i];
        if endpointID !in pool.endpoints || pool.endpoints[endpointID].deleted
            || pool.endpoints[endpointID].scope != scope {
          TargetErrorStays(t, scope, endpointIDs, i + 1);
          return Failure(Conflict);
        }
        if endpointID in targeted {
          TargetErrorStays(t, scope, endpointIDs, i + 1);
          return Failure(AlreadyExists);
        }
        targeted := targeted + {endpointID};
      }
      assert endpointIDs[..|endpointIDs|] == endpointIDs;
      return Success(targeted);
    }

    method SoftDelete(id: Uuid) returns (error: Option<Error>)
      modifies pool`policies
      ensures if LivePolicy(old(pool.State()), id) then
                error.None? && pool.State() == SoftDeleted(old(pool.State()), id)
              else error == Some(NotFound) && pool.State() == old(pool.State())
    {
      if id !in pool.policies || pool.policies[id].deleted {
        return Some(NotFound);
      }
      pool.policies := pool.policies[id := pool.policies[id].(deleted := true, status := Archived)];
      return None;
    }

    method SaveVersion(s: Snapshot) returns (error: Option<Error>)
      modifies pool`versions
      ensures error == VersionError(old(pool.State()), s)
      ensures pool.State() == if error.None? then VersionSaved(old(pool.State()), s) else old(pool.State())
    {
      if s.version <= 0 {
        return Some(Conflict);
      }
      if (s.policyID, s.version) in pool.versions {
        return Some(AlreadyExists);
      }
      if s.policyID !in pool.policies {
        return Some(Conflict);
      }
      var row := VersionRow(s.(condition := None), Store(s.condition));
      pool.versions := pool.versions[(s.policyID, s.version) := row];
      return None;
    }

    /** GetVersion: the lookup by primary key, then the decoding of the stored snapshot. */
    method GetVersion(id: Uuid, version: int) returns (result: Result<Snapshot, Error>)
      ensures result == Failure(NotFound) <==> (id, version) !in pool.versions
      ensures (id, version) in pool.versions ==>
                var row := pool.versions[(id, version)];
                result == if Load(row.condition).None? then Failure(Unavailable)
                          else Success(row.body.(condition := Load(row.condition).value))
      ensures result == VersionOf(pool.State(), id, version)
    {
      if (id, version) !in pool.versions {
        return Failure(NotFound);
      }
      var row := pool.versions[(id, version)];
      var snapshot := row.body;
      var condition := Load(row.condition);
      if condition.None? {
        return Failure(Unavailable);
      }
      snapshot := snapshot.(condition := condition.value);
      return Success(snapshot);
    }

    /** Get: the row, then its roles, then its endpoints, appended to the value's slices. */
    method Get(id: Uuid) returns (result: Result<Policy, Error>)
      ensures result.Failure? && result.error == NotFound <==> id !in pool.policies || pool.policies[id].deleted
      ensures result.Success? ==>
                var v, row := result.value, pool.policies[id];
                && (v.id, v.scope, v.code, v.name, v.description) ==
                   (id, row.scope, row.code, row.name, row.description)
                && (v.effect, v.status, v.authorizationType) == (row.effect, row.status, row.authorizationType)
                && (v.priority, v.currentVersion) == (row.priority, row.currentVersion)
                && Load(row.condition) == Some(v.condition)
                && (forall r :: r in v.roleIDs <==> id in pool.bindings && r in pool.bindings[id])
                && (forall e :: e in v.endpointIDs <==> id in pool.targets && e in pool.targets[id])
                && NoDuplicates(v.roleIDs) && NoDuplicates(v.endpointIDs)
      ensures RowRead(pool.State(), id).Failure? ==> result == RowRead(pool.State(), id)
      ensures RowRead(pool.State(), id).Success? ==>
              result == Success(RowRead(pool.State(), id).value.(
                roleIDs := BoundInOrder(pool.State(), id), endpointIDs := TargetedInOrder(pool.State(), id)))
    {
      hide Load, LexLe, SortSet, Ordered;
      if id !in pool.policies || pool.policies[id].deleted {
        return Failure(NotFound);
      }
      var row := pool.policies[id];
      var condition := Load(row.condition);
      if condition.None? {
        return Failure(Unavailable);
      }
      LexOrder();
      NumOrder();
      SortSetOnce(Bound(pool.State(), id), LexLe);
      SortSetOnce(Targeted(pool.State(), id), NumLe);
      var roleRows := RowsInOrder(Bound(pool.State(), id), LexLe);
      var targetRows := RowsInOrder(Targeted(pool.State(), id), NumLe);
      return Success(Policy(
        id, row.scope, row.code, row.name, row.description, row.effect, row.status, row.authorizationType,
        row.priority, condition.value, row.currentVersion, roleRows, targetRows));
    }

    /** ListPublishedByEndpoint: the joined rows in order, each snapshot decoded and appended. */
    method ListPublishedByEndpoint(scope: string, endpoint: Uuid) returns (result: Result<seq<Snapshot>, Error>)
      ensures result == Listed(pool.State(), scope, endpoint)
    {
      RankOrder();
      var keys := RowsInOrder(ListedKeys(pool.State(), scope, endpoint), RankLe);
      assert keys == KeysInOrder(pool.State(), scope, endpoint);
      result := LoadEach(keys);
    }

    /** The loop over the fetched rows. */
    method LoadEach(keys: seq<RankedKey>) returns (result: Result<seq<Snapshot>, Error>)
      requires forall k <- keys :: HasCurrentVersion(pool.State(), k.1)
      ensures result == LoadListed(pool.State(), keys)
    {
      ghost var t := pool.State();
      hide LoadVersion, LoadListed, Load;
      LoadNone(t);
      var values: seq<Snapshot> := [];
      for i := 0 to |keys|
        invariant forall k <- keys[..i] :: HasCurrentVersion(t, k.1)
        invariant LoadListed(t, keys[..i]) == Success(values)
      {
        LoadOneMore(t, keys, i);
        var p := keys[i].1;
        var row := pool.versions[(p, pool.policies[p].currentVersion)];
        DecodedVersion(row);
        var condition := Load(row.condition);
        if condition.None? {
          LoadFailureStays(t, keys, i + 1);
          return Failure(Unavailable);
        }
        values := values + [row.body.(condition := condition.value)];
      }
      assert keys[..|keys|] == keys;
      return Success(values);
    }
  }

  lemma DecodedVersion(row: VersionRow)
    ensures LoadVersion(row) == if Load(row.condition).None? then Failure(Unavailable)
                                else Success(row.body.(condition := Load(row.condition).value))
  {
  }

  lemma LoadNone(t: Tables)
    ensures LoadListed(t, []) == Success([])
  {
  }

  lemma LoadOneMore(t: Tables, keys: seq<RankedKey>, i: nat)
    requires i < |keys| && forall key <- keys :: HasCurrentVersion(t, key.1)
    requires LoadListed(t, keys[..i]).Success?
    ensures keys[i] in keys && HasCurrentVersion(t, keys[i].1)
    ensures LoadListed(t, keys[..i + 1]) ==
            if Current(t, keys[i].1).Failure? then Failure(Current(t, keys[i].1).error)
            else Success(LoadListed(t, keys[..i]).value + [Current(t, keys[i].1).value])
  {
    assert keys[..i + 1][..i] == keys[..i] && keys[i] in keys;
  }

  lemma {:induction false} BindErrorStays(t: Tables, scope: string, roleIDs: seq<string>, k: nat)
    requires k <= |roleIDs| && BindError(t, scope, roleIDs[..k]).Some?
    ensures BindError(t, scope, roleIDs) == BindError(t, scope, roleIDs[..k])
    decreases |roleIDs|
  {
    if k == |roleIDs| {
      assert roleIDs[..k] == roleIDs;
    } else {
      var front := roleIDs[..|roleIDs| - 1];
      assert front[..k] == roleIDs[..k];
      BindErrorStays(t, scope, front, k);
    }
  }

  lemma {:induction false} TargetErrorStays(t: Tables, scope: string, endpointIDs: seq<Uuid>, k: nat)
    requires k <= |endpointIDs| && TargetError(t, scope, endpointIDs[..k]).Some?
    ensures TargetError(t, scope, endpointIDs) == TargetError(t, scope, endpointIDs[..k])
    decreases |endpointIDs|
  {
    if k == |endpointIDs| {
      assert endpointIDs[..k] == endpointIDs;
    } else {
      var front := endpointIDs[..|endpointIDs| - 1];
      assert front[..k] == endpointIDs[..k];
      TargetErrorStays(t, scope, front, k);
    }
  }

  lemma {:induction false} LoadFailureStays(t: Tables, keys: seq<RankedKey>, k: nat)
    requires forall key <- keys :: HasCurrentVersion(t, key.1)
    requires k <= |keys| && LoadListed(t, keys[..k]).Failure?
    ensures LoadListed(t, keys) == Failure(Unavailable)
    decreases |keys|
  {
    if k == |keys| {
      assert keys[..k] == keys;
      if k > 0 && LoadListed(t, keys[..k - 1]).Failure? {
        assert keys[..k - 1][..k - 1] == keys[..k - 1];
        LoadFailureStays(t, keys[..k - 1], k - 1);
      }
    } else {
      var front := keys[..|keys| - 1];
      assert front[..k] == keys[..k];
      LoadFailureStays(t, front, k);
    }
  }

  // ---- what the bindings check guarantees --------------------------------------------------

  /** A save goes through only with distinct live roles of the policy's scope. */
  lemma {:induction false} BoundRolesAreLive(t: Tables, scope: string, roleIDs: seq<string>)
    ensures BindError(t, scope, roleIDs).None? <==>
            NoDuplicates(roleIDs) && forall r <- roleIDs :: LiveRole(t, r) && t.roles[r].scope == scope
  {
    if roleIDs != [] {
      var front, last := roleIDs[..|roleIDs| - 1], roleIDs[|roleIDs| - 1];
      assert roleIDs == front + [last];
      BoundRolesAreLive(t, scope, front);
      assert NoDuplicates(roleIDs) <==> NoDuplicates(front) && last !in front;
    }
  }

  lemma {:induction false} TargetsAreLive(t: Tables, scope: string, endpointIDs: seq<Uuid>)
    ensures TargetError(t, scope, endpointIDs).None? <==>
            NoDuplicates(endpointIDs) && forall e <- endpointIDs :: LiveEndpoint(t, e) && t.endpoints[e].scope == scope
  {
    if endpointIDs != [] {
      var front, last := endpointIDs[..|endpointIDs| - 1], endpointIDs[|endpointIDs| - 1];
      assert endpointIDs == front + [last];
      TargetsAreLive(t, scope, front);
      assert NoDuplicates(endpointIDs) <==> NoDuplicates(front) && last !in front;
    }
  }
}
