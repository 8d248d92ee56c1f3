/**
 * user_role_repo.go, role_repo.go and permission.go: grants and assignments, rewritten row by row, and
 * what a replacement leaves behind.
 */
module RbacRepo {
  import opened Wrappers
  import opened Text
  import opened Sorting
  import opened PolicyModel
  import opened Tables
  import opened Rbac

  // ---- assignments -------------------------------------------------------------------------

  class UserRoleRepository {
    const pool: Database

    constructor (pool: Database)
      ensures this.pool == pool
    {
      this.pool := pool;
    }

    method ListRoleIDs(subject: string, scope: string) returns (result: Result<seq<string>, Error>)
      ensures result == RoleIDsOf(pool.State(), subject, scope)
    {
      hide ValidID, ValidScope, HeldRoles, NamedLe, SortSet;
      var u, s := ValidID(subject), ValidScope(scope);
      if u.Failure? {
        return Failure(u.error);
      }
      if s.Failure? {
        return Failure(s.error);
      }
      NamedOrder();
      var rows := RowsInOrder(HeldRoles(pool.State(), u.value, s.value), NamedLe);
      var roleIDs: seq<string> := [];
      for i := 0 to |rows|
        invariant roleIDs == SecondOf(rows)[..i]
      {
        roleIDs := roleIDs + [rows[i].1];
      }
      assert SecondOf(rows)[..|rows|] == SecondOf(rows);
      return Success(roleIDs);
    }

    /** normalizeRoleIDs: trims each id and refuses a blank, an overlong or a repeated one. */
    method NormalizeRoleIDs(roleIDs: seq<string>) returns (result: Result<seq<string>, Error>)
      ensures result == ValidRoleIDs(roleIDs)
    {
      var normalized: seq<string> := [];
      var seen: set<string> := {};
      for i := 0 to |roleIDs|
        invariant ValidRoleIDs(roleIDs[..i]) == Success(normalized)
        invariant forall r :: r in seen <==> r in normalized
      {
        assert roleIDs[..i + 1][..i] == roleIDs[..i];
        var id := ValidID(roleIDs[i]);
        if id.Failure? {
          RefusalStays(roleIDs, i + 1);
          return Failure(InvalidArgument);
        }
        if id.value in seen {
          RefusalStays(roleIDs, i + 1);
          return Failure(InvalidArgument);
        }
        seen := seen + {id.value};
        normalized := normalized + [id.value];
      }
      assert roleIDs[..|roleIDs|] == roleIDs;
      return Success(normalized);
    }

    /** Replace: checks every role, marks the subject's rows of the scope deleted, inserts or revives the new ones. */
    method Replace(subject: string, scope: string, roleIDs: seq<string>) returns (error: Option<Error>)
      modifies pool`userRoles
      ensures var r := ReplaceUserRoles(old(pool.State()), subject, scope, roleIDs);
              if r.Success? then error.None? && pool.State() == r.value
              else error == Some(r.error) && pool.State() == old(pool.State())
    {
      hide ValidID, ValidScope, ValidRoleIDs, RolesReplaced;
      var u, s := ValidID(subject), ValidScope(scope);
      if u.Failure? {
        return Some(u.error);
      }
      if s.Failure? {
        return Some(s.error);
      }
      var ids := NormalizeRoleIDs(roleIDs);
      if ids.Failure? {
        return Some(ids.error);
      }
      for i := 0 to |ids.value|
        invariant forall r <- ids.value[..i] :: Assignable(pool.State(), r, s.value)
      {
        var roleID := ids.value[i];
        if roleID !in pool.roles || pool.roles[roleID].scope != s.value || pool.roles[roleID].deleted
            || !pool.roles[roleID].enabled {
          assert roleID in ids.value && !Assignable(pool.State(), roleID, s.value);
          return Some(Conflict);
        }
      }
      assert ids.value[..|ids.value|] == ids.value;
      Rewrite(u.value, s.value, ids.value);
      return None;
    }

    /** The two kinds of statements that write. */
    method Rewrite(subject: string, scope: string, roleIDs: seq<string>)
      modifies pool`userRoles
      ensures pool.State() == RolesReplaced(old(pool.State()), subject, scope, roleIDs)
    {
      ghost var t := pool.State();
      pool.userRoles := map k | k in pool.userRoles ::
          pool.userRoles[k] && !(k.0 == subject && InScope(pool.State(), k.1, scope));
      for i := 0 to |roleIDs|
        invariant pool.userRoles == RolesReplaced(t, subject, scope, roleIDs[..i]).userRoles
      {
        InsertAssignment(t, subject, scope, roleIDs[..i], roleIDs[i]);
        assert roleIDs[..i + 1] == roleIDs[..i] + [roleIDs[i]];
        pool.userRoles := pool.userRoles[(subject, roleIDs[i]) := true];
      }
      assert roleIDs[..|roleIDs|] == roleIDs;
    }
  }

  /** INSERT … ON CONFLICT DO UPDATE: a row is inserted or revived. */
  lemma InsertAssignment(t: Tables, subject: string, scope: string, done: seq<string>, roleID: string)
    ensures RolesReplaced(t, subject, scope, done + [roleID]).userRoles ==
            RolesReplaced(t, subject, scope, done).userRoles[(subject, roleID) := true]
  {
    assert Assignments(subject, done + [roleID]) == Assignments(subject, done) + {(subject, roleID)};
  }

  lemma {:induction false} RefusalStays(roleIDs: seq<string>, k: nat)
    requires k <= |roleIDs| && ValidRoleIDs(roleIDs[..k]).Failure?
    ensures ValidRoleIDs(roleIDs) == Failure(InvalidArgument)
    decreases |roleIDs|
  {
    if k == |roleIDs| {
      assert roleIDs[..k] == roleIDs;
      if k > 0 && ValidRoleIDs(roleIDs[..k - 1]).Failure? {
        assert roleIDs[..k - 1][..k - 1] == roleIDs[..k - 1];
        RefusalStays(roleIDs[..k - 1], k - 1);
      }
    } else {
      var front := roleIDs[..|roleIDs| - 1];
      assert front[..k] == roleIDs[..k];
      RefusalStays(front, k);
    }
  }

  /** The accepted ids are the trimmed ones, in order, each once; accepting them again changes nothing. */
  lemma {:induction false} AcceptedRoleIDs(roleIDs: seq<string>)
    ensures ValidRoleIDs(roleIDs).Success? ==>
              var ids := ValidRoleIDs(roleIDs).value;
              && |ids| == |roleIDs| && (forall i :: 0 <= i < |ids| ==> ids[i] == Trim(roleIDs[i]))
              && NoDuplicates(ids) && ValidRoleIDs(ids) == Success(ids)
  {
    hide ValidID, Trim;
    if roleIDs != [] {
      AcceptedRoleIDs(roleIDs[..|roleIDs| - 1]);
      AcceptedID(roleIDs[|roleIDs| - 1]);
      var r := ValidRoleIDs(roleIDs);
      if r.Success? {
        var front := ValidRoleIDs(roleIDs[..|roleIDs| - 1]).value;
        assert r.value[..|r.value| - 1] == front;
      }
    }
  }

  lemma AcceptedID(id: string)
    ensures ValidID(id).Success? ==> ValidID(id).value == Trim(id) && ValidID(Trim(id)) == ValidID(id)
  {
    TrimIsTrimmed(id);
  }

  /** The subject's roles in the scope are exactly those requested, each once. */
  ghost predicate HoldsExactly(t: Tables, subject: string, scope: string, roleIDs: seq<string>) {
    var held := RoleIDsOf(t, subject, scope);
    && held.Success? && NoDuplicates(held.value)
    && forall r :: r in held.value <==> r in roleIDs
  }

  /** The roles a subject holds in a scope, by id. */
  predicate Holding(t: Tables, subject: string, scope: string, r: string) {
    Assignable(t, r, scope) && (subject, r) in t.userRoles && t.userRoles[(subject, r)]
  }

  lemma ListedAreHeld(t: Tables, subject: string, scope: string)
    requires RoleIDsOf(t, subject, scope).Success?
    ensures var ids := RoleIDsOf(t, subject, scope).value;
            NoDuplicates(ids) && forall r :: r in ids <==> Holding(t, Trim(subject), Trim(scope), r)
  {
    NamedOrder();
    var held := HeldRoles(t, Trim(subject), Trim(scope));
    SortSetOnce(held, NamedLe);
    var keys := SortSet(held, NamedLe);
    var ids := RoleIDsOf(t, subject, scope).value;
    hide SortSet, NamedLe, Assignable, Trim;
    assert ids == SecondOf(keys);
    forall i, j | 0 <= i < j < |ids| ensures ids[i] != ids[j] {
      assert keys[i] in held && keys[j] in held && keys[i] != keys[j];
    }
    forall r ensures r in ids <==> Holding(t, Trim(subject), Trim(scope), r) {
      if r in ids {
        var i :| 0 <= i < |ids| && ids[i] == r;
        assert keys[i] in held;
      }
      if Holding(t, Trim(subject), Trim(scope), r) {
        assert (t.roles[r].name, r) in keys;
        var i :| 0 <= i < |keys| && keys[i] == (t.roles[r].name, r);
        assert ids[i] == r;
      }
    }
  }

  lemma ReplacedHolds(t: Tables, subject: string, scope: string, ids: seq<string>, r: string)
    requires forall x <- ids :: Assignable(t, x, scope)
    ensures Holding(RolesReplaced(t, subject, scope, ids), subject, scope, r) <==> r in ids
  {
  }

  lemma ReplacedElsewhere(t: Tables, subject: string, scope: string, ids: seq<string>, subject': string, scope': string)
    requires forall x <- ids :: Assignable(t, x, scope)
    requires subject' != subject || scope' != scope
    ensures HeldRoles(RolesReplaced(t, subject, scope, ids), subject', scope') == HeldRoles(t, subject', scope')
  {
  }

  /**
   * After a successful replacement the subject holds exactly the requested roles in the scope, whatever it
   * held before; every other subject, and every other scope, is as it was, and so is the rest of the tables.
   * It succeeds exactly when the arguments are well formed and every role is live, enabled and of the scope.
   */
  lemma {:induction false} ReplaceExact(t: Tables, subject: string, scope: string, roleIDs: seq<string>)
    ensures ReplaceUserRoles(t, subject, scope, roleIDs).Success? <==>
              ValidID(subject).Success? && ValidScope(scope).Success? && ValidRoleIDs(roleIDs).Success?
              && forall r <- roleIDs :: Assignable(t, Trim(r), Trim(scope))
    ensures ReplaceUserRoles(t, subject, scope, roleIDs).Success? ==>
              var t' := ReplaceUserRoles(t, subject, scope, roleIDs).value;
              && t' == t.(userRoles := t'.userRoles)
              && HoldsExactly(t', subject, scope, ValidRoleIDs(roleIDs).value)
    ensures ReplaceUserRoles(t, subject, scope, roleIDs).Success? ==>
              forall subject', scope' :: Trim(subject') != Trim(subject) || Trim(scope') != Trim(scope) ==>
                RoleIDsOf(ReplaceUserRoles(t, subject, scope, roleIDs).value, subject', scope') ==
                RoleIDsOf(t, subject', scope')
    ensures ReplaceUserRoles(t, subject, scope, roleIDs).Failure?
            ==> Apply(t, RolesAssigned(subject, scope, roleIDs)) == t
  {
    hide ValidID, ValidScope, Trim, Assignable, RolesReplaced, RoleIDsOf, ValidRoleIDs, HoldsExactly;
    ReplaceAccepts(t, subject, scope, roleIDs);
    if ReplaceUserRoles(t, subject, scope, roleIDs).Success? {
      ReplacedExactly(t, subject, scope, ValidRoleIDs(roleIDs).value);
      ValidatedAreTrimmed(subject, scope);
    }
  }

  lemma ValidatedAreTrimmed(subject: string, scope: string)
    requires ValidID(subject).Success? && ValidScope(scope).Success?
    ensures ValidID(subject).value == Trim(subject) && ValidScope(scope).value == Trim(scope)
  {
  }

  lemma ReplaceAccepts(t: Tables, subject: string, scope: string, roleIDs: seq<string>)
    ensures ReplaceUserRoles(t, subject, scope, roleIDs).Success? <==>
              ValidID(subject).Success? && ValidScope(scope).Success? && ValidRoleIDs(roleIDs).Success?
              && forall r <- roleIDs :: Assignable(t, Trim(r), Trim(scope))
    ensures ReplaceUserRoles(t, subject, scope, roleIDs).Success? ==>
              forall r <- ValidRoleIDs(roleIDs).value :: Assignable(t, r, Trim(scope))
  {
    AcceptedRoleIDs(roleIDs);
    hide Trim, ByteLength, Assignable, RolesReplaced, Blank, ValidRoleIDs;
    if ValidRoleIDs(roleIDs).Success? {
      var ids := ValidRoleIDs(roleIDs).value;
      assert (forall r <- ids :: Assignable(t, r, Trim(scope)))
        <==> (forall r <- roleIDs :: Assignable(t, Trim(r), Trim(scope))) by {
        forall i | 0 <= i < |ids| ensures ids[i] in ids && roleIDs[i] in roleIDs && ids[i] == Trim(roleIDs[i]) {}
      }
    }
  }

  lemma ReplacedExactly(t: Tables, subject: string, scope: string, ids: seq<string>)
    requires ValidID(subject).Success? && ValidScope(scope).Success? && forall r <- ids :: Assignable(t, r, Trim(scope))
    ensures var t' := RolesReplaced(t, Trim(subject), Trim(scope), ids);
            && t' == t.(userRoles := t'.userRoles) && HoldsExactly(t', subject, scope, ids)
            && forall subject', scope' :: Trim(subject') != Trim(subject) || Trim(scope') != Trim(scope) ==>
                 RoleIDsOf(t', subject', scope') == RoleIDsOf(t, subject', scope')
  {
    hide SecondOf, Trim, ByteLength, Assignable, Blank, HeldRoles, Holding, LexLe;
    var u, s := Trim(subject), Trim(scope);
    var t' := RolesReplaced(t, u, s, ids);
    ListedAreHeld(t', subject, scope);
    forall r ensures Holding(t', u, s, r) <==> r in ids {
      ReplacedHolds(t, u, s, ids, r);
    }
    forall subject', scope' | Trim(subject') != u || Trim(scope') != s
      ensures RoleIDsOf(t', subject', scope') == RoleIDsOf(t, subject', scope')
    {
      ReplacedElsewhere(t, u, s, ids, Trim(subject'), Trim(scope'));
    }
  }

  /** A deleted role stays deleted and is held by nobody, in any scope, whatever is done afterwards. */
  lemma {:induction false} DeletedRoleNeverHeld(t: Tables, steps: seq<Step>, r: string)
    requires r in t.roles && t.roles[r].deleted
    ensures var t' := Run(t, steps);
            && r in t'.roles && t'.roles[r].deleted
            && forall subject, scope :: RoleIDsOf(t', subject, scope).Success? ==>
                 r !in RoleIDsOf(t', subject, scope).value
  {
    if steps != [] {
      var before := Run(t, steps[..|steps| - 1]);
      DeletedRoleNeverHeld(t, steps[..|steps| - 1], r);
      DeletedRoleStays(before, steps[|steps| - 1], r);
    }
    hide RoleIDsOf, Attempt;
    var t' := Run(t, steps);
    forall subject, scope | RoleIDsOf(t', subject, scope).Success? ensures r !in RoleIDsOf(t', subject, scope).value {
      ListedAreHeld(t', subject, scope);
    }
  }

  lemma DeletedRoleStays(t: Tables, step: Step, r: string)
    requires r in t.roles && t.roles[r].deleted
    ensures r in Apply(t, step).roles && Apply(t, step).roles[r].deleted
  {
    hide ValidMenu, ValidID, ValidScope, ValidCodeAndName, ValidEndpoint, RoleCodeTaken, MenuCodeTaken, RouteTaken;
  }

  // ---- grants ------------------------------------------------------------------------------

  class PermissionService {
    const pool: Database
    const roles: RoleRepository
    const userRoles: UserRoleRepository

    constructor (pool: Database)
      ensures this.pool == pool && roles.pool == pool && userRoles.pool == pool
    {
      this.pool := pool;
      this.roles := new RoleRepository(pool);
      this.userRoles := new UserRoleRepository(pool);
    }

    /** CreateRole; `id` is the generated id. */
    method CreateRole(id: string, scope: string, code: string, name: string, description: string)
      returns (error: Option<Error>)
      modifies pool`roles
      ensures var r := Rbac.CreateRole(old(pool.State()), id, scope, code, name, description);
              if r.Success? then error.None? && pool.State() == r.value
              else error == Some(r.error) && pool.State() == old(pool.State())
    {
      hide Trim, Blank, ByteLength, RoleCodeTaken;
      var s := ValidScope(scope);
      if s.Failure? {
        return Some(s.error);
      }
      if s.value !in pool.catalog {
        return Some(NotFound);
      }
      if !pool.catalog[s.value] {
        return Some(Conflict);
      }
      var names := ValidCodeAndName(code, name);
      if names.Failure? {
        return Some(names.error);
      }
      if id in pool.roles || RoleCodeTaken(pool.State(), id, s.value, names.value.0) {
        return Some(AlreadyExists);
      }
      var row := RoleRow(s.value, names.value.0, names.value.1, Trim(description), true, false);
      pool.roles := pool.roles[id := row];
      return None;
    }

    /** UpdateRole: the stored row is copied and its mutable fields assigned. */
    method UpdateRole(id: string, code: string, name: string, description: string, enabled: bool)
      returns (error: Option<Error>)
      modifies pool`roles
      ensures var r := Rbac.UpdateRole(old(pool.State()), id, code, name, description, enabled);
              if r.Success? then error.None? && pool.State() == r.value
              else error == Some(r.error) && pool.State() == old(pool.State())
    {
      hide Trim, Blank, ByteLength, RoleCodeTaken;
      var roleID := ValidID(id);
      if roleID.Failure? {
        return Some(roleID.error);
      }
      if roleID.value !in pool.roles || pool.roles[roleID.value].deleted {
        return Some(NotFound);
      }
      var updated := pool.roles[roleID.value];
      if updated.scope !in pool.catalog {
        return Some(NotFound);
      }
      if !pool.catalog[updated.scope] {
        return Some(Conflict);
      }
      var names := ValidCodeAndName(code, name);
      if names.Failure? {
        return Some(names.error);
      }
      updated := updated.(code := names.value.0, name := names.value.1);
      updated := updated.(description := Trim(description), enabled := enabled);
      if RoleCodeTaken(pool.State(), roleID.value, updated.scope, updated.code) {
        return Some(AlreadyExists);
      }
      pool.roles := pool.roles[roleID.value := updated];
      return None;
    }

    /** GrantRoleMenus: every menu is checked, then the grants are rewritten in one transaction. */
    method GrantRoleMenus(roleID: string, menuIDs: seq<Uuid>) returns (error: Option<Error>)
      requires pool == roles.pool
      modifies pool`roleMenus
      ensures var r := Rbac.GrantRoleMenus(old(pool.State()), roleID, menuIDs);
              if r.Success? then error.None? && pool.State() == r.value
              else error == Some(r.error) && pool.State() == old(pool.State())
    {
      hide Trim, Blank, ByteLength, GrantError, ReplaceMenusError, MenusReplaced;
      var id := ValidID(roleID);
      if id.Failure? {
        return Some(id.error);
      }
      if id.value !in pool.roles || pool.roles[id.value].deleted {
        return Some(NotFound);
      }
      var role := pool.roles[id.value];
      if !role.enabled {
        return Some(Conflict);
      }
      error := CheckMenus(role.scope, menuIDs);
      if error.None? {
        CheckedGrantIsAccepted(pool.State(), roleID, menuIDs);
        error := roles.ReplaceMenus(id.value, menuIDs);
      }
    }

    method CheckMenus(scope: string, menuIDs: seq<Uuid>) returns (error: Option<Error>)
      ensures error == GrantError(pool.State(), scope, menuIDs)
    {
      ghost var t := pool.State();
      var seen: set<Uuid> := {};
      for i := 0 to |menuIDs|
        invariant GrantError(t, scope, menuIDs[..i]).None?
        invariant forall m :: m in seen <==> m in menuIDs[..i]
      {
        assert menuIDs[..i + 1][..i] == menuIDs[..i];
        var menuID := menuIDs[i];
        if menuID == NIL_UUID {
          GrantErrorStays(t, scope, menuIDs, i + 1);
          return Some(InvalidArgument);
        }
        if menuID in seen {
          GrantErrorStays(t, scope, menuIDs, i + 1);
          return Some(InvalidArgument);
        }
        seen := seen + {menuID};
        if menuID !in pool.menus || pool.menus[menuID].deleted {
          GrantErrorStays(t, scope, menuIDs, i + 1);
          return Some(NotFound);
        }
        if !pool.menus[menuID].enabled || pool.menus[menuID].scope != scope {
          GrantErrorStays(t, scope, menuIDs, i + 1);
          return Some(Conflict);
        }
      }
      assert menuIDs[..|menuIDs|] == menuIDs;
      return None;
    }

    /** ReplaceUserRoles: trims the caller's ids in place, then lets the repository check and write. */
    method ReplaceUserRoles(subject: string, scope: string, roleIDs: array<string>) returns (error: Option<Error>)
      requires pool == userRoles.pool
      modifies pool`userRoles, roleIDs
      ensures var r := Rbac.ReplaceUserRoles(old(pool.State()), subject, scope, old(roleIDs[..]));
              && (if r.Success? then error.None? && pool.State() == r.value
                  else error == Some(r.error) && pool.State() == old(pool.State()))
              && SliceAfter(ValidID(subject).Success? && ValidScope(scope).Success?, old(roleIDs[..]), roleIDs[..])
    {
      hide ValidID, ValidScope, ValidRoleIDs, FirstRefused, Rbac.ReplaceUserRoles;
      var u, s := ValidID(subject), ValidScope(scope);
      RefusedFirst(pool.State(), subject, scope, roleIDs[..]);
      if u.Failure? {
        return Some(u.error);
      }
      if s.Failure? {
        return Some(s.error);
      }
      ghost var given := roleIDs[..];
      var trimmed := TrimInPlace(roleIDs);
      if !trimmed {
        return Some(InvalidArgument);
      }
      NormalizedTwice(pool.State(), subject, scope, given);
      error := userRoles.Replace(u.value, s.value, roleIDs[..]);
    }

    /** The loop of ReplaceUserRoles: each slot is overwritten with its trimmed id. */
    method TrimInPlace(roleIDs: array<string>) returns (ok: bool)
      modifies roleIDs
      ensures ok == ValidRoleIDs(old(roleIDs[..])).Success?
      ensures ok ==> roleIDs[..] == ValidRoleIDs(old(roleIDs[..])).value
      ensures !ok ==> ValidRoleIDs(old(roleIDs[..])) == Failure(InvalidArgument)
      ensures SliceAfter(true, old(roleIDs[..]), roleIDs[..])
    {
      hide ValidID;
      ghost var given := roleIDs[..];
      var seen: set<string> := {};
      for i := 0 to roleIDs.Length
        invariant ValidRoleIDs(given[..i]) == Success(roleIDs[..i]) && roleIDs[i..] == given[i..]
        invariant forall r :: r in seen <==> r in roleIDs[..i]
      {
        assert given[..i + 1][..i] == given[..i] && roleIDs[i] == roleIDs[i..][0] == given[i];
        var id := ValidID(roleIDs[i]);
        if id.Failure? {
          RefusalStays(given, i + 1);
          assert FirstRefused(given, i) && roleIDs[..] == roleIDs[..i] + roleIDs[i..];
          return false;
        }
        if id.value in seen {
          RefusalStays(given, i + 1);
          assert FirstRefused(given, i) && roleIDs[..] == roleIDs[..i] + roleIDs[i..];
          return false;
        }
        seen := seen + {id.value};
        roleIDs[i] := id.value;
        assert roleIDs[..i + 1] == roleIDs[..i] + [id.value];
        assert roleIDs[i + 1..] == given[i..][1..] == given[i + 1..];
      }
      assert given[..roleIDs.Length] == given && roleIDs[..roleIDs.Length] == roleIDs[..];
      return true;
    }
  }

  lemma RefusedFirst(t: Tables, subject: string, scope: string, roleIDs: seq<string>)
    ensures var u, s, ids := ValidID(subject), ValidScope(scope), ValidRoleIDs(roleIDs);
            && (u.Failure? ==> Rbac.ReplaceUserRoles(t, subject, scope, roleIDs) == Failure(u.error))
            && (u.Success? && s.Failure? ==> Rbac.ReplaceUserRoles(t, subject, scope, roleIDs) == Failure(s.error))
            && (u.Success? && s.Success? && ids.Failure? ==>
                  Rbac.ReplaceUserRoles(t, subject, scope, roleIDs) == Failure(ids.error))
  {
    hide ValidID, ValidScope, ValidRoleIDs;
  }

  /** What the service has normalised, the repository normalises to itself. */
  lemma NormalizedTwice(t: Tables, subject: string, scope: string, roleIDs: seq<string>)
    requires ValidID(subject).Success? && ValidScope(scope).Success? && ValidRoleIDs(roleIDs).Success?
    ensures Rbac.ReplaceUserRoles(t, ValidID(subject).value, ValidScope(scope).value, ValidRoleIDs(roleIDs).value)
            == Rbac.ReplaceUserRoles(t, subject, scope, roleIDs)
  {
    AcceptedRoleIDs(roleIDs);
    AcceptedID(subject);
    TrimIsTrimmed(scope);
    hide ValidID, ValidRoleIDs, Trim, Assignable, RolesReplaced;
  }

  /**
   * The caller's slice after ReplaceUserRoles: untouched when the subject or scope is refused; otherwise its
   * ids are trimmed up to the first refused one, or all of them, whatever happens afterwards.
   */
  ghost predicate SliceAfter(looked: bool, given: seq<string>, now: seq<string>) {
    if !looked then now == given
    else if ValidRoleIDs(given).Success? then now == ValidRoleIDs(given).value
    else exists k: nat :: FirstRefused(given, k) && now == ValidRoleIDs(given[..k]).value + given[k..]
  }

  ghost predicate FirstRefused(given: seq<string>, k: nat) {
    k < |given| && ValidRoleIDs(given[..k]).Success? && ValidRoleIDs(given[..k + 1]).Failure?
  }

  lemma InsertGrant(t: Tables, roleID: string, done: seq<Uuid>, menuID: Uuid)
    ensures MenusReplaced(t, roleID, done + [menuID]).roleMenus ==
            MenusReplaced(t, roleID, done).roleMenus[(roleID, menuID) := true]
  {
    assert Pairs(roleID, done + [menuID]) == Pairs(roleID, done) + {(roleID, menuID)};
  }

  lemma {:induction false} GrantErrorStays(t: Tables, scope: string, menuIDs: seq<Uuid>, k: nat)
    requires k <= |menuIDs| && GrantError(t, scope, menuIDs[..k]).Some?
    ensures GrantError(t, scope, menuIDs) == GrantError(t, scope, menuIDs[..k])
    decreases |menuIDs|
  {
    if k == |menuIDs| {
      assert menuIDs[..k] == menuIDs;
    } else {
      var front := menuIDs[..|menuIDs| - 1];
      assert front[..k] == menuIDs[..k];
      GrantErrorStays(t, scope, front, k);
    }
  }

  predicate Granted(t: Tables, roleID: string, menuID: Uuid) {
    (roleID, menuID) in t.roleMenus && t.roleMenus[(roleID, menuID)]
  }

  predicate Grantable(t: Tables, menuID: Uuid, scope: string) {
    menuID != NIL_UUID && LiveMenu(t, menuID) && t.menus[menuID].enabled && t.menus[menuID].scope == scope
  }

  lemma {:induction false} GrantErrorExact(t: Tables, scope: string, menuIDs: seq<Uuid>)
    ensures GrantError(t, scope, menuIDs).None? <==>
            NoDuplicates(menuIDs) && forall m <- menuIDs :: Grantable(t, m, scope)
  {
    if menuIDs != [] {
      var front, last := menuIDs[..|menuIDs| - 1], menuIDs[|menuIDs| - 1];
      assert menuIDs == front + [last];
      GrantErrorExact(t, scope, front);
      assert (forall m <- menuIDs :: Grantable(t, m, scope))
        <==> (forall m <- front :: Grantable(t, m, scope)) && Grantable(t, last, scope);
      assert NoDuplicates(menuIDs) <==> NoDuplicates(front) && last !in front;
    }
  }

  /**
   * A grant goes through exactly for distinct live enabled menus of the scope of a live enabled role; then
   * the role is granted exactly those menus, every other role's grants are as they were, and nothing else
   * changed.
   */
  lemma {:induction false} GrantExact(t: Tables, roleID: string, menuIDs: seq<Uuid>)
    ensures Rbac.GrantRoleMenus(t, roleID, menuIDs).Success? <==>
              && ValidID(roleID).Success? && LiveRole(t, Trim(roleID)) && t.roles[Trim(roleID)].enabled
              && NoDuplicates(menuIDs) && forall m <- menuIDs :: Grantable(t, m, t.roles[Trim(roleID)].scope)
    ensures Rbac.GrantRoleMenus(t, roleID, menuIDs).Success? ==>
              var t' := Rbac.GrantRoleMenus(t, roleID, menuIDs).value;
              && t' == t.(roleMenus := t'.roleMenus)
              && (forall m :: Granted(t', Trim(roleID), m) <==> m in menuIDs)
              && (forall r, m :: r != Trim(roleID) ==> Granted(t', r, m) == Granted(t, r, m))
  {
    hide Grantable, Trim, Blank, ByteLength;
    if LiveRole(t, Trim(roleID)) {
      GrantErrorExact(t, t.roles[Trim(roleID)].scope, menuIDs);
    }
  }

  // ---- cascades ----------------------------------------------------------------------------

  class RoleRepository {
    const pool: Database

    constructor (pool: Database)
      ensures this.pool == pool
    {
      this.pool := pool;
    }

    /** SoftDelete: the role, then its grants, then its assignments, in one transaction. */
    method SoftDelete(id: string) returns (error: Option<Error>)
      modifies pool
      ensures LiveRole(old(pool.State()), Trim(id)) && !Blank(id) ==>
                error.None? && pool.State() == RoleSoftDeleted(old(pool.State()), Trim(id))
      ensures !(LiveRole(old(pool.State()), Trim(id)) && !Blank(id)) ==>
                error == Some(if Blank(id) then InvalidArgument else NotFound) && pool.State() == old(pool.State())
    {
      hide Blank, Trim;
      if Blank(id) {
        return Some(InvalidArgument);
      }
      var r := Trim(id);
      if r !in pool.roles || pool.roles[r].deleted {
        return Some(NotFound);
      }
      pool.roles := pool.roles[r := pool.roles[r].(deleted := true, enabled := false)];
      pool.roleMenus := map k | k in pool.roleMenus ::
          if k.0 == r && pool.roleMenus[k] then false else pool.roleMenus[k];
      pool.userRoles := map k | k in pool.userRoles ::
          if k.1 == r && pool.userRoles[k] then false else pool.userRoles[k];
      return None;
    }

    /**
     * ReplaceMenus, one transaction: the role must be live and enabled; its grants are marked deleted, then
     * each menu's grant is inserted or revived under the scope trigger. A refusal rolls everything back.
     */
    method ReplaceMenus(id: string, menuIDs: seq<Uuid>) returns (error: Option<Error>)
      modifies pool`roleMenus
      ensures error == ReplaceMenusError(old(pool.State()), id, menuIDs)
      ensures pool.State() ==
              if error.None? then MenusReplaced(old(pool.State()), Trim(id), menuIDs) else old(pool.State())
    {
      hide Blank, Trim, MenusReplaced, TriggerAccepts;
      if Blank(id) {
        return Some(InvalidArgument);
      }
      var roleID := Trim(id);
      for i := 0 to |menuIDs|
        invariant NIL_UUID !in menuIDs[..i] && pool.State() == old(pool.State())
      {
        if menuIDs[i] == NIL_UUID {
          return Some(InvalidArgument);
        }
      }
      assert menuIDs[..|menuIDs|] == menuIDs;
      if roleID !in pool.roles || pool.roles[roleID].deleted || !pool.roles[roleID].enabled {
        return Some(NotFound);
      }
      var grants := InsertGrants(roleID, menuIDs);
      if grants.Failure? {
        return Some(grants.error);
      }
      SameBut(pool.State(), roleID, menuIDs);
      pool.roleMenus := grants.value;
      return None;
    }

    /** The statements of the transaction that write, on the grants as the transaction sees them. */
    method InsertGrants(roleID: string, menuIDs: seq<Uuid>) returns (grants: Result<map<(string, Uuid), bool>, Error>)
      ensures grants == if exists m <- menuIDs :: !TriggerAccepts(pool.State(), roleID, m) then Failure(Conflict)
                        else Success(MenusReplaced(pool.State(), roleID, menuIDs).roleMenus)
    {
      hide TriggerAccepts;
      ghost var t := pool.State();
      var written := map k | k in pool.roleMenus :: pool.roleMenus[k] && k.0 != roleID;
      for i := 0 to |menuIDs|
        invariant written == MenusReplaced(t, roleID, menuIDs[..i]).roleMenus
        invariant forall m <- menuIDs[..i] :: TriggerAccepts(t, roleID, m)
      {
        if !TriggerAccepts(pool.State(), roleID, menuIDs[i]) {
          assert menuIDs[i] in menuIDs;
          return Failure(Conflict);
        }
        InsertGrant(t, roleID, menuIDs[..i], menuIDs[i]);
        assert menuIDs[..i + 1] == menuIDs[..i] + [menuIDs[i]];
        written := written[(roleID, menuIDs[i]) := true];
      }
      assert menuIDs[..|menuIDs|] == menuIDs;
      return Success(written);
    }
  }

  lemma SameBut(t: Tables, roleID: string, menuIDs: seq<Uuid>)
    ensures MenusReplaced(t, roleID, menuIDs) == t.(roleMenus := MenusReplaced(t, roleID, menuIDs).roleMenus)
  {
  }

  /** permission_validate_role_menu_scope: role and menu are live and of one scope. */
  predicate TriggerAccepts(t: Tables, roleID: string, menuID: Uuid) {
    LiveRole(t, roleID) && LiveMenu(t, menuID) && t.roles[roleID].scope == t.menus[menuID].scope
  }

  /** What ReplaceMenus refuses, in the order of its checks. */
  function ReplaceMenusError(t: Tables, id: string, menuIDs: seq<Uuid>): Option<Error> {
    if Blank(id) || NIL_UUID in menuIDs then Some(InvalidArgument)
    else if !LiveRole(t, Trim(id)) || !t.roles[Trim(id)].enabled then Some(NotFound)
    else if exists m <- menuIDs :: !TriggerAccepts(t, Trim(id), m) then Some(Conflict)
    else None
  }

  /** What the service has checked, the repository and its trigger accept. */
  lemma CheckedGrantIsAccepted(t: Tables, roleID: string, menuIDs: seq<Uuid>)
    requires ValidID(roleID).Success? && LiveRole(t, Trim(roleID)) && t.roles[Trim(roleID)].enabled
    requires GrantError(t, t.roles[Trim(roleID)].scope, menuIDs).None?
    ensures ValidID(roleID).value == Trim(roleID)
    ensures Trim(Trim(roleID)) == Trim(roleID)
    ensures ReplaceMenusError(t, Trim(roleID), menuIDs).None?
  {
    TrimIsTrimmed(roleID);
    GrantErrorExact(t, t.roles[Trim(roleID)].scope, menuIDs);
    hide Trim, ByteLength;
  }

  /**
   * Whoever calls it, a replacement the repository accepts keeps every live grant joining a live role and a
   * live menu of one scope: the trigger alone guarantees it.
   */
  lemma TriggerKeepsGrants(t: Tables, id: string, menuIDs: seq<Uuid>)
    requires GrantsJoin(t) && ReplaceMenusError(t, id, menuIDs).None?
    ensures GrantsJoin(MenusReplaced(t, Trim(id), menuIDs))
  {
  }
}
