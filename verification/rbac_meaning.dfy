/** What the role, menu and endpoint calls leave in the tables, and exactly when they succeed, field by field. */
module RbacMeaning {
  import opened Wrappers
  import opened Text
  import opened Sorting
  import opened PolicyModel
  import opened Compile
  import opened Tables
  import opened Rbac
  import opened RbacRepo
  import opened MenuForest
  import opened DecisionMeaning

  // ---- the vocabulary ----------------------------------------------------------------------

  ghost predicate GoodID(id: string) {
    !AllSpace(id) && ByteLength(Trim(id)) <= 80
  }

  ghost predicate GoodNames(code: string, name: string) {
    !AllSpace(code) && ByteLength(Trim(code)) <= 100 && !AllSpace(name) && |Trim(name)| <= 100
  }

  ghost predicate ActiveIn(t: Tables, scope: string) {
    scope in t.catalog && t.catalog[scope]
  }

  ghost predicate GoodScope(t: Tables, scope: string) {
    !AllSpace(scope) && |Trim(scope)| <= 128 && ActiveIn(t, Trim(scope))
  }

  ghost predicate LiveRoleRow(t: Tables, r: string) {
    r in t.roles && !t.roles[r].deleted
  }

  ghost predicate LiveMenuRow(t: Tables, m: Uuid) {
    m in t.menus && !t.menus[m].deleted
  }

  ghost predicate LiveEndpointRow(t: Tables, e: Uuid) {
    e in t.endpoints && !t.endpoints[e].deleted
  }

  ghost predicate RoleCodeFree(t: Tables, id: string, scope: string, code: string) {
    forall r <- t.roles :: r != id && !t.roles[r].deleted && t.roles[r].scope == scope ==> t.roles[r].code != code
  }

  ghost predicate MenuCodeFree(t: Tables, id: Uuid, scope: string, code: string) {
    forall m <- t.menus :: m != id && !t.menus[m].deleted && t.menus[m].scope == scope ==> t.menus[m].code != code
  }

  ghost predicate RouteFree(t: Tables, id: Uuid, scope: string, method_: string, path: string) {
    forall e <- t.endpoints :: e != id && !t.endpoints[e].deleted && t.endpoints[e].scope == scope ==>
      !(t.endpoints[e].method_ == method_ && t.endpoints[e].path == path)
  }

  lemma Validations(id: string, scope: string, code: string, name: string)
    ensures ValidID(id).Success? <==> GoodID(id)
    ensures ValidID(id).Success? ==> ValidID(id).value == Trim(id)
    ensures ValidScope(scope).Success? <==> !AllSpace(scope) && |Trim(scope)| <= 128
    ensures ValidScope(scope).Success? ==> ValidScope(scope).value == Trim(scope)
    ensures ValidCodeAndName(code, name).Success? <==> GoodNames(code, name)
    ensures ValidCodeAndName(code, name).Success? ==> ValidCodeAndName(code, name).value == (Trim(code), Trim(name))
  {
    BlankIsSpace(id);
    BlankIsSpace(scope);
    BlankIsSpace(code);
    BlankIsSpace(name);
    hide Trim, Blank, AllSpace, ByteLength;
  }

  // ---- roles -------------------------------------------------------------------------------

  lemma {:induction false} CreateRoleExactly(
    t: Tables, id: string, scope: string, code: string, name: string, description: string)
    ensures CreateRole(t, id, scope, code, name, description).Success? <==>
              && GoodScope(t, scope) && GoodNames(code, name)
              && id !in t.roles && RoleCodeFree(t, id, Trim(scope), Trim(code))
    ensures CreateRole(t, id, scope, code, name, description).Success? ==>
              CreateRole(t, id, scope, code, name, description).value ==
              t.(roles := t.roles[id := RoleRow(Trim(scope), Trim(code), Trim(name), Trim(description), true, false)])
  {
    Validations(id, scope, code, name);
    hide Trim, AllSpace, ByteLength, ValidScope, ValidCodeAndName, ValidID;
  }

  lemma {:induction false} UpdateRoleExactly(
    t: Tables, id: string, code: string, name: string, description: string, enabled: bool)
    ensures UpdateRole(t, id, code, name, description, enabled).Success? <==>
              && GoodID(id) && LiveRoleRow(t, Trim(id)) && ActiveIn(t, t.roles[Trim(id)].scope) && GoodNames(code, name)
              && RoleCodeFree(t, Trim(id), t.roles[Trim(id)].scope, Trim(code))
    ensures UpdateRole(t, id, code, name, description, enabled).Success? ==>
              Trim(id) in t.roles
              && UpdateRole(t, id, code, name, description, enabled).value ==
                 t.(roles := t.roles[Trim(id) := t.roles[Trim(id)].(
                   code := Trim(code), name := Trim(name), description := Trim(description), enabled := enabled)])
  {
    Validations(id, "", code, name);
    hide Trim, AllSpace, ByteLength, ValidCodeAndName, ValidID;
  }

  /** Deleting a role marks it, all its grants and all its assignments deleted, and nothing else. */
  lemma {:induction false} DeleteRoleExactly(t: Tables, id: string)
    ensures DeleteRole(t, id).Success? <==> GoodID(id) && LiveRoleRow(t, Trim(id))
    ensures DeleteRole(t, id).Success? ==>
              var t' := DeleteRole(t, id).value;
              && t' == t.(roles := t'.roles, roleMenus := t'.roleMenus, userRoles := t'.userRoles)
              && Trim(id) in t.roles
              && t'.roles == t.roles[Trim(id) := t.roles[Trim(id)].(deleted := true, enabled := false)]
              && t'.roleMenus.Keys == t.roleMenus.Keys && t'.userRoles.Keys == t.userRoles.Keys
              && (forall k <- t.roleMenus :: t'.roleMenus[k] == (t.roleMenus[k] && k.0 != Trim(id)))
              && (forall k <- t.userRoles :: t'.userRoles[k] == (t.userRoles[k] && k.1 != Trim(id)))
  {
    Validations(id, "", "", "");
    hide Trim, AllSpace, ByteLength, ValidID;
  }

  // ---- menus -------------------------------------------------------------------------------

  /** A small letter becomes its capital, dotless i and long s become I and S, every other character stays. */
  ghost predicate Capitalised(s: string, u: string) {
    |u| == |s| && forall i :: 0 <= i < |s| ==>
      if 'a' <= s[i] <= 'z' then u[i] as int == s[i] as int - 32
      else if s[i] as int == 0x131 then u[i] == 'I'
      else if s[i] as int == 0x17F then u[i] == 'S'
      else u[i] == s[i]
  }

  lemma {:induction false} UpperCapitalises(s: string)
    ensures Capitalised(s, Upper(s))
  {
    if s != [] {
      UpperCapitalises(s[..|s| - 1]);
    }
  }

  /** The API metadata a menu node and a button may have. */
  ghost predicate GoodMetadata(row: MenuRow) {
    var path, m := Trim(row.apiPath), Upper(Trim(row.httpMethod));
    if row.menuType.ButtonNode? then
      && row.parent.Some? && path != ""
      && m in {"", "GET", "POST", "PUT", "PATCH", "DELETE", "HEAD", "OPTIONS"}
    else path == "" && m == ""
  }

  /** A parent that is a live, enabled menu node of the scope, if there is a parent. */
  ghost predicate GoodParent(t: Tables, parent: Option<Uuid>, scope: string) {
    parent.Some? ==>
      && LiveMenuRow(t, parent.value) && t.menus[parent.value].enabled
      && t.menus[parent.value].menuType.MenuNode? && t.menus[parent.value].scope == scope
  }

  /** The row as it is stored: names trimmed, metadata normalised, GET where a button names no method. */
  ghost predicate StoredAs(row: MenuRow, given: MenuRow, scope: string) {
    row == given.(
      scope := scope, code := Trim(given.code), name := Trim(given.name), apiPath := Trim(given.apiPath),
      httpMethod := if given.menuType.ButtonNode? && Upper(Trim(given.httpMethod)) == "" then "GET"
                    else Upper(Trim(given.httpMethod)),
      enabled := row.enabled, deleted := row.deleted)
  }

  lemma ValidMenuExactly(row: MenuRow)
    ensures ValidMenu(row).Success? <==> GoodNames(row.code, row.name) && GoodMetadata(row)
    ensures ValidMenu(row).Success? ==>
              StoredAs(ValidMenu(row).value, row, row.scope)
              && ValidMenu(row).value.enabled == row.enabled && ValidMenu(row).value.deleted == row.deleted
  {
    Validations("", "", row.code, row.name);
    hide Trim, Upper, AllSpace, ByteLength, ValidCodeAndName;
  }

  lemma {:induction false} CreateMenuExactly(t: Tables, id: Uuid, row: MenuRow)
    ensures CreateMenu(t, id, row).Success? <==>
              && GoodScope(t, row.scope) && GoodNames(row.code, row.name) && GoodMetadata(row)
              && GoodParent(t, row.parent, Trim(row.scope)) && row.sort >= 0
              && id !in t.menus && MenuCodeFree(t, id, Trim(row.scope), Trim(row.code))
    ensures CreateMenu(t, id, row).Success? ==>
              var t' := CreateMenu(t, id, row).value;
              && id in t'.menus && t' == t.(menus := t.menus[id := t'.menus[id]])
              && StoredAs(t'.menus[id], row, Trim(row.scope)) && t'.menus[id].enabled && !t'.menus[id].deleted
  {
    Validations("", row.scope, row.code, row.name);
    ValidMenuExactly(row.(scope := Trim(row.scope)));
    hide Trim, AllSpace, ByteLength, ValidMenu, Upper, ValidScope, ValidCodeAndName;
  }

  lemma {:induction false} UpdateMenuExactly(t: Tables, id: Uuid, row: MenuRow)
    ensures UpdateMenu(t, id, row).Success? <==>
              && id != 0 && LiveMenuRow(t, id) && ActiveIn(t, t.menus[id].scope) && GoodNames(row.code, row.name)
              && GoodMetadata(row.(menuType := t.menus[id].menuType, parent := t.menus[id].parent)) && row.sort >= 0
              && MenuCodeFree(t, id, t.menus[id].scope, Trim(row.code))
    ensures UpdateMenu(t, id, row).Success? ==>
              var t' := UpdateMenu(t, id, row).value;
              && id in t.menus && id in t'.menus && t' == t.(menus := t.menus[id := t'.menus[id]])
              && StoredAs(t'.menus[id], row.(menuType := t.menus[id].menuType, parent := t.menus[id].parent),
                          t.menus[id].scope)
              && t'.menus[id].enabled == row.enabled && !t'.menus[id].deleted
  {
    hide Trim, AllSpace, ByteLength, ValidMenu, Upper, Blank;
    if LiveMenuRow(t, id) {
      var stored := t.menus[id];
      ValidMenuExactly(row.(scope := stored.scope, parent := stored.parent, menuType := stored.menuType));
    }
  }

  /** A menu can be deleted exactly while no live row names it as parent; its grants go with it. */
  lemma {:induction false} DeleteMenuExactly(t: Tables, id: Uuid)
    ensures DeleteMenu(t, id).Success? <==>
              && id != 0 && LiveMenuRow(t, id)
              && forall m <- t.menus :: !t.menus[m].deleted ==> t.menus[m].parent != Some(id)
    ensures DeleteMenu(t, id).Success? ==>
              var t' := DeleteMenu(t, id).value;
              && t' == t.(menus := t'.menus, roleMenus := t'.roleMenus) && id in t.menus
              && t'.menus == t.menus[id := t.menus[id].(deleted := true, enabled := false)]
              && t'.roleMenus.Keys == t.roleMenus.Keys
              && (forall k <- t.roleMenus :: t'.roleMenus[k] == (t.roleMenus[k] && k.1 != id))
  {
  }

  // ---- endpoints ---------------------------------------------------------------------------

  ghost predicate GoodEndpoint(row: EndpointRow) {
    var controller, m, path := Trim(row.controller), Upper(Trim(row.method_)), Trim(row.path);
    && 0 < |controller| <= 200
    && m in {"GET", "POST", "PUT", "PATCH", "DELETE", "HEAD", "OPTIONS", "TRACE"}
    && 0 < |path| <= 500 && path[0] == '/'
  }

  ghost predicate EndpointStoredAs(row: EndpointRow, given: EndpointRow, scope: string) {
    row == EndpointRow(scope, Trim(given.controller), Upper(Trim(given.method_)), Trim(given.path), Trim(given.summary),
                       given.enabled, false)
  }

  lemma ValidEndpointExactly(row: EndpointRow)
    ensures ValidEndpoint(row).Success? <==> GoodEndpoint(row)
    ensures ValidEndpoint(row).Success? ==>
              EndpointStoredAs(ValidEndpoint(row).value.(deleted := false), row, row.scope)
  {
    hide Trim, Upper;
  }

  lemma {:induction false} CreateEndpointExactly(t: Tables, id: Uuid, row: EndpointRow)
    ensures CreateEndpoint(t, id, row).Success? <==>
              && GoodScope(t, row.scope) && GoodEndpoint(row) && id !in t.endpoints
              && RouteFree(t, id, Trim(row.scope), Upper(Trim(row.method_)), Trim(row.path))
    ensures CreateEndpoint(t, id, row).Success? ==>
              var t' := CreateEndpoint(t, id, row).value;
              && id in t'.endpoints && t' == t.(endpoints := t.endpoints[id := t'.endpoints[id]])
              && EndpointStoredAs(t'.endpoints[id], row, Trim(row.scope))
  {
    Validations("", row.scope, "", "");
    ValidEndpointExactly(row.(scope := Trim(row.scope)));
    hide Trim, Upper, AllSpace, ValidScope, ValidEndpoint;
  }

  /** An update may repeat the endpoint's scope or leave it blank, but not change it. */
  lemma {:induction false} UpdateEndpointExactly(t: Tables, id: Uuid, row: EndpointRow)
    requires id in t.endpoints ==> Trim(t.endpoints[id].scope) == t.endpoints[id].scope
    ensures UpdateEndpoint(t, id, row).Success? <==>
              && id != 0 && LiveEndpointRow(t, id)
              && var scope := t.endpoints[id].scope;
                 && 0 < |scope| <= 128 && (AllSpace(row.scope) || Trim(row.scope) == scope) && ActiveIn(t, scope)
                 && GoodEndpoint(row) && RouteFree(t, id, scope, Upper(Trim(row.method_)), Trim(row.path))
    ensures UpdateEndpoint(t, id, row).Success? ==>
              var t' := UpdateEndpoint(t, id, row).value;
              && id in t.endpoints && id in t'.endpoints && t' == t.(endpoints := t.endpoints[id := t'.endpoints[id]])
              && EndpointStoredAs(t'.endpoints[id], row, t.endpoints[id].scope)
  {
    hide Trim, Upper, AllSpace, ValidScope, ValidEndpoint, RouteTaken, RouteFree, Blank;
    if id in t.endpoints {
      var stored := t.endpoints[id].scope;
      ScopeRepeated(stored, row.scope);
      ValidEndpointExactly(row.(scope := stored));
      RouteFreeExactly(t, id, stored, Upper(Trim(row.method_)), Trim(row.path));
      StoredRoute(ValidEndpoint(row.(scope := stored)), row.(scope := stored));
    }
  }

  lemma RouteFreeExactly(t: Tables, id: Uuid, scope: string, method_: string, path: string)
    ensures RouteTaken(t, id, scope, method_, path) <==> !RouteFree(t, id, scope, method_, path)
  {
  }

  lemma StoredRoute(v: Result<EndpointRow, Error>, row: EndpointRow)
    requires v.Success? ==> EndpointStoredAs(v.value.(deleted := false), row, row.scope)
    ensures v.Success? ==> v.value.method_ == Upper(Trim(row.method_)) && v.value.path == Trim(row.path)
    ensures v.Success? ==> EndpointStoredAs(v.value.(deleted := false), row.(scope := ""), row.scope)
  {
    hide Trim, Upper;
  }

  /** The scope an update names, against the stored one. */
  lemma ScopeRepeated(stored: string, given: string)
    requires Trim(stored) == stored
    ensures var s := ValidScope(if Blank(given) then stored else Trim(given));
            s.Success? && s.value == stored <==> 0 < |stored| <= 128 && (AllSpace(given) || Trim(given) == stored)
    ensures Blank(given) <==> AllSpace(given)
  {
    BlankIsSpace(given);
    TrimIsTrimmed(given);
    hide Trim, AllSpace;
  }

  lemma {:induction false} DeleteEndpointExactly(t: Tables, id: Uuid)
    ensures DeleteEndpoint(t, id).Success? <==> id != 0 && LiveEndpointRow(t, id)
    ensures DeleteEndpoint(t, id).Success? ==>
              id in t.endpoints
              && DeleteEndpoint(t, id).value ==
                 t.(endpoints := t.endpoints[id := t.endpoints[id].(enabled := false, deleted := true)])
  {
  }

  // ---- codes over runs ---------------------------------------------------------------------

  /** No two live roles, and no two live menus, of a scope share a code. */
  ghost predicate CodesUnique(t: Tables) {
    && (forall r <- t.roles, q <- t.roles | r != q && !t.roles[r].deleted && !t.roles[q].deleted
          && t.roles[r].scope == t.roles[q].scope :: t.roles[r].code != t.roles[q].code)
    && (forall m <- t.menus, n <- t.menus | m != n && !t.menus[m].deleted && !t.menus[n].deleted
          && t.menus[m].scope == t.menus[n].scope :: t.menus[m].code != t.menus[n].code)
  }

  lemma RoleWriteKeepsCodes(t: Tables, t': Tables, id: string)
    requires CodesUnique(t) && id in t'.roles && t'.roles == t.roles[id := t'.roles[id]] && t'.menus == t.menus
    requires !t'.roles[id].deleted ==> RoleCodeFree(t, id, t'.roles[id].scope, t'.roles[id].code)
    ensures CodesUnique(t')
  {
  }

  lemma MenuWriteKeepsCodes(t: Tables, t': Tables, id: Uuid)
    requires CodesUnique(t) && id in t'.menus && t'.menus == t.menus[id := t'.menus[id]] && t'.roles == t.roles
    requires !t'.menus[id].deleted ==> MenuCodeFree(t, id, t'.menus[id].scope, t'.menus[id].code)
    ensures CodesUnique(t')
  {
  }

  /** Every transaction keeps the codes of live roles and menus unique in their scope. */
  lemma StepKeepsCodes(t: Tables, step: Step)
    requires CodesUnique(t)
    ensures CodesUnique(Apply(t, step))
  {
    hide CodesUnique, ValidMenu, ValidID, ValidScope, ValidCodeAndName, ValidEndpoint, RoleCodeTaken, MenuCodeTaken,
      RouteTaken, CreateRole, UpdateRole, DeleteRole, CreateMenu, UpdateMenu, DeleteMenu, Trim, GoodNames,
      GoodMetadata, Upper;
    var t' := Apply(t, step);
    if Attempt(t, step).Success? {
      match step
      case RoleCreated(id, scope, code, name, description) =>
        CreateRoleExactly(t, id, scope, code, name, description);
        RoleWriteKeepsCodes(t, t', id);
      case RoleUpdated(id, code, name, description, enabled) =>
        UpdateRoleExactly(t, id, code, name, description, enabled);
        RoleWriteKeepsCodes(t, t', Trim(id));
      case RoleDeleted(id) =>
        DeleteRoleExactly(t, id);
        RoleWriteKeepsCodes(t, t', Trim(id));
      case MenuCreated(menu, row) =>
        CreateMenuExactly(t, menu, row);
        MenuWriteKeepsCodes(t, t', menu);
      case MenuUpdated(menu, row) =>
        UpdateMenuExactly(t, menu, row);
        MenuWriteKeepsCodes(t, t', menu);
      case MenuDeleted(menu) =>
        DeleteMenuExactly(t, menu);
        MenuWriteKeepsCodes(t, t', menu);
      case _ => SameCodes(t, t');
    }
  }

  lemma SameCodes(t: Tables, t': Tables)
    requires CodesUnique(t) && t'.roles == t.roles && t'.menus == t.menus
    ensures CodesUnique(t')
  {
  }

  lemma {:induction false} RunKeepsCodes(t: Tables, steps: seq<Step>)
    requires CodesUnique(t)
    ensures CodesUnique(Run(t, steps))
  {
    hide CodesUnique, Apply;
    if steps != [] {
      RunKeepsCodes(t, steps[..|steps| - 1]);
      StepKeepsCodes(Run(t, steps[..|steps| - 1]), steps[|steps| - 1]);
    }
  }

  // ---- assignments and their order ---------------------------------------------------------

  /** Distinct, well-formed role ids of live, enabled roles of the scope. */
  ghost predicate RolesNamed(t: Tables, scope: string, roleIDs: seq<string>) {
    && (forall r <- roleIDs :: GoodID(r) && Trim(r) in t.roles && !t.roles[Trim(r)].deleted
                               && t.roles[Trim(r)].enabled && t.roles[Trim(r)].scope == scope)
    && (forall i, j :: 0 <= i < j < |roleIDs| ==> Trim(roleIDs[i]) != Trim(roleIDs[j]))
  }

  lemma ReplaceAcceptsExactly(t: Tables, subject: string, scope: string, roleIDs: seq<string>)
    ensures ReplaceUserRoles(t, subject, scope, roleIDs).Success? <==>
              GoodID(subject) && !AllSpace(scope) && |Trim(scope)| <= 128 && RolesNamed(t, Trim(scope), roleIDs)
    ensures ReplaceUserRoles(t, subject, scope, roleIDs).Success? ==>
              && ValidRoleIDs(roleIDs).Success?
              && ReplaceUserRoles(t, subject, scope, roleIDs).value ==
                 RolesReplaced(t, Trim(subject), Trim(scope), ValidRoleIDs(roleIDs).value)
              && forall r :: r in ValidRoleIDs(roleIDs).value <==> exists x <- roleIDs :: Trim(x) == r
  {
    hide Trim, AllSpace, ByteLength, ValidID, ValidScope, ValidRoleIDs, RolesReplaced, GoodID;
    Validations(subject, scope, "", "");
    ValidRoleIDsExactly(roleIDs);
    if ValidRoleIDs(roleIDs).Success? {
      SameTrimmed(roleIDs, ValidRoleIDs(roleIDs).value);
    }
  }

  lemma SameTrimmed(roleIDs: seq<string>, ids: seq<string>)
    requires |ids| == |roleIDs| && forall i :: 0 <= i < |ids| ==> ids[i] == Trim(roleIDs[i])
    ensures forall r :: r in ids <==> exists x <- roleIDs :: Trim(x) == r
    ensures forall x <- roleIDs :: Trim(x) in ids
  {
    hide Trim;
    forall r | r in ids ensures exists x <- roleIDs :: Trim(x) == r {
      var i :| 0 <= i < |ids| && ids[i] == r;
      assert roleIDs[i] in roleIDs;
    }
    forall x | x in roleIDs ensures Trim(x) in ids {
      var i :| 0 <= i < |roleIDs| && roleIDs[i] == x;
      assert ids[i] == Trim(x);
    }
  }

  lemma ReplacedHeld(t: Tables, subject: string, scope: string, ids: seq<string>)
    requires forall r <- ids :: r in t.roles && !t.roles[r].deleted && t.roles[r].enabled && t.roles[r].scope == scope
    ensures var t' := RolesReplaced(t, subject, scope, ids);
            && (forall r :: RoleHeld(t', subject, scope, r) <==> r in ids)
            && (forall u, s, r :: u != subject || s != scope ==> RoleHeld(t', u, s, r) == RoleHeld(t, u, s, r))
  {
  }

  /**
   * A replacement goes through exactly when every named role is live, enabled and of the scope; afterwards the
   * subject holds exactly the named roles there, and whatever anybody else holds, or the subject elsewhere, stays.
   */
  lemma {:induction false} ReplaceMeaning(t: Tables, subject: string, scope: string, roleIDs: seq<string>)
    ensures ReplaceUserRoles(t, subject, scope, roleIDs).Success? <==>
              GoodID(subject) && !AllSpace(scope) && |Trim(scope)| <= 128 && RolesNamed(t, Trim(scope), roleIDs)
    ensures ReplaceUserRoles(t, subject, scope, roleIDs).Success? ==>
              var t' := ReplaceUserRoles(t, subject, scope, roleIDs).value;
              && (forall r :: RoleHeld(t', Trim(subject), Trim(scope), r) <==> exists x <- roleIDs :: Trim(x) == r)
              && (forall u, s, r ::
                    u != Trim(subject) || s != Trim(scope) ==> RoleHeld(t', u, s, r) == RoleHeld(t, u, s, r))
  {
    hide Trim, AllSpace, ByteLength, ValidRoleIDs, RolesReplaced, ReplaceUserRoles, RoleHeld, GoodID;
    ReplaceAcceptsExactly(t, subject, scope, roleIDs);
    if ReplaceUserRoles(t, subject, scope, roleIDs).Success? {
      ReplacedHeld(t, Trim(subject), Trim(scope), ValidRoleIDs(roleIDs).value);
    }
  }

  lemma {:induction false} ValidRoleIDsExactly(roleIDs: seq<string>)
    ensures ValidRoleIDs(roleIDs).Success? <==>
              (forall r <- roleIDs :: GoodID(r))
              && forall i, j :: 0 <= i < j < |roleIDs| ==> Trim(roleIDs[i]) != Trim(roleIDs[j])
    ensures ValidRoleIDs(roleIDs).Success? ==>
              |ValidRoleIDs(roleIDs).value| == |roleIDs|
              && forall i :: 0 <= i < |roleIDs| ==> ValidRoleIDs(roleIDs).value[i] == Trim(roleIDs[i])
  {
    hide Trim, AllSpace, ByteLength, ValidID;
    if roleIDs != [] {
      var front, last := roleIDs[..|roleIDs| - 1], roleIDs[|roleIDs| - 1];
      ValidRoleIDsExactly(front);
      Validations(last, "", "", "");
      assert roleIDs == front + [last];
      assert forall r :: r in roleIDs <==> r in front || r == last;
    }
  }

  /** One listed role before another: by name, then by id, in dictionary order. */
  ghost predicate ListedBefore(t: Tables, a: string, b: string) {
    && a in t.roles && b in t.roles
    && (Earlier(t.roles[a].name, t.roles[b].name) || (t.roles[a].name == t.roles[b].name && Earlier(a, b)))
  }

  /** ListRoleIDs goes by role name, then by id. */
  lemma {:induction false} RolesListedByName(t: Tables, subject: string, scope: string)
    requires RoleIDsOf(t, subject, scope).Success?
    ensures var ids := RoleIDsOf(t, subject, scope).value;
            forall i, j :: 0 <= i < j < |ids| ==> ListedBefore(t, ids[i], ids[j])
  {
    hide ValidID, ValidScope, HeldRoles, Earlier, NamedLe, ListedBefore;
    var u, s := ValidID(subject).value, ValidScope(scope).value;
    NamedOrder();
    var keys := SortSet(HeldRoles(t, u, s), NamedLe);
    var ids := RoleIDsOf(t, subject, scope).value;
    assert ids == SecondOf(keys);
    SortSetOnce(HeldRoles(t, u, s), NamedLe);
    forall i, j | 0 <= i < j < |ids| ensures ListedBefore(t, ids[i], ids[j]) {
      assert keys[i] in keys && keys[j] in keys;
      HeldInOrder(t, u, s, keys[i], keys[j]);
    }
  }

  lemma HeldInOrder(t: Tables, u: string, s: string, a: NamedKey, b: NamedKey)
    requires a in HeldRoles(t, u, s) && b in HeldRoles(t, u, s) && a != b && NamedLe(a, b)
    ensures ListedBefore(t, a.1, b.1)
  {
    hide Earlier, LexLe;
    EarlierIs(a.0, b.0);
    EarlierIs(a.1, b.1);
  }

  lemma EarlierIs(a: string, b: string)
    ensures Earlier(a, b) <==> a != b && LexLe(a, b)
  {
    LexMeaning(a, b);
  }

  /** The list of menus rises: by sort order, then name, then id. */
  lemma {:induction false} MenusListedRising(list: seq<Menu>)
    requires InOrder(list)
    ensures forall i, j :: 0 <= i < j < |list| ==>
              var a, b := list[i], list[j];
              || a.row.sort < b.row.sort
              || (a.row.sort == b.row.sort && Earlier(a.row.name, b.row.name))
              || (a.row.sort == b.row.sort && a.row.name == b.row.name && a.id < b.id)
  {
    hide LexLe, Earlier;
    forall i, j | 0 <= i < j < |list|
      ensures var a, b := list[i], list[j];
              || a.row.sort < b.row.sort
              || (a.row.sort == b.row.sort && Earlier(a.row.name, b.row.name))
              || (a.row.sort == b.row.sort && a.row.name == b.row.name && a.id < b.id)
    {
      assert Before(list[i], list[j]);
      EarlierIs(list[i].row.name, list[j].row.name);
    }
  }

  // ---- steps -------------------------------------------------------------------------------

  /** Each step of a run is the service call of its name. */
  lemma StepsAreCalls(
    t: Tables, r: string, s: string, code: string, name: string, text: string, on: bool, m: Uuid, ids: seq<string>,
    menus: seq<Uuid>, menu: MenuRow, endpoint: EndpointRow)
    ensures Attempt(t, RoleCreated(r, s, code, name, text)) == CreateRole(t, r, s, code, name, text)
    ensures Attempt(t, RoleUpdated(r, code, name, text, on)) == UpdateRole(t, r, code, name, text, on)
    ensures Attempt(t, RoleDeleted(r)) == DeleteRole(t, r)
    ensures Attempt(t, MenusGranted(r, menus)) == GrantRoleMenus(t, r, menus)
    ensures Attempt(t, RolesAssigned(r, s, ids)) == ReplaceUserRoles(t, r, s, ids)
    ensures Attempt(t, MenuCreated(m, menu)) == CreateMenu(t, m, menu)
    ensures Attempt(t, MenuUpdated(m, menu)) == UpdateMenu(t, m, menu)
    ensures Attempt(t, MenuDeleted(m)) == DeleteMenu(t, m)
    ensures Attempt(t, EndpointCreated(m, endpoint)) == CreateEndpoint(t, m, endpoint)
    ensures Attempt(t, EndpointUpdated(m, endpoint)) == UpdateEndpoint(t, m, endpoint)
    ensures Attempt(t, EndpointDeleted(m)) == DeleteEndpoint(t, m)
    ensures Apply(t, CatalogChanged(s, on)) == t.(catalog := t.catalog[s := on])
    ensures Apply(t, CatalogDeleted(s)) == t.(catalog := t.catalog - {s})
  {
    hide CreateRole, UpdateRole, DeleteRole, GrantRoleMenus, ReplaceUserRoles, CreateMenu, UpdateMenu, DeleteMenu,
      CreateEndpoint, UpdateEndpoint, DeleteEndpoint;
  }
}
