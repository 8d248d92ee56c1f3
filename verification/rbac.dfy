/** Roles, menus, grants, assignments and endpoints: each service call as one serial transaction. */
module Rbac {
  import opened Wrappers
  import opened Text
  import opened Sorting
  import opened PolicyModel
  import opened Tables

  // ---- shared validation -------------------------------------------------------------------

  const MAX_SCOPE := 128
  const MAX_ID := 80

  /** validateServiceResource. */
  function ValidScope(scope: string): Result<string, Error> {
    if Blank(scope) || |Trim(scope)| > MAX_SCOPE then Failure(InvalidArgument) else Success(Trim(scope))
  }

  /** validateID, and the subject check of normalizeUserRoleScope. */
  function ValidID(id: string): Result<string, Error> {
    if Blank(id) || ByteLength(Trim(id)) > MAX_ID then Failure(InvalidArgument) else Success(Trim(id))
  }

  /** validateCodeAndName. */
  function ValidCodeAndName(code: string, name: string): Result<(string, string), Error> {
    if Blank(code) || ByteLength(Trim(code)) > 100 || Blank(name) || |Trim(name)| > 100 then Failure(InvalidArgument)
    else Success((Trim(code), Trim(name)))
  }

  /** ensureServiceResource / ensureScope. */
  function ScopeError(t: Tables, scope: string): Option<Error> {
    if scope !in t.catalog then Some(NotFound) else if !t.catalog[scope] then Some(Conflict) else None
  }

  /** strings.ToUpper as far as it can produce an HTTP method name. */
  function Upper(s: string): string {
    if s == [] then [] else Upper(s[..|s| - 1]) + [UpperChar(s[|s| - 1])]
  }

  function UpperChar(c: char): char {
    if 'a' <= c <= 'z' then c - 'a' + 'A' else if c == '\U{0131}' then 'I' else if c == '\U{017F}' then 'S' else c
  }

  predicate MenuMethod(m: string) {
    m in {"GET", "POST", "PUT", "PATCH", "DELETE", "HEAD", "OPTIONS"}
  }

  // ---- roles -------------------------------------------------------------------------------

  predicate RoleCodeTaken(t: Tables, id: string, scope: string, code: string) {
    exists r <- t.roles :: r != id && !t.roles[r].deleted && t.roles[r].scope == scope && t.roles[r].code == code
  }

  /** CreateRole; `id` is the generated role id. */
  function CreateRole(t: Tables, id: string, scope: string, code: string, name: string, description: string)
    : Result<Tables, Error>
  {
    var s, cn := ValidScope(scope), ValidCodeAndName(code, name);
    if s.Failure? then Failure(s.error)
    else if ScopeError(t, s.value).Some? then Failure(ScopeError(t, s.value).value)
    else if cn.Failure? then Failure(cn.error)
    else if id in t.roles || RoleCodeTaken(t, id, s.value, cn.value.0) then Failure(AlreadyExists)
    else Success(t.(roles := t.roles[id := RoleRow(s.value, cn.value.0, cn.value.1, Trim(description), true, false)]))
  }

  function UpdateRole(t: Tables, id: string, code: string, name: string, description: string, enabled: bool)
    : Result<Tables, Error>
  {
    var i, cn := ValidID(id), ValidCodeAndName(code, name);
    if i.Failure? then Failure(i.error)
    else if !LiveRole(t, i.value) then Failure(NotFound)
    else
      var row := t.roles[i.value];
      if ScopeError(t, row.scope).Some? then Failure(ScopeError(t, row.scope).value)
      else if cn.Failure? then Failure(cn.error)
      else if RoleCodeTaken(t, i.value, row.scope, cn.value.0) then Failure(AlreadyExists)
      else
        var updated := RoleRow(row.scope, cn.value.0, cn.value.1, Trim(description), enabled, false);
        Success(t.(roles := t.roles[i.value := updated]))
  }

  /** DeleteRole: the role, its grants and its assignments are marked deleted together. */
  function DeleteRole(t: Tables, id: string): Result<Tables, Error> {
    var i := ValidID(id);
    if i.Failure? then Failure(i.error)
    else if !LiveRole(t, i.value) then Failure(NotFound)
    else Success(RoleSoftDeleted(t, i.value))
  }

  function RoleSoftDeleted(t: Tables, id: string): Tables
    requires id in t.roles
  {
    t.(roles := t.roles[id := t.roles[id].(deleted := true, enabled := false)],
       roleMenus := map k | k in t.roleMenus :: t.roleMenus[k] && k.0 != id,
       userRoles := map k | k in t.userRoles :: t.userRoles[k] && k.1 != id)
  }

  // ---- grants ------------------------------------------------------------------------------

  /** The first failure while GrantRoleMenus checks its menus one by one. */
  function GrantError(t: Tables, scope: string, menuIDs: seq<Uuid>): Option<Error> {
    if menuIDs == [] then None
    else
      var front, last := menuIDs[..|menuIDs| - 1], menuIDs[|menuIDs| - 1];
      var earlier := GrantError(t, scope, front);
      if earlier.Some? then earlier
      else if last == NIL_UUID || last in front then Some(InvalidArgument)
      else if !LiveMenu(t, last) then Some(NotFound)
      else if !t.menus[last].enabled || t.menus[last].scope != scope then Some(Conflict)
      else None
  }

  /** GrantRoleMenus with ReplaceMenus: old grants are marked deleted, requested ones inserted or revived. */
  function GrantRoleMenus(t: Tables, roleID: string, menuIDs: seq<Uuid>): Result<Tables, Error> {
    var i := ValidID(roleID);
    if i.Failure? then Failure(i.error)
    else if !LiveRole(t, i.value) then Failure(NotFound)
    else if !t.roles[i.value].enabled then Failure(Conflict)
    else
      var e := GrantError(t, t.roles[i.value].scope, menuIDs);
      if e.Some? then Failure(e.value) else Success(MenusReplaced(t, i.value, menuIDs))
  }

  function MenusReplaced(t: Tables, roleID: string, menuIDs: seq<Uuid>): Tables {
    t.(roleMenus :=
      map k | k in t.roleMenus.Keys + Pairs(roleID, menuIDs) ::
        if k.0 == roleID then k.1 in menuIDs else k in t.roleMenus && t.roleMenus[k])
  }

  function Pairs(roleID: string, menuIDs: seq<Uuid>): set<(string, Uuid)> {
    set m | m in menuIDs :: (roleID, m)
  }

  // ---- assignments -------------------------------------------------------------------------

  /** normalizeRoleIDs. */
  function ValidRoleIDs(roleIDs: seq<string>): Result<seq<string>, Error> {
    if roleIDs == [] then Success([])
    else
      var front, last := ValidRoleIDs(roleIDs[..|roleIDs| - 1]), ValidID(roleIDs[|roleIDs| - 1]);
      if front.Failure? then front
      else if last.Failure? then Failure(last.error)
      else if last.value in front.value then Failure(InvalidArgument)
      else Success(front.value + [last.value])
  }

  predicate Assignable(t: Tables, roleID: string, scope: string) {
    LiveRole(t, roleID) && t.roles[roleID].enabled && t.roles[roleID].scope == scope
  }

  /** ReplaceUserRoles: every role is checked before anything is written. */
  function ReplaceUserRoles(t: Tables, subject: string, scope: string, roleIDs: seq<string>): Result<Tables, Error> {
    var u, s, ids := ValidID(subject), ValidScope(scope), ValidRoleIDs(roleIDs);
    if u.Failure? then Failure(u.error)
    else if s.Failure? then Failure(s.error)
    else if ids.Failure? then Failure(ids.error)
    else if exists r <- ids.value :: !Assignable(t, r, s.value) then Failure(Conflict)
    else Success(RolesReplaced(t, u.value, s.value, ids.value))
  }

  predicate InScope(t: Tables, roleID: string, scope: string) {
    roleID in t.roles && t.roles[roleID].scope == scope
  }

  function RolesReplaced(t: Tables, subject: string, scope: string, roleIDs: seq<string>): Tables {
    t.(userRoles :=
      map k | k in t.userRoles.Keys + Assignments(subject, roleIDs) ::
        if k in Assignments(subject, roleIDs) then true
        else t.userRoles[k] && !(k.0 == subject && InScope(t, k.1, scope)))
  }

  function Assignments(subject: string, roleIDs: seq<string>): set<(string, string)> {
    set r | r in roleIDs :: (subject, r)
  }

  type NamedKey = (string, string)

  /** ORDER BY ro.name, ro.id. */
  predicate NamedLe(a: NamedKey, b: NamedKey) {
    if a.0 == b.0 then LexLe(a.1, b.1) else LexLe(a.0, b.0)
  }

  lemma NamedOrder()
    ensures TotalOrder(NamedLe)
  {
    LexOrder();
  }

  function HeldRoles(t: Tables, subject: string, scope: string): set<NamedKey> {
    set r | r in t.roles && Assignable(t, r, scope) && (subject, r) in t.userRoles && t.userRoles[(subject, r)]
      :: (t.roles[r].name, r)
  }

  ghost function SecondOf(keys: seq<NamedKey>): (ids: seq<string>)
    ensures |ids| == |keys| && forall i :: 0 <= i < |ids| ==> ids[i] == keys[i].1
  {
    seq(|keys|, i requires 0 <= i < |keys| => keys[i].1)
  }

  /** ListRoleIDs. */
  ghost function RoleIDsOf(t: Tables, subject: string, scope: string): Result<seq<string>, Error> {
    var u, s := ValidID(subject), ValidScope(scope);
    if u.Failure? then Failure(u.error)
    else if s.Failure? then Failure(s.error)
    else
      NamedOrder();
      Success(SecondOf(SortSet(HeldRoles(t, u.value, s.value), NamedLe)))
  }

  // ---- menus -------------------------------------------------------------------------------

  predicate MenuCodeTaken(t: Tables, id: Uuid, scope: string, code: string) {
    exists m <- t.menus :: m != id && !t.menus[m].deleted && t.menus[m].scope == scope && t.menus[m].code == code
  }

  /** validateMenu: normalises the API metadata of buttons and forbids it on menus. */
  function ValidMenu(row: MenuRow): Result<MenuRow, Error> {
    var cn, path, m := ValidCodeAndName(row.code, row.name), Trim(row.apiPath), Upper(Trim(row.httpMethod));
    if cn.Failure? then Failure(cn.error)
    else if row.menuType.ButtonNode? && row.parent.None? then Failure(InvalidArgument)
    else if row.menuType.MenuNode? && (path != [] || m != []) then Failure(InvalidArgument)
    else if row.menuType.ButtonNode? && (path == [] || (m != [] && !MenuMethod(m))) then Failure(InvalidArgument)
    else Success(row.(code := cn.value.0, name := cn.value.1, apiPath := path,
                      httpMethod := if row.menuType.ButtonNode? && m == [] then "GET" else m))
  }

  /** The parent trigger: an active menu of the same scope, not the row itself. */
  predicate ParentAccepted(t: Tables, id: Uuid, row: MenuRow) {
    row.parent.Some? ==>
      && row.parent.value != id && LiveMenu(t, row.parent.value)
      && t.menus[row.parent.value].menuType.MenuNode? && t.menus[row.parent.value].scope == row.scope
  }

  /** CreateMenu; `id` is the given or generated id. */
  function CreateMenu(t: Tables, id: Uuid, row: MenuRow): Result<Tables, Error> {
    var s := ValidScope(row.scope);
    if s.Failure? then Failure(s.error)
    else if ScopeError(t, s.value).Some? then Failure(ScopeError(t, s.value).value)
    else
      var v := ValidMenu(row.(scope := s.value));
      if v.Failure? then Failure(v.error)
      else if row.parent.Some? && !LiveMenu(t, row.parent.value) then Failure(NotFound)
      else if row.parent.Some? && !t.menus[row.parent.value].enabled then Failure(Conflict)
      else if !ParentAccepted(t, id, v.value) || row.sort < 0 then Failure(Conflict)
      else if id in t.menus || MenuCodeTaken(t, id, s.value, v.value.code) then Failure(AlreadyExists)
      else Success(t.(menus := t.menus[id := v.value.(enabled := true, deleted := false)]))
  }

  /** UpdateMenu: scope, parent and type are kept. */
  function UpdateMenu(t: Tables, id: Uuid, row: MenuRow): Result<Tables, Error> {
    if id == NIL_UUID then Failure(InvalidArgument)
    else if !LiveMenu(t, id) then Failure(NotFound)
    else
      var stored := t.menus[id];
      var v := ValidMenu(row.(scope := stored.scope, parent := stored.parent, menuType := stored.menuType));
      if ScopeError(t, stored.scope).Some? then Failure(ScopeError(t, stored.scope).value)
      else if v.Failure? then Failure(v.error)
      else if row.sort < 0 then Failure(Conflict)
      else if MenuCodeTaken(t, id, stored.scope, v.value.code) then Failure(AlreadyExists)
      else Success(t.(menus := t.menus[id := v.value.(deleted := false)]))
  }

  predicate HasLiveChild(t: Tables, id: Uuid) {
    exists m <- t.menus :: !t.menus[m].deleted && t.menus[m].parent == Some(id)
  }

  /** DeleteMenu: refused while live children remain; grants of the menu go with it. */
  function DeleteMenu(t: Tables, id: Uuid): Result<Tables, Error> {
    if id == NIL_UUID then Failure(InvalidArgument)
    else if !LiveMenu(t, id) then Failure(NotFound)
    else if HasLiveChild(t, id) then Failure(Conflict)
    else Success(MenuSoftDeleted(t, id))
  }

  function MenuSoftDeleted(t: Tables, id: Uuid): Tables
    requires id in t.menus
  {
    t.(menus := t.menus[id := t.menus[id].(deleted := true, enabled := false)],
       roleMenus := map k | k in t.roleMenus :: t.roleMenus[k] && k.1 != id)
  }

  // ---- endpoints and the catalog -----------------------------------------------------------

  predicate RouteTaken(t: Tables, id: Uuid, scope: string, method_: string, path: string) {
    exists e <- t.endpoints :: e != id && !t.endpoints[e].deleted && t.endpoints[e].scope == scope
                               && t.endpoints[e].method_ == method_ && t.endpoints[e].path == path
  }

  predicate EndpointMethod(m: string) {
    MenuMethod(m) || m == "TRACE"
  }

  /** normalizeAPIEndpoint. */
  function ValidEndpoint(row: EndpointRow): Result<EndpointRow, Error> {
    var controller, m, path := Trim(row.controller), Upper(Trim(row.method_)), Trim(row.path);
    if controller == [] || |controller| > 200 || !EndpointMethod(m) || path == [] || |path| > 500 || path[0] != '/'
    then Failure(InvalidArgument)
    else Success(row.(controller := controller, method_ := m, path := path, summary := Trim(row.summary)))
  }

  /** CreateAPIEndpoint; `id` is the given or generated id. */
  function CreateEndpoint(t: Tables, id: Uuid, row: EndpointRow): Result<Tables, Error> {
    var s := ValidScope(row.scope);
    if s.Failure? then Failure(s.error)
    else if ScopeError(t, s.value).Some? then Failure(ScopeError(t, s.value).value)
    else
      var v := ValidEndpoint(row.(scope := s.value));
      if v.Failure? then Failure(v.error)
      else if id in t.endpoints || RouteTaken(t, id, s.value, v.value.method_, v.value.path) then Failure(AlreadyExists)
      else Success(t.(endpoints := t.endpoints[id := v.value.(deleted := false)]))
  }

  /** UpdateAPIEndpoint: the scope may be repeated but not changed. */
  function UpdateEndpoint(t: Tables, id: Uuid, row: EndpointRow): Result<Tables, Error> {
    if id == NIL_UUID then Failure(InvalidArgument)
    else if !LiveEndpoint(t, id) then Failure(NotFound)
    else
      var stored := t.endpoints[id].scope;
      var s := ValidScope(if Blank(row.scope) then stored else Trim(row.scope));
      if s.Failure? then Failure(s.error)
      else if s.value != Trim(stored) then Failure(Conflict)
      else if ScopeError(t, s.value).Some? then Failure(ScopeError(t, s.value).value)
      else
        var v := ValidEndpoint(row.(scope := stored));
        if v.Failure? then Failure(v.error)
        else if RouteTaken(t, id, stored, v.value.method_, v.value.path) then Failure(AlreadyExists)
        else Success(t.(endpoints := t.endpoints[id := v.value.(deleted := false)]))
  }

  function DeleteEndpoint(t: Tables, id: Uuid): Result<Tables, Error> {
    if id == NIL_UUID then Failure(InvalidArgument)
    else if !LiveEndpoint(t, id) then Failure(NotFound)
    else Success(t.(endpoints := t.endpoints[id := t.endpoints[id].(enabled := false, deleted := true)]))
  }

  // ---- steps -------------------------------------------------------------------------------

  datatype Step =
    | RoleCreated(id: string, scope: string, code: string, name: string, description: string)
    | RoleUpdated(id: string, code: string, name: string, description: string, enabled: bool)
    | RoleDeleted(id: string)
    | MenusGranted(roleID: string, menuIDs: seq<Uuid>)
    | RolesAssigned(subject: string, scope: string, roleIDs: seq<string>)
    | MenuCreated(menu: Uuid, menuRow: MenuRow)
    | MenuUpdated(menu: Uuid, menuRow: MenuRow)
    | MenuDeleted(menu: Uuid)
    | EndpointCreated(endpoint: Uuid, endpointRow: EndpointRow)
    | EndpointUpdated(endpoint: Uuid, endpointRow: EndpointRow)
    | EndpointDeleted(endpoint: Uuid)
    | CatalogChanged(scope: string, active: bool)
    | CatalogDeleted(scope: string)

  function Attempt(t: Tables, step: Step): Result<Tables, Error> {
    match step
    case RoleCreated(id, scope, code, name, description) => CreateRole(t, id, scope, code, name, description)
    case RoleUpdated(id, code, name, description, enabled) => UpdateRole(t, id, code, name, description, enabled)
    case RoleDeleted(id) => DeleteRole(t, id)
    case MenusGranted(roleID, menuIDs) => GrantRoleMenus(t, roleID, menuIDs)
    case RolesAssigned(subject, scope, roleIDs) => ReplaceUserRoles(t, subject, scope, roleIDs)
    case MenuCreated(menu, row) => CreateMenu(t, menu, row)
    case MenuUpdated(menu, row) => UpdateMenu(t, menu, row)
    case MenuDeleted(menu) => DeleteMenu(t, menu)
    case EndpointCreated(endpoint, row) => CreateEndpoint(t, endpoint, row)
    case EndpointUpdated(endpoint, row) => UpdateEndpoint(t, endpoint, row)
    case EndpointDeleted(endpoint) => DeleteEndpoint(t, endpoint)
    case CatalogChanged(scope, active) => Success(t.(catalog := t.catalog[scope := active]))
    case CatalogDeleted(scope) => Success(t.(catalog := t.catalog - {scope}))
  }

  /** A failed transaction leaves the tables as they were. */
  function Apply(t: Tables, step: Step): Tables {
    var r := Attempt(t, step);
    if r.Success? then r.value else t
  }

  // ---- invariants over runs ----------------------------------------------------------------

  ghost predicate GrantsJoin(t: Tables) {
    forall k <- t.roleMenus | t.roleMenus[k] ::
      LiveRole(t, k.0) && LiveMenu(t, k.1) && t.roles[k.0].scope == t.menus[k.1].scope
  }

  ghost predicate AssignmentsJoin(t: Tables) {
    forall k <- t.userRoles | t.userRoles[k] :: LiveRole(t, k.1)
  }

  /** Every live menu's parent is a live menu node of its scope, and buttons have one. */
  ghost predicate ParentsClosed(t: Tables) {
    forall m <- t.menus | LiveMenu(t, m) ::
      var row := t.menus[m];
      && (row.menuType.ButtonNode? ==> row.parent.Some?)
      && (row.parent.Some? ==> LiveMenu(t, row.parent.value)
                               && t.menus[row.parent.value].menuType.MenuNode?
                               && t.menus[row.parent.value].scope == row.scope)
  }

  /** A ranking that grows from parent to child. */
  ghost predicate Ranked(t: Tables, rank: map<Uuid, nat>) {
    forall m <- t.menus | LiveMenu(t, m) ::
      m in rank && (t.menus[m].parent.Some? && t.menus[m].parent.value in rank
                    ==> rank[t.menus[m].parent.value] < rank[m])
  }

  ghost predicate Acyclic(t: Tables) {
    exists rank :: Ranked(t, rank)
  }

  ghost predicate RbacInv(t: Tables) {
    GrantsJoin(t) && AssignmentsJoin(t) && ParentsClosed(t) && Acyclic(t)
  }

  lemma {:induction false} GrantsChecked(t: Tables, scope: string, menuIDs: seq<Uuid>)
    requires GrantError(t, scope, menuIDs).None?
    ensures forall m <- menuIDs :: LiveMenu(t, m) && t.menus[m].scope == scope
  {
    if menuIDs != [] {
      GrantsChecked(t, scope, menuIDs[..|menuIDs| - 1]);
      assert menuIDs == menuIDs[..|menuIDs| - 1] + [menuIDs[|menuIDs| - 1]];
    }
  }

  /** A live menu row written under its trigger: new, or with the scope, parent and type it had. */
  ghost predicate MenuWritten(t: Tables, t': Tables, id: Uuid, row: MenuRow) {
    && t' == t.(menus := t.menus[id := row])
    && !row.deleted && (row.menuType.ButtonNode? ==> row.parent.Some?)
    && (if id in t.menus
        then LiveMenu(t, id) && row.scope == t.menus[id].scope && row.parent == t.menus[id].parent
            && row.menuType == t.menus[id].menuType
        else ParentAccepted(t, id, row))
  }

  lemma WriteKeepsParents(t: Tables, t': Tables, id: Uuid, row: MenuRow)
    requires ParentsClosed(t) && MenuWritten(t, t', id, row)
    ensures ParentsClosed(t')
  {
    forall m | m in t.menus && m != id ensures t'.menus[m] == t.menus[m] {}
  }

  lemma WriteKeepsAcyclic(t: Tables, t': Tables, id: Uuid, row: MenuRow)
    requires ParentsClosed(t) && Acyclic(t) && MenuWritten(t, t', id, row)
    ensures Acyclic(t')
  {
    var rank :| Ranked(t, rank);
    if id in t.menus {
      assert Ranked(t', rank);
    } else {
      var above := if row.parent.Some? && row.parent.value in rank then rank[row.parent.value] + 1 else 0;
      var rank' := rank[id := above];
      forall m | m in t'.menus && LiveMenu(t', m)
        ensures m in rank' && (t'.menus[m].parent.Some? && t'.menus[m].parent.value in rank'
                               ==> rank'[t'.menus[m].parent.value] < rank'[m])
      {
        assert m != id ==> LiveMenu(t, m) && t'.menus[m] == t.menus[m];
      }
      assert Ranked(t', rank');
    }
  }

  lemma WriteKeepsGrants(t: Tables, t': Tables, id: Uuid, row: MenuRow)
    requires GrantsJoin(t) && MenuWritten(t, t', id, row)
    ensures GrantsJoin(t')
  {
  }

  lemma MenuWriteKeeps(t: Tables, t': Tables, id: Uuid, row: MenuRow)
    requires RbacInv(t) && MenuWritten(t, t', id, row)
    ensures RbacInv(t')
  {
    WriteKeepsParents(t, t', id, row);
    WriteKeepsAcyclic(t, t', id, row);
    WriteKeepsGrants(t, t', id, row);
  }

  lemma CreateMenuKeeps(t: Tables, id: Uuid, row: MenuRow)
    requires RbacInv(t) && CreateMenu(t, id, row).Success?
    ensures RbacInv(CreateMenu(t, id, row).value)
  {
    var t' := CreateMenu(t, id, row).value;
    hide RbacInv;
    MenuWriteKeeps(t, t', id, t'.menus[id]);
  }

  lemma UpdateMenuKeeps(t: Tables, id: Uuid, row: MenuRow)
    requires RbacInv(t) && UpdateMenu(t, id, row).Success?
    ensures RbacInv(UpdateMenu(t, id, row).value)
  {
    hide RbacInv;
    var t' := UpdateMenu(t, id, row).value;
    assert LiveMenu(t, id) && t' == t.(menus := t.menus[id := t'.menus[id]]);
    assert t.menus[id].menuType.ButtonNode? ==> t.menus[id].parent.Some?;
    MenuWriteKeeps(t, t', id, t'.menus[id]);
  }

  lemma DeleteMenuKeeps(t: Tables, id: Uuid)
    requires RbacInv(t) && DeleteMenu(t, id).Success?
    ensures RbacInv(DeleteMenu(t, id).value)
  {
    var t' := DeleteMenu(t, id).value;
    var rank :| Ranked(t, rank);
    assert Ranked(t', rank);
  }

  lemma SameMenusKeep(t: Tables, t': Tables)
    requires ParentsClosed(t) && Acyclic(t) && t'.menus == t.menus
    ensures ParentsClosed(t') && Acyclic(t')
  {
    var rank :| Ranked(t, rank);
    assert Ranked(t', rank);
  }

  lemma GrantKeeps(t: Tables, roleID: string, menuIDs: seq<Uuid>)
    requires RbacInv(t) && GrantRoleMenus(t, roleID, menuIDs).Success?
    ensures RbacInv(GrantRoleMenus(t, roleID, menuIDs).value)
  {
    var id := ValidID(roleID).value;
    var t' := GrantRoleMenus(t, roleID, menuIDs).value;
    GrantsChecked(t, t.roles[id].scope, menuIDs);
    SameMenusKeep(t, t');
  }

  lemma RoleEditKeeps(t: Tables, t': Tables, id: string)
    requires RbacInv(t) && t' == t.(roles := t'.roles)
    requires id in t'.roles && t'.roles == t.roles[id := t'.roles[id]]
    requires id in t.roles ==> LiveRole(t', id) && t'.roles[id].scope == t.roles[id].scope
    ensures RbacInv(t')
  {
    SameMenusKeep(t, t');
  }

  lemma DeleteRoleKeeps(t: Tables, id: string)
    requires RbacInv(t) && id in t.roles
    ensures RbacInv(RoleSoftDeleted(t, id))
  {
    SameMenusKeep(t, RoleSoftDeleted(t, id));
  }

  lemma AssignKeeps(t: Tables, subject: string, scope: string, roleIDs: seq<string>)
    requires RbacInv(t) && forall r <- roleIDs :: Assignable(t, r, scope)
    ensures RbacInv(RolesReplaced(t, subject, scope, roleIDs))
  {
    SameMenusKeep(t, RolesReplaced(t, subject, scope, roleIDs));
  }

  lemma OtherTablesKeep(t: Tables, t': Tables)
    requires RbacInv(t) && t'.roles == t.roles && t'.menus == t.menus && t'.roleMenus == t.roleMenus
             && t'.userRoles == t.userRoles
    ensures RbacInv(t')
  {
    SameMenusKeep(t, t');
  }

  /** Every transaction keeps the joins, the closure of parents and acyclicity. */
  lemma StepKeeps(t: Tables, step: Step)
    requires RbacInv(t)
    ensures RbacInv(Apply(t, step))
  {
    hide RbacInv, ValidMenu, ValidID, ValidScope, ValidCodeAndName, ValidEndpoint, RoleSoftDeleted, RolesReplaced,
      CreateMenu, UpdateMenu, DeleteMenu, GrantRoleMenus, RoleCodeTaken, RouteTaken, LexLe, Trim;
    if Attempt(t, step).Success? {
      match step
      case RoleCreated(id, _, _, _, _) => RoleEditKeeps(t, Apply(t, step), id);
      case RoleUpdated(id, _, _, _, _) => RoleEditKeeps(t, Apply(t, step), ValidID(id).value);
      case RoleDeleted(id) => DeleteRoleKeeps(t, ValidID(id).value);
      case MenusGranted(roleID, menuIDs) => GrantKeeps(t, roleID, menuIDs);
      case RolesAssigned(subject, scope, roleIDs) =>
        AssignKeeps(t, ValidID(subject).value, ValidScope(scope).value, ValidRoleIDs(roleIDs).value);
      case MenuCreated(menu, row) => CreateMenuKeeps(t, menu, row);
      case MenuUpdated(menu, row) => UpdateMenuKeeps(t, menu, row);
      case MenuDeleted(menu) => DeleteMenuKeeps(t, menu);
      case EndpointCreated(_, _) => OtherTablesKeep(t, Apply(t, step));
      case EndpointUpdated(_, _) => OtherTablesKeep(t, Apply(t, step));
      case EndpointDeleted(_) => OtherTablesKeep(t, Apply(t, step));
      case CatalogChanged(_, _) => OtherTablesKeep(t, Apply(t, step));
      case CatalogDeleted(_) => OtherTablesKeep(t, Apply(t, step));
    }
  }

  function Run(t: Tables, steps: seq<Step>): Tables {
    if steps == [] then t else Apply(Run(t, steps[..|steps| - 1]), steps[|steps| - 1])
  }

  /** The invariants hold over whole runs. */
  lemma {:induction false} RunKeeps(t: Tables, steps: seq<Step>)
    requires RbacInv(t)
    ensures RbacInv(Run(t, steps))
  {
    if steps != [] {
      RunKeeps(t, steps[..|steps| - 1]);
      StepKeeps(Run(t, steps[..|steps| - 1]), steps[|steps| - 1]);
    }
  }
}
