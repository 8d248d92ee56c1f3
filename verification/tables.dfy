/** The tables of migrations/001_init.sql, as far as policies, roles, menus and endpoints need them. */
module Tables {
  import opened Wrappers
  import opened PolicyModel
  import opened ConditionJson

  datatype PolicyRow = PolicyRow(
    scope: string, code: string, name: string, description: string, effect: Effect, status: Status,
    authorizationType: AuthorizationType, priority: int, condition: Option<Json>, currentVersion: int, deleted: bool)

  /** A stored snapshot: its condition is kept as JSON, so `body.condition` is None. */
  datatype VersionRow = VersionRow(body: Snapshot, condition: Option<Json>)

  datatype RoleRow = RoleRow(
    scope: string, code: string, name: string, description: string, enabled: bool, deleted: bool)

  datatype MenuType = MenuNode | ButtonNode

  datatype MenuRow = MenuRow(
    scope: string, parent: Option<Uuid>, menuType: MenuType, code: string, name: string, apiPath: string,
    httpMethod: string, sort: int, enabled: bool, deleted: bool)

  datatype EndpointRow = EndpointRow(
    scope: string, controller: string, method_: string, path: string, summary: string, enabled: bool, deleted: bool)

  /**
   * The database. Association tables are keyed by their primary keys: a policy's role and endpoint
   * bindings are sets, a grant or an assignment is a key with its liveness.
   */
  datatype Tables = Tables(
    policies: map<Uuid, PolicyRow>,
    bindings: map<Uuid, set<string>>,
    targets: map<Uuid, set<Uuid>>,
    versions: map<(Uuid, int), VersionRow>,
    roles: map<string, RoleRow>,
    menus: map<Uuid, MenuRow>,
    roleMenus: map<(string, Uuid), bool>,
    userRoles: map<(string, string), bool>,
    endpoints: map<Uuid, EndpointRow>,
    catalog: map<string, bool>)

  function Bound(t: Tables, id: Uuid): set<string> {
    if id in t.bindings then t.bindings[id] else {}
  }

  function Targeted(t: Tables, id: Uuid): set<Uuid> {
    if id in t.targets then t.targets[id] else {}
  }

  predicate LivePolicy(t: Tables, id: Uuid) {
    id in t.policies && !t.policies[id].deleted
  }

  predicate LiveRole(t: Tables, id: string) {
    id in t.roles && !t.roles[id].deleted
  }

  predicate LiveEndpoint(t: Tables, id: Uuid) {
    id in t.endpoints && !t.endpoints[id].deleted
  }

  predicate LiveMenu(t: Tables, id: Uuid) {
    id in t.menus && !t.menus[id].deleted
  }

  /** btrim(s) = '': only spaces. */
  predicate SqlBlank(s: string) {
    forall c <- s :: c == ' '
  }

  /** The database behind the connection pool. A failed transaction leaves every table as it was. */
  class Database {
    var policies: map<Uuid, PolicyRow>
    var bindings: map<Uuid, set<string>>
    var targets: map<Uuid, set<Uuid>>
    var versions: map<(Uuid, int), VersionRow>
    var roles: map<string, RoleRow>
    var menus: map<Uuid, MenuRow>
    var roleMenus: map<(string, Uuid), bool>
    var userRoles: map<(string, string), bool>
    var endpoints: map<Uuid, EndpointRow>
    var catalog: map<string, bool>

    function State(): Tables
      reads this
    {
      Tables(policies, bindings, targets, versions, roles, menus, roleMenus, userRoles, endpoints, catalog)
    }

    constructor (t: Tables)
      ensures State() == t
    {
      policies, bindings, targets, versions := t.policies, t.bindings, t.targets, t.versions;
      roles, menus, roleMenus, userRoles := t.roles, t.menus, t.roleMenus, t.userRoles;
      endpoints, catalog := t.endpoints, t.catalog;
    }
  }
}
