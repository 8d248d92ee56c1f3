/** api_endpoint.go: importing the operations of a Swagger document against the unique route index. */
module SwaggerImport {
  import opened Wrappers
  import opened Text
  import opened PolicyModel
  import opened Tables
  import opened Rbac
  import opened SwaggerParse

  type Route = (string, string)

  /** The route a key stands for once it is normalised. */
  function KeyRoute(key: Route): Route {
    (Upper(Trim(key.0)), Trim(key.1))
  }

  function KeyOf(op: Operation): Route {
    (op.method_, op.path)
  }

  /** The route an operation is stored under. */
  function RouteOf(op: Operation): Route {
    KeyRoute(KeyOf(op))
  }

  function Parsed(ops: seq<Operation>): set<Route> {
    set op | op in ops :: RouteOf(op)
  }

  predicate RouteIn(t: Tables, e: Uuid, scope: string) {
    LiveEndpoint(t, e) && t.endpoints[e].scope == scope
  }

  /** The live routes of a scope. */
  function Routes(t: Tables, scope: string): set<Route> {
    set e | e in t.endpoints && RouteIn(t, e, scope) :: (t.endpoints[e].method_, t.endpoints[e].path)
  }

  // ---- one import, one operation at a time -------------------------------------------------

  /** A running import: its seen-set, its position and its counters. */
  datatype Import = Import(
    scope: string, ops: seq<Operation>, next: nat, seen: set<Route>, created: nat, skipped: nat, failed: Option<Error>)

  /** What one turn draws from outside: the generated id, and whether the insert fails unexpectedly. */
  datatype Turn = Turn(id: Uuid, fault: bool)

  function Begun(t: Tables, scope: string, ops: seq<Operation>): Import {
    Import(scope, ops, 0, ListedRoutes(t, scope), 0, 0, None)
  }

  /** The seen-set built from the listing, with trimmed and upper-cased keys. */
  function ListedRoutes(t: Tables, scope: string): set<Route> {
    set r | r in Routes(t, scope) :: KeyRoute(r)
  }

  predicate Over(c: Import) {
    c.failed.Some? || c.next >= |c.ops|
  }

  /** One round of the loop. */
  function ImportOne(t: Tables, c: Import, turn: Turn): (Tables, Import) {
    if Over(c) then (t, c)
    else
      var op := c.ops[c.next];
      var key := KeyOf(op);
      if key in c.seen then (t, c.(next := c.next + 1, skipped := c.skipped + 1))
      else
        var r := if turn.fault then Failure(Unavailable) else CreateEndpoint(t, turn.id, EndpointFor(c.scope, op));
        if r.Success? then (r.value, c.(next := c.next + 1, seen := c.seen + {key}, created := c.created + 1))
        else if r.error == AlreadyExists then (t, c.(next := c.next + 1, skipped := c.skipped + 1))
        else (t, c.(failed := Some(r.error)))
  }

  /** A round of the import, or a transaction of somebody else in between. */
  datatype Event = Own(turn: Turn) | Other(step: Step)

  function ImportRun(t: Tables, c: Import, events: seq<Event>): (Tables, Import) {
    if events == [] then (t, c)
    else
      var (t', c') := ImportRun(t, c, events[..|events| - 1]);
      match events[|events| - 1]
      case Own(turn) => ImportOne(t', c', turn)
      case Other(step) => (Apply(t', step), c')
  }

  // ---- the service -------------------------------------------------------------------------

  function OwnTurns(turns: nat -> Turn, n: nat): seq<Event> {
    seq(n, i requires 0 <= i < n => Own(turns(i)))
  }

  /** What one import of these operations does to the tables, and what it answers: total, created, skipped. */
  ghost predicate ImportedBy(
    t: Tables, t': Tables, scope: string, ops: seq<Operation>, turns: nat -> Turn,
    result: Result<(nat, nat, nat), Error>)
  {
    var (after, c) := ImportRun(t, Begun(t, scope, ops), OwnTurns(turns, |ops|));
    && t' == after
    && result == if c.failed.Some? then Failure(c.failed.value) else Success((|ops|, c.created, c.skipped))
  }

  ghost predicate Importing(
    t: Tables, t': Tables, scope: string, d: Document, clean: string -> string, turns: nat -> Turn,
    result: Result<(nat, nat, nat), Error>)
  {
    exists ops :: ParsesTo(d, clean, ops) && ImportedBy(t, t', scope, ops, turns, result)
  }

  class APIEndpointService {
    const pool: Database

    constructor (pool: Database)
      ensures this.pool == pool
    {
      this.pool := pool;
    }

    method CreateAPIEndpoint(id: Uuid, row: EndpointRow, fault: bool) returns (error: Option<Error>)
      modifies pool`endpoints
      ensures var r := if fault then Failure(Unavailable) else CreateEndpoint(old(pool.State()), id, row);
              if r.Success? then error.None? && pool.State() == r.value
              else error == Some(r.error) && pool.State() == old(pool.State())
    {
      hide ValidEndpoint, ValidScope, RouteTaken;
      if fault {
        return Some(Unavailable);
      }
      var s := ValidScope(row.scope);
      if s.Failure? {
        return Some(s.error);
      }
      var scopeError := ScopeError(pool.State(), s.value);
      if scopeError.Some? {
        return scopeError;
      }
      var value := NormalizeAPIEndpoint(row.(scope := s.value));
      if value.Failure? {
        return Some(value.error);
      }
      if id in pool.endpoints || RouteTaken(pool.State(), id, s.value, value.value.method_, value.value.path) {
        return Some(AlreadyExists);
      }
      pool.endpoints := pool.endpoints[id := value.value.(deleted := false)];
      return None;
    }

    /** normalizeAPIEndpoint: the argument is rewritten field by field. */
    method NormalizeAPIEndpoint(value: EndpointRow) returns (result: Result<EndpointRow, Error>)
      ensures result == ValidEndpoint(value)
    {
      hide Trim, Upper;
      var row := value.(controller := Trim(value.controller));
      if row.controller == "" || |row.controller| > 200 {
        return Failure(InvalidArgument);
      }
      row := row.(method_ := Upper(Trim(row.method_)));
      if row.method_ !in {"GET", "POST", "PUT", "PATCH", "DELETE", "HEAD", "OPTIONS", "TRACE"} {
        return Failure(InvalidArgument);
      }
      row := row.(path := Trim(row.path));
      if row.path == "" || |row.path| > 500 || row.path[0] != '/' {
        return Failure(InvalidArgument);
      }
      row := row.(summary := Trim(row.summary));
      return Success(row);
    }

    /** UpdateAPIEndpoint: the scope may be repeated, not changed. */
    method UpdateAPIEndpoint(id: Uuid, value: EndpointRow) returns (error: Option<Error>)
      modifies pool`endpoints
      ensures var r := UpdateEndpoint(old(pool.State()), id, value);
              if r.Success? then error.None? && pool.State() == r.value
              else error == Some(r.error) && pool.State() == old(pool.State())
    {
      hide Trim, Upper, ByteLength, RouteTaken, ValidEndpoint;
      if id == NIL_UUID {
        return Some(InvalidArgument);
      }
      if id !in pool.endpoints || pool.endpoints[id].deleted {
        return Some(NotFound);
      }
      var existing := pool.endpoints[id];
      var given := Trim(value.scope);
      if given == "" {
        given := existing.scope;
      }
      var scope := ValidScope(given);
      if scope.Failure? {
        return Some(scope.error);
      }
      if scope.value != Trim(existing.scope) {
        return Some(Conflict);
      }
      if scope.value !in pool.catalog {
        return Some(NotFound);
      }
      if !pool.catalog[scope.value] {
        return Some(Conflict);
      }
      ValidEndpointKeeps(value.(scope := existing.scope));
      var updated := NormalizeAPIEndpoint(value.(scope := existing.scope));
      if updated.Failure? {
        return Some(updated.error);
      }
      if RouteTaken(pool.State(), id, existing.scope, updated.value.method_, updated.value.path) {
        return Some(AlreadyExists);
      }
      pool.endpoints := pool.endpoints[id := updated.value.(deleted := false)];
      return None;
    }

    /** DeleteAPIEndpoint: the row is marked deleted and disabled. */
    method DeleteAPIEndpoint(id: Uuid) returns (error: Option<Error>)
      modifies pool`endpoints
      ensures var r := DeleteEndpoint(old(pool.State()), id);
              if r.Success? then error.None? && pool.State() == r.value
              else error == Some(r.error) && pool.State() == old(pool.State())
    {
      if id == NIL_UUID {
        return Some(InvalidArgument);
      }
      if id !in pool.endpoints || pool.endpoints[id].deleted {
        return Some(NotFound);
      }
      var row := pool.endpoints[id].(deleted := true);
      row := row.(enabled := false);
      pool.endpoints := pool.endpoints[id := row];
      return None;
    }

    /**
     * ImportSwaggerAPIEndpoints from the decoded document on: refused for its scope or its operations with
     * nothing changed, or else the import of the parsed operations. `turns` are the ids and faults it meets.
     */
    method ImportSwagger(scope: string, d: Document, clean: string -> string, turns: nat -> Turn)
      returns (result: Result<(nat, nat, nat), Error>)
      modifies pool`endpoints
      ensures var t := old(pool.State());
              if ValidScope(scope).Failure? then result == Failure(InvalidArgument) && pool.State() == t
              else if ScopeError(t, Trim(scope)).Some? then
                result == Failure(ScopeError(t, Trim(scope)).value) && pool.State() == t
              else if Supported(d) && Places(d) != {} && AllAcceptable(d, clean) then
                Importing(t, pool.State(), Trim(scope), d, clean, turns, result)
              else result == Failure(InvalidArgument) && pool.State() == t
    {
      hide Trim, Blank, ScopeError, ParsesTo, ImportedBy, Places, AllAcceptable;
      var s := ValidScope(scope);
      if s.Failure? {
        return Failure(s.error);
      }
      var scopeError := ScopeError(pool.State(), s.value);
      if scopeError.Some? {
        return Failure(scopeError.value);
      }
      var operations := Parse(d, clean);
      if operations.Failure? {
        return Failure(operations.error);
      }
      ghost var t := pool.State();
      result := ImportOperations(s.value, operations.value, turns);
      assert ImportedBy(t, pool.State(), Trim(scope), operations.value, turns, result);
    }

    /** The listing and the loop. */
    method ImportOperations(scope: string, ops: seq<Operation>, turns: nat -> Turn)
      returns (result: Result<(nat, nat, nat), Error>)
      modifies pool`endpoints
      ensures ImportedBy(old(pool.State()), pool.State(), scope, ops, turns, result)
    {
      hide CreateEndpoint, Routes, ListedRoutes, ImportRun;
      ghost var t := pool.State();
      ghost var c := Begun(t, scope, ops);
      ghost var events := OwnTurns(turns, |ops|);
      ImportNothing(t, c, events);
      var seen := ListedRoutes(pool.State(), scope);
      var created, skipped := 0, 0;
      for i := 0 to |ops|
        invariant ImportRun(t, c, events[..i]) ==
                  (pool.State(), c.(next := i, seen := seen, created := created, skipped := skipped))
      {
        OneMoreTurn(t, c, events, i);
        var op := ops[i];
        var key := KeyOf(op);
        if key in seen {
          skipped := skipped + 1;
          continue;
        }
        var error := CreateAPIEndpoint(turns(i).id, EndpointFor(scope, op), turns(i).fault);
        if error.Some? {
          if error.value == AlreadyExists {
            skipped := skipped + 1;
            continue;
          }
          FailureStays(t, c, events, i + 1);
          return Failure(error.value);
        }
        seen := seen + {key};
        created := created + 1;
      }
      assert events[..|ops|] == events;
      return Success((|ops|, created, skipped));
    }
  }

  lemma ValidEndpointKeeps(row: EndpointRow)
    ensures ValidEndpoint(row).Success? ==> ValidEndpoint(row).value.scope == row.scope
  {
    hide Trim, Upper;
  }

  lemma ImportNothing(t: Tables, c: Import, events: seq<Event>)
    ensures ImportRun(t, c, events[..0]) == (t, c)
  {
  }

  lemma OneMoreTurn(t: Tables, c: Import, events: seq<Event>, i: nat)
    requires i < |events| && events[i].Own?
    ensures ImportRun(t, c, events[..i + 1]) ==
            ImportOne(ImportRun(t, c, events[..i]).0, ImportRun(t, c, events[..i]).1, events[i].turn)
  {
    hide ImportOne;
    assert events[..i + 1][..i] == events[..i];
  }

  lemma {:induction false} FailureStays(t: Tables, c: Import, events: seq<Event>, k: nat)
    requires k <= |events| && (forall e <- events :: e.Own?) && ImportRun(t, c, events[..k]).1.failed.Some?
    ensures ImportRun(t, c, events) == ImportRun(t, c, events[..k])
    decreases |events| - k
  {
    if k == |events| {
      assert events[..k] == events;
    } else {
      OneMoreTurn(t, c, events, k);
      FailureStays(t, c, events, k + 1);
    }
  }

  // ---- rows and their routes ---------------------------------------------------------------

  /** Live rows are stored normalised, and the unique index holds. */
  ghost predicate RouteRowsOk(t: Tables) {
    && (forall e <- t.endpoints | LiveEndpoint(t, e) :: Normal(t.endpoints[e]))
    && (forall e <- t.endpoints, f <- t.endpoints | LiveEndpoint(t, e) && LiveEndpoint(t, f) && e != f ::
          !SameRoute(t.endpoints[e], t.endpoints[f]))
  }

  predicate Normal(row: EndpointRow) {
    EndpointMethod(row.method_) && Trim(row.path) == row.path
  }

  predicate SameRoute(a: EndpointRow, b: EndpointRow) {
    a.scope == b.scope && a.method_ == b.method_ && a.path == b.path
  }

  predicate Capitals(s: string) {
    forall c <- s :: 'A' <= c <= 'Z'
  }

  lemma {:induction false} CapitalsStay(s: string)
    requires Capitals(s)
    ensures Upper(s) == s
  {
    hide IsSpace;
    if s != [] {
      var front, last := s[..|s| - 1], s[|s| - 1];
      assert last in s && forall c <- front :: c in s;
      CapitalsStay(front);
      assert s == front + [last];
    }
  }

  lemma CapitalsTrimmed(s: string)
    requires Capitals(s)
    ensures Trim(s) == s
  {
    assert s != [] ==> s[0] in s && s[|s| - 1] in s;
    TrimIsTrimmed(s);
  }

  lemma NormalKey(row: EndpointRow)
    requires Normal(row)
    ensures Upper(Trim(row.method_)) == row.method_ && Trim(row.path) == row.path
  {
    assert Capitals(row.method_);
    CapitalsStay(row.method_);
    CapitalsTrimmed(row.method_);
  }

  lemma ValidIsNormal(row: EndpointRow)
    requires ValidEndpoint(row).Success?
    ensures var v := ValidEndpoint(row).value;
            Normal(v) && v.scope == row.scope && (v.method_, v.path) == (Upper(Trim(row.method_)), Trim(row.path))
  {
    TrimIsTrimmed(row.path);
    hide Upper;
  }

  lemma WrittenRouteOk(t: Tables, t': Tables, id: Uuid)
    requires RouteRowsOk(t) && id in t'.endpoints && t'.endpoints == t.endpoints[id := t'.endpoints[id]]
    requires Normal(t'.endpoints[id])
    requires !RouteTaken(t, id, t'.endpoints[id].scope, t'.endpoints[id].method_, t'.endpoints[id].path)
    ensures RouteRowsOk(t')
  {
    hide Normal;
  }

  /** Every transaction keeps live routes normalised and unique. */
  lemma {:induction false} RoutesKept(t: Tables, step: Step)
    requires RouteRowsOk(t)
    ensures RouteRowsOk(Apply(t, step))
  {
    hide ValidMenu, ValidID, ValidScope, ValidCodeAndName, ValidEndpoint, RoleCodeTaken, MenuCodeTaken, RouteTaken,
      RouteRowsOk;
    match step
    case EndpointCreated(id, row) => CreatedRouteOk(t, id, row);
    case EndpointUpdated(id, row) => UpdatedRouteOk(t, id, row);
    case EndpointDeleted(id) => DeletedRouteOk(t, id);
    case _ => SameRoutesOk(t, Apply(t, step));
  }

  lemma SameRoutesOk(t: Tables, t': Tables)
    requires RouteRowsOk(t) && t'.endpoints == t.endpoints
    ensures RouteRowsOk(t')
  {
  }

  lemma CreatedRouteOk(t: Tables, id: Uuid, row: EndpointRow)
    requires RouteRowsOk(t)
    ensures CreateEndpoint(t, id, row).Success? ==> RouteRowsOk(CreateEndpoint(t, id, row).value)
  {
    hide RouteRowsOk, RouteTaken, ValidEndpoint, Normal, ValidScope;
    var r := CreateEndpoint(t, id, row);
    if r.Success? {
      ValidIsNormal(row.(scope := ValidScope(row.scope).value));
      NormalSurvives(ValidEndpoint(row.(scope := ValidScope(row.scope).value)).value);
      WrittenRouteOk(t, r.value, id);
    }
  }

  lemma NormalSurvives(row: EndpointRow)
    requires Normal(row)
    ensures Normal(row.(deleted := false))
  {
  }

  lemma UpdatedRouteOk(t: Tables, id: Uuid, row: EndpointRow)
    requires RouteRowsOk(t)
    ensures UpdateEndpoint(t, id, row).Success? ==> RouteRowsOk(UpdateEndpoint(t, id, row).value)
  {
    hide RouteRowsOk, RouteTaken, ValidEndpoint, Normal, ValidScope, Trim;
    var r := UpdateEndpoint(t, id, row);
    if r.Success? {
      ValidIsNormal(row.(scope := t.endpoints[id].scope));
      NormalSurvives(ValidEndpoint(row.(scope := t.endpoints[id].scope)).value);
      WrittenRouteOk(t, r.value, id);
    }
  }

  lemma DeletedRouteOk(t: Tables, id: Uuid)
    requires RouteRowsOk(t)
    ensures DeleteEndpoint(t, id).Success? ==> RouteRowsOk(DeleteEndpoint(t, id).value)
  {
    hide Normal;
  }

  /** Creating an endpoint adds exactly its route, and it was not there. */
  lemma CreatedRoute(t: Tables, id: Uuid, scope: string, op: Operation)
    requires Trim(scope) == scope && CreateEndpoint(t, id, EndpointFor(scope, op)).Success?
    ensures var t' := CreateEndpoint(t, id, EndpointFor(scope, op)).value;
            && RouteOf(op) !in Routes(t, scope) && Routes(t', scope) == Routes(t, scope) + {RouteOf(op)}
            && id !in t.endpoints && t'.endpoints == t.endpoints[id := t'.endpoints[id]]
            && t' == t.(endpoints := t'.endpoints)
            && t'.endpoints[id].scope == scope && t'.endpoints[id].enabled && !t'.endpoints[id].deleted
            && (t'.endpoints[id].method_, t'.endpoints[id].path) == RouteOf(op)
  {
    hide Trim, Upper, EndpointMethod, Blank;
    var t' := CreateEndpoint(t, id, EndpointFor(scope, op)).value;
    var row := t'.endpoints[id];
    assert (row.method_, row.path) == RouteOf(op) && row.scope == scope && !row.deleted;
    forall e | e in t.endpoints ensures t'.endpoints[e] == t.endpoints[e] && e != id {}
    assert RouteIn(t', id, scope);
  }

  /** An insert refused as a duplicate has its route live already, when the generated id is new. */
  lemma DuplicateIsLive(t: Tables, id: Uuid, scope: string, op: Operation)
    requires Trim(scope) == scope && id !in t.endpoints
             && CreateEndpoint(t, id, EndpointFor(scope, op)) == Failure(AlreadyExists)
    ensures RouteOf(op) in Routes(t, scope)
  {
    hide Trim, Upper, EndpointMethod, Blank;
  }

  // ---- what an import leaves behind --------------------------------------------------------

  /** An import under way: everything handled or seen is live, and the counters add up. */
  ghost predicate ImportOk(start: Tables, t: Tables, c: Import) {
    && RouteRowsOk(t) && Routes(start, c.scope) <= Routes(t, c.scope)
    && (forall key <- c.seen :: KeyRoute(key) in Routes(t, c.scope))
    && c.next <= |c.ops| && Parsed(c.ops[..c.next]) <= Routes(t, c.scope)
    && c.created + c.skipped == c.next
  }

  lemma BegunOk(t: Tables, scope: string, ops: seq<Operation>)
    requires RouteRowsOk(t)
    ensures ImportOk(t, t, Begun(t, scope, ops))
  {
    hide Trim, Upper;
    forall r | r in Routes(t, scope) ensures KeyRoute(r) == r {
      var e :| e in t.endpoints && RouteIn(t, e, scope) && r == (t.endpoints[e].method_, t.endpoints[e].path);
      NormalKey(t.endpoints[e]);
    }
  }

  lemma ParsedMore(ops: seq<Operation>, i: nat)
    requires i < |ops|
    ensures Parsed(ops[..i + 1]) == Parsed(ops[..i]) + {RouteOf(ops[i])}
  {
    assert ops[..i + 1] == ops[..i] + [ops[i]];
  }

  /** The round that finds its route live, or makes it so. */
  lemma HandledOk(start: Tables, t: Tables, t': Tables, c: Import, c': Import)
    requires ImportOk(start, t, c) && c.next < |c.ops| && RouteRowsOk(t')
    requires Routes(t, c.scope) <= Routes(t', c.scope) && RouteOf(c.ops[c.next]) in Routes(t', c.scope)
    requires c' == c.(next := c.next + 1, seen := c'.seen, created := c'.created, skipped := c'.skipped)
    requires c'.seen <= c.seen + {KeyOf(c.ops[c.next])} && c'.created + c'.skipped == c.created + c.skipped + 1
    ensures ImportOk(start, t', c')
  {
    hide Routes, RouteRowsOk, KeyRoute;
    ParsedMore(c.ops, c.next);
  }

  /** One round: it keeps the import in order, and adds as many live routes as it counts created. */
  lemma {:induction false} OneTurnKeeps(start: Tables, t: Tables, c: Import, turn: Turn)
    requires ImportOk(start, t, c) && Trim(c.scope) == c.scope && turn.id !in t.endpoints
    ensures var (t', c') := ImportOne(t, c, turn);
            && ImportOk(start, t', c') && Grew(t, t', c.scope, c'.created - c.created)
            && Routes(t', c.scope) - Parsed(c.ops[..c'.next]) <= Routes(t, c.scope)
            && (c'.scope, c'.ops) == (c.scope, c.ops) && c.next <= c'.next
  {
    hide Routes, RouteRowsOk, CreateEndpoint, KeyRoute, Trim, Grew, Parsed;
    GrewNot(t, c.scope);
    if Over(c) {
      return;
    }
    var op := c.ops[c.next];
    var (t', c') := ImportOne(t, c, turn);
    ParsedMore(c.ops, c.next);
    if KeyOf(op) in c.seen {
      HandledOk(start, t, t', c, c');
      return;
    }
    var r := CreateEndpoint(t, turn.id, EndpointFor(c.scope, op));
    if turn.fault || (r.Failure? && r.error != AlreadyExists) {
      assert ImportOk(start, t, c');
      return;
    }
    if r.Success? {
      CreatedRoute(t, turn.id, c.scope, op);
      CreatedRouteOk(t, turn.id, EndpointFor(c.scope, op));
      CreatedGrows(t, turn.id, c.scope, op);
    } else {
      DuplicateIsLive(t, turn.id, c.scope, op);
    }
    HandledOk(start, t, t', c, c');
  }

  /** Only new rows of the scope, each with a new route. */
  ghost predicate Grew(t: Tables, t': Tables, scope: string, n: int) {
    && t' == t.(endpoints := t'.endpoints)
    && (forall e <- t.endpoints :: e in t'.endpoints && t'.endpoints[e] == t.endpoints[e])
    && (forall e <- t'.endpoints :: e in t.endpoints || RouteIn(t', e, scope))
    && |Routes(t', scope)| == |Routes(t, scope)| + n
  }

  lemma CreatedGrows(t: Tables, id: Uuid, scope: string, op: Operation)
    requires Trim(scope) == scope && CreateEndpoint(t, id, EndpointFor(scope, op)).Success?
    ensures Grew(t, CreateEndpoint(t, id, EndpointFor(scope, op)).value, scope, 1)
  {
    hide Routes, CreateEndpoint, Trim;
    CreatedRoute(t, id, scope, op);
  }

  /** Whatever others do short of deleting or editing endpoints, no live route goes away. */
  lemma RoutesStay(t: Tables, step: Step, scope: string)
    requires !step.EndpointDeleted? && !step.EndpointUpdated?
    ensures Routes(t, scope) <= Routes(Apply(t, step), scope)
    ensures step.EndpointCreated? || Apply(t, step).endpoints == t.endpoints
    ensures step.EndpointCreated? ==> Apply(t, step).endpoints.Keys <= t.endpoints.Keys + {step.endpoint}
  {
    hide ValidMenu, ValidID, ValidScope, ValidCodeAndName, ValidEndpoint, RoleCodeTaken, MenuCodeTaken, RouteTaken;
    var t' := Apply(t, step);
    assert forall e <- t.endpoints :: e in t'.endpoints && t'.endpoints[e] == t.endpoints[e];
    forall e | e in t.endpoints && RouteIn(t, e, scope) ensures RouteIn(t', e, scope) {}
  }

  function NewID(e: Event): Option<Uuid> {
    match e
    case Own(turn) => Some(turn.id)
    case Other(step) => if step.EndpointCreated? then Some(step.endpoint) else None
  }

  /** Generated ids are new: not in the tables, and never handed out twice. */
  ghost predicate FreshIDs(t: Tables, events: seq<Event>) {
    && (forall i :: 0 <= i < |events| && NewID(events[i]).Some? ==> NewID(events[i]).value !in t.endpoints)
    && (forall i, j :: 0 <= i < j < |events| && NewID(events[i]).Some? ==> NewID(events[i]) != NewID(events[j]))
  }

  ghost predicate KeepsEndpoints(events: seq<Event>) {
    forall e <- events :: e.Own? || (!e.step.EndpointDeleted? && !e.step.EndpointUpdated?)
  }

  /** Every row is an old one or carries an id handed out along the way. */
  ghost predicate IDsFrom(t: Tables, t': Tables, events: seq<Event>) {
    forall e <- t'.endpoints :: e in t.endpoints || exists i :: 0 <= i < |events| && NewID(events[i]) == Some(e)
  }

  lemma NextIDIsNew(t: Tables, t': Tables, events: seq<Event>)
    requires events != [] && FreshIDs(t, events) && IDsFrom(t, t', events[..|events| - 1])
    ensures NewID(events[|events| - 1]).Some? ==> NewID(events[|events| - 1]).value !in t'.endpoints
  {
  }

  lemma IDsFromMore(t: Tables, t': Tables, t'': Tables, events: seq<Event>)
    requires events != [] && IDsFrom(t, t', events[..|events| - 1])
    requires forall e <- t''.endpoints :: e in t'.endpoints || NewID(events[|events| - 1]) == Some(e)
    ensures IDsFrom(t, t'', events)
  {
    var front := events[..|events| - 1];
    forall e | e in t''.endpoints
      ensures e in t.endpoints || exists i :: 0 <= i < |events| && NewID(events[i]) == Some(e)
    {
      if e in t'.endpoints && e !in t.endpoints {
        var i :| 0 <= i < |front| && NewID(front[i]) == Some(e);
        assert events[i] == front[i];
      }
    }
  }

  lemma TurnIDs(t: Tables, c: Import, turn: Turn)
    ensures forall e <- ImportOne(t, c, turn).0.endpoints :: e in t.endpoints || e == turn.id
  {
    hide ValidEndpoint, ValidScope, RouteTaken;
  }

  /**
   * An import interleaved with any transactions that neither delete nor edit endpoints, other imports
   * included: the unique index holds throughout, no live route is lost, every operation handled so far has
   * its route live, and created and skipped always add up to the operations handled.
   */
  lemma {:induction false} ImportAmongOthers(t: Tables, scope: string, ops: seq<Operation>, events: seq<Event>)
    requires RouteRowsOk(t) && Trim(scope) == scope && FreshIDs(t, events) && KeepsEndpoints(events)
    ensures var (t', c) := ImportRun(t, Begun(t, scope, ops), events);
            && ImportOk(t, t', c) && (c.scope, c.ops) == (scope, ops) && IDsFrom(t, t', events)
            && (Over(c) && c.failed.None? ==> Parsed(ops) <= Routes(t', scope) && c.created + c.skipped == |ops|)
  {
    hide Routes, RouteRowsOk, ImportOne, Apply, KeyRoute, Trim, IDsFrom, FreshIDs, ListedRoutes;
    if events == [] {
      BegunOk(t, scope, ops);
      NoNewIDs(t);
    } else {
      var front, last := events[..|events| - 1], events[|events| - 1];
      FreshFront(t, events);
      ImportAmongOthers(t, scope, ops, front);
      var (t', c') := ImportRun(t, Begun(t, scope, ops), front);
      NextIDIsNew(t, t', events);
      assert last in events;
      match last {
        case Own(turn) =>
          OneTurnKeeps(t, t', c', turn);
          TurnIDs(t', c', turn);
        case Other(step) =>
          RoutesKept(t', step);
          RoutesStay(t', step, scope);
      }
      IDsFromMore(t, t', ImportRun(t, Begun(t, scope, ops), events).0, events);
    }
    var c := ImportRun(t, Begun(t, scope, ops), events).1;
    assert c.next == |ops| ==> c.ops[..c.next] == ops;
  }

  lemma NoNewIDs(t: Tables)
    ensures IDsFrom(t, t, [])
  {
  }

  lemma FreshFront(t: Tables, events: seq<Event>)
    requires events != [] && FreshIDs(t, events) && KeepsEndpoints(events)
    ensures FreshIDs(t, events[..|events| - 1]) && KeepsEndpoints(events[..|events| - 1])
  {
  }

  /**
   * An import on its own: the live routes are the old ones and those of the operations handled, created
   * is exactly the number of new routes, and no row that was there is changed, here or in another scope.
   */
  lemma {:induction false} ImportExact(t: Tables, scope: string, ops: seq<Operation>, events: seq<Event>)
    requires RouteRowsOk(t) && Trim(scope) == scope && FreshIDs(t, events) && forall e <- events :: e.Own?
    ensures var (t', c) := ImportRun(t, Begun(t, scope, ops), events);
            && c.next <= |ops| && c.created + c.skipped == c.next && RouteRowsOk(t')
            && Routes(t', scope) == Routes(t, scope) + Parsed(ops[..c.next])
            && Grew(t, t', scope, c.created)
            && (Over(c) && c.failed.None? ==> ops[..c.next] == ops)
  {
    hide Routes, RouteRowsOk, ImportOne, KeyRoute, Trim, IDsFrom, FreshIDs, Parsed, Grew, ListedRoutes;
    ImportAmongOthers(t, scope, ops, events);
    if events == [] {
      GrewNot(t, scope);
    } else {
      var front, last := events[..|events| - 1], events[|events| - 1];
      FreshFront(t, events);
      ImportExact(t, scope, ops, front);
      var (t', c') := ImportRun(t, Begun(t, scope, ops), front);
      ImportAmongOthers(t, scope, ops, front);
      NextIDIsNew(t, t', events);
      assert last in events;
      OneTurnKeeps(t, t', c', last.turn);
      var (t2, c2) := ImportOne(t', c', last.turn);
      GrewTwice(t, t', t2, scope, c'.created, c2.created - c'.created);
      assert c'.ops == ops && c'.scope == scope;
      ParsedGrows(ops, c'.next, c2.next);
      SetsMeet(Routes(t, scope), Parsed(ops[..c'.next]), Parsed(ops[..c2.next]), Routes(t', scope), Routes(t2, scope));
    }
  }

  lemma SetsMeet(first: set<Route>, some: set<Route>, more: set<Route>, between: set<Route>, now: set<Route>)
    requires between == first + some && some <= more && now - more <= between && first <= now && more <= now
    ensures now == first + more
  {
    assert forall r <- now :: r in now - more || r in more;
  }

  lemma GrewNot(t: Tables, scope: string)
    ensures Grew(t, t, scope, 0)
  {
  }

  lemma GrewTwice(a: Tables, b: Tables, c: Tables, scope: string, m: int, n: int)
    requires Grew(a, b, scope, m) && Grew(b, c, scope, n)
    ensures Grew(a, c, scope, m + n)
  {
    hide Routes;
  }

  lemma ParsedGrows(ops: seq<Operation>, i: nat, j: nat)
    requires i <= j <= |ops|
    ensures Parsed(ops[..i]) <= Parsed(ops[..j])
  {
    forall op | op in ops[..i] ensures op in ops[..j] {
      var k :| 0 <= k < i && ops[k] == op;
      assert ops[..j][k] == op;
    }
  }

  /** What the parser has checked of every operation, and the service of the scope. */
  ghost predicate Importable(t: Tables, scope: string, ops: seq<Operation>) {
    && ValidScope(scope) == Success(scope) && ScopeError(t, scope).None?
    && forall op <- ops :: ValidEndpoint(EndpointFor(scope, op)).Success?
  }

  /** Importing a document whose routes are all live creates nothing, fails nowhere and changes nothing. */
  lemma {:induction false} ReimportCreatesNothing(t: Tables, scope: string, ops: seq<Operation>, events: seq<Event>)
    requires Importable(t, scope, ops) && Parsed(ops) <= Routes(t, scope) && |events| <= |ops|
    requires forall e <- events :: e.Own? && !e.turn.fault
    ensures ImportRun(t, Begun(t, scope, ops), events) ==
            (t, Begun(t, scope, ops).(next := |events|, skipped := |events|))
  {
    hide ListedRoutes, CreateEndpoint, Routes, ValidScope, ScopeError, ValidEndpoint;
    if events != [] {
      var front, last := events[..|events| - 1], events[|events| - 1];
      ReimportCreatesNothing(t, scope, ops, front);
      assert last in events && ops[|front|] in ops;
      LiveIsDuplicate(t, last.turn.id, scope, ops[|front|]);
    }
  }

  lemma LiveIsDuplicate(t: Tables, id: Uuid, scope: string, op: Operation)
    requires ValidScope(scope) == Success(scope) && ScopeError(t, scope).None?
    requires ValidEndpoint(EndpointFor(scope, op)).Success? && RouteOf(op) in Routes(t, scope)
    ensures CreateEndpoint(t, id, EndpointFor(scope, op)) == Failure(AlreadyExists)
  {
    ValidIsNormal(EndpointFor(scope, op));
    hide ValidScope, ValidEndpoint, Trim, Upper;
    assert EndpointFor(scope, op).(scope := scope) == EndpointFor(scope, op);
  }

  /** After an import that failed part-way, a second one that ends reaches the routes one import would have reached. */
  lemma PartialThenComplete(t: Tables, scope: string, ops: seq<Operation>, first: seq<Event>, second: seq<Event>)
    requires RouteRowsOk(t) && Trim(scope) == scope
    requires (forall e <- first :: e.Own?) && (forall e <- second :: e.Own?)
    requires FreshIDs(t, first) && FreshIDs(ImportRun(t, Begun(t, scope, ops), first).0, second)
    ensures var t1 := ImportRun(t, Begun(t, scope, ops), first).0;
            var (t2, c) := ImportRun(t1, Begun(t1, scope, ops), second);
            Over(c) && c.failed.None? ==>
              Routes(t2, scope) == Routes(t, scope) + Parsed(ops) && RouteRowsOk(t2) && c.created + c.skipped == |ops|
  {
    hide Routes, RouteRowsOk, ImportRun, Trim, FreshIDs, Grew, Parsed, ListedRoutes;
    ImportExact(t, scope, ops, first);
    var (t1, c1) := ImportRun(t, Begun(t, scope, ops), first);
    ImportExact(t1, scope, ops, second);
    ParsedGrows(ops, c1.next, |ops|);
    assert ops[..|ops|] == ops;
  }

  // ---- one document, imported twice --------------------------------------------------------

  lemma AcceptedInScope(scope: string, op: Operation)
    requires Acceptable(op)
    ensures ValidEndpoint(EndpointFor(scope, op)).Success?
  {
    hide Trim, Upper, EndpointMethod;
  }

  /** What the parser hands on, the import can create. */
  lemma ParsedIsImportable(t: Tables, scope: string, d: Document, clean: string -> string, ops: seq<Operation>)
    requires ValidScope(scope) == Success(scope) && ScopeError(t, scope).None? && ParsesTo(d, clean, ops)
    ensures Importable(t, scope, ops)
  {
    hide Acceptable, OperationAt, ValidEndpoint, ValidScope, ScopeError, OperationLe;
    forall op | op in ops ensures ValidEndpoint(EndpointFor(scope, op)).Success? {
      var p :| p in Places(d) && op == OperationAt(d, clean, p);
      AcceptedInScope(scope, op);
    }
  }

  lemma ParsedAlike(a: seq<Operation>, b: seq<Operation>)
    requires forall op :: op in a <==> op in b
    ensures Parsed(a) == Parsed(b)
  {
    hide RouteOf;
    forall r ensures r in Parsed(a) <==> r in Parsed(b) {
      if r in Parsed(a) {
        var op :| op in a && r == RouteOf(op);
        assert op in b;
      }
      if r in Parsed(b) {
        var op :| op in b && r == RouteOf(op);
        assert op in a;
      }
    }
  }

  /**
   * The same document twice: after an import that went through, importing the document again, in whatever
   * order it is walked this time, creates nothing, skips every operation and changes nothing.
   */
  lemma ImportTwice(
    t: Tables, scope: string, d: Document, clean: string -> string, ops: seq<Operation>, again: seq<Operation>,
    first: seq<Event>, second: seq<Event>)
    requires RouteRowsOk(t) && ValidScope(scope) == Success(scope) && ScopeError(t, scope).None?
    requires ParsesTo(d, clean, ops) && ParsesTo(d, clean, again)
    requires (forall e <- first :: e.Own?) && FreshIDs(t, first)
    requires (forall e <- second :: e.Own? && !e.turn.fault) && |second| == |again|
    requires var c := ImportRun(t, Begun(t, scope, ops), first).1; Over(c) && c.failed.None?
    ensures var t' := ImportRun(t, Begun(t, scope, ops), first).0;
            var c' := ImportRun(t', Begun(t', scope, again), second).1;
            && ImportRun(t', Begun(t', scope, again), second).0 == t'
            && Over(c') && c'.failed.None? && c'.created == 0 && c'.skipped == |again| == |ops|
  {
    hide Routes, RouteRowsOk, ImportRun, Trim, Blank, FreshIDs, Parsed, ListedRoutes, ParsesTo, Importable;
    ScopeTrimmed(scope);
    ImportExact(t, scope, ops, first);
    var (t', c) := ImportRun(t, Begun(t, scope, ops), first);
    ParsesAlike(d, clean, ops, again);
    ParsedAlike(ops, again);
    ParsedIsImportable(t', scope, d, clean, again);
    ReimportCreatesNothing(t', scope, again, second);
  }

  lemma ScopeTrimmed(scope: string)
    requires ValidScope(scope) == Success(scope)
    ensures Trim(scope) == scope
  {
  }

  // ---- the rows an import creates ----------------------------------------------------------

  /** The row of an operation: enabled, its text trimmed, its method in capitals. */
  ghost predicate RowOfOperation(row: EndpointRow, scope: string, op: Operation) {
    row == EndpointRow(
      scope, Trim(op.controller), Upper(Trim(op.method_)), Trim(op.path), Trim(op.summary), true, false)
  }

  ghost predicate RowsOfOperations(t: Tables, t': Tables, scope: string, ops: seq<Operation>) {
    forall e <- t'.endpoints :: e !in t.endpoints ==> exists op <- ops :: RowOfOperation(t'.endpoints[e], scope, op)
  }

  lemma CreatedRow(t: Tables, id: Uuid, scope: string, op: Operation)
    requires Trim(scope) == scope && CreateEndpoint(t, id, EndpointFor(scope, op)).Success?
    ensures var t' := CreateEndpoint(t, id, EndpointFor(scope, op)).value;
            id in t'.endpoints && t'.endpoints == t.endpoints[id := t'.endpoints[id]]
            && RowOfOperation(t'.endpoints[id], scope, op)
  {
    hide Trim, Upper, EndpointMethod, Blank, RouteTaken;
  }

  /** Every row an import adds is the enabled row of one of its operations. */
  lemma {:induction false} ImportedRows(t: Tables, scope: string, ops: seq<Operation>, events: seq<Event>)
    requires Trim(scope) == scope && forall e <- events :: e.Own?
    ensures var (t', c) := ImportRun(t, Begun(t, scope, ops), events);
            && (c.scope, c.ops) == (scope, ops) && t.endpoints.Keys <= t'.endpoints.Keys
            && RowsOfOperations(t, t', scope, ops)
  {
    hide Trim, CreateEndpoint, KeyRoute, ListedRoutes, RowOfOperation;
    if events != [] {
      var front, last := events[..|events| - 1], events[|events| - 1];
      ImportedRows(t, scope, ops, front);
      assert last in events;
      var (t', c') := ImportRun(t, Begun(t, scope, ops), front);
      if !Over(c') && CreateEndpoint(t', last.turn.id, EndpointFor(scope, ops[c'.next])).Success? {
        CreatedRow(t', last.turn.id, scope, ops[c'.next]);
        assert ops[c'.next] in ops;
      }
    }
  }

  // ---- what the listing saves --------------------------------------------------------------

  lemma ListedAsStored(t: Tables, scope: string)
    requires RouteRowsOk(t)
    ensures ListedRoutes(t, scope) == Routes(t, scope)
  {
    hide Trim, Upper;
    forall r | r in Routes(t, scope) ensures KeyRoute(r) == r {
      var e :| e in t.endpoints && RouteIn(t, e, scope) && r == (t.endpoints[e].method_, t.endpoints[e].path);
      NormalKey(t.endpoints[e]);
    }
  }

  /**
   * Operations whose routes were listed are skipped without an insert: they need no fresh id, no working
   * insert and no active scope.
   */
  lemma {:induction false} ListedNeedNoInsert(t: Tables, scope: string, ops: seq<Operation>, events: seq<Event>)
    requires RouteRowsOk(t) && |events| <= |ops| && forall e <- events :: e.Own?
    requires forall op <- ops :: (op.method_, op.path) in Routes(t, scope)
    ensures ImportRun(t, Begun(t, scope, ops), events) ==
            (t, Begun(t, scope, ops).(next := |events|, skipped := |events|))
  {
    ListedAsStored(t, scope);
    hide ListedRoutes, CreateEndpoint, Routes, RouteRowsOk;
    if events != [] {
      var front, last := events[..|events| - 1], events[|events| - 1];
      ListedNeedNoInsert(t, scope, ops, front);
      assert last in events && ops[|front|] in ops;
    }
  }
}
