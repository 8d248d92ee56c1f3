/** swagger.go: from a decoded Swagger or OpenAPI document to its operations, in order. */
module SwaggerParse {
  import opened Wrappers
  import opened Text
  import opened Sorting
  import opened Tables
  import opened Rbac

  /** One HTTP operation of a parsed document; the path may still carry surrounding space. */
  datatype Operation = Operation(controller: string, method_: string, path: string, summary: string)

  /** The row an operation is imported as. */
  function EndpointFor(scope: string, op: Operation): EndpointRow {
    EndpointRow(scope, op.controller, op.method_, op.path, op.summary, true, false)
  }

  datatype DocumentOperation = DocumentOperation(tags: seq<string>, operationID: string, summary: string)

  /** A path item: the operations of the eight methods it defines. */
  type PathItem = item: map<string, DocumentOperation> | forall m <- item :: EndpointMethod(m)

  /** A decoded document; of each server, the path of its URL where that can be parsed. */
  datatype Document = Document(
    swagger: string, openAPI: string, basePath: string, servers: seq<Option<string>>, title: string,
    paths: map<string, PathItem>)

  predicate Supported(d: Document) {
    d.swagger == "2.0" || "3." <= d.openAPI
  }

  function BasePathOf(d: Document): string {
    var given := Trim(d.basePath);
    var path := if given == "" && d.servers != [] && d.servers[0].Some? then d.servers[0].value else given;
    if path == "/" then "" else path
  }

  /** strings.Trim with a cutset. */
  function TrimChars(s: string, cutset: string): string {
    if s != "" && s[0] in cutset then TrimChars(s[1..], cutset)
    else if s != "" && s[|s| - 1] in cutset then TrimChars(s[..|s| - 1], cutset)
    else s
  }

  // ---- controllers -------------------------------------------------------------------------

  const MAX_CONTROLLER := 200

  /** unicode.ToLower as far as it reaches ASCII; whatever stays outside ASCII is replaced next. */
  function LowerChar(c: char): char {
    if 'A' <= c <= 'Z' then c - 'A' + 'a' else if c == '\U{0130}' then 'i' else if c == '\U{212A}' then 'k' else c
  }

  function Lower(s: string): string {
    if s == "" then "" else Lower(s[..|s| - 1]) + [LowerChar(s[|s| - 1])]
  }

  /** What the pattern keeps: [a-z0-9._-]. */
  predicate Plain(c: char) {
    'a' <= c <= 'z' || '0' <= c <= '9' || c in "._-"
  }

  /** Each run of other characters becomes one dash. */
  function Dashed(s: string): string {
    if s == "" then ""
    else
      var front, last := Dashed(s[..|s| - 1]), s[|s| - 1];
      if Plain(last) then front + [last]
      else if |s| >= 2 && !Plain(s[|s| - 2]) then front
      else front + ['-']
  }

  function Sanitized(s: string): string {
    var value := TrimChars(Dashed(Lower(Trim(s))), "-._");
    if value == "" then "default" else if |value| > MAX_CONTROLLER then value[..MAX_CONTROLLER] else value
  }

  /** The first field of an operation id between the separators. */
  function FirstField(s: string): string {
    if s == "" then ""
    else if s[0] in "_./:-" then FirstField(s[1..])
    else FieldAt(s)
  }

  function FieldAt(s: string): string {
    if s == "" || s[0] in "_./:-" then "" else [s[0]] + FieldAt(s[1..])
  }

  function ControllerOf(op: DocumentOperation, title: string): string {
    if op.tags != [] && !Blank(op.tags[0]) then Sanitized(op.tags[0])
    else if !Blank(op.operationID) then
      var field := FirstField(op.operationID);
      if field == "" then "default" else Sanitized(field)
    else Sanitized(title)
  }

  ghost predicate AllPlain(s: string) {
    forall c <- s :: Plain(c)
  }

  lemma {:induction false} DashedIsPlain(s: string)
    ensures AllPlain(Dashed(s))
  {
    if s != "" {
      DashedIsPlain(s[..|s| - 1]);
    }
  }

  lemma {:induction false} TrimCharsKeeps(s: string, cutset: string)
    requires AllPlain(s)
    ensures AllPlain(TrimChars(s, cutset))
  {
    if s != "" && s[0] in cutset {
      TrimCharsKeeps(s[1..], cutset);
    } else if s != "" && s[|s| - 1] in cutset {
      TrimCharsKeeps(s[..|s| - 1], cutset);
    }
  }

  lemma SanitizedIsPlain(s: string)
    ensures AllPlain(Sanitized(s)) && 0 < |Sanitized(s)| <= MAX_CONTROLLER
  {
    var dashed := Dashed(Lower(Trim(s)));
    DashedIsPlain(Lower(Trim(s)));
    TrimCharsKeeps(dashed, "-._");
    hide Dashed, Lower, Trim, TrimChars;
  }

  /** Whatever the document says, the controller is one that an endpoint accepts as it is. */
  lemma {:induction false} ControllerIsValid(op: DocumentOperation, title: string)
    ensures var c := ControllerOf(op, title); 0 < |c| <= MAX_CONTROLLER && Trim(c) == c
  {
    var c := ControllerOf(op, title);
    hide FirstField, Sanitized;
    if op.tags != [] {
      SanitizedIsPlain(op.tags[0]);
    }
    SanitizedIsPlain(FirstField(op.operationID));
    SanitizedIsPlain(title);
    hide Blank;
    PlainIsTrimmed(c);
  }

  lemma PlainIsTrimmed(c: string)
    requires AllPlain(c)
    ensures Trim(c) == c
  {
    assert c != "" ==> c[0] in c && c[|c| - 1] in c;
    TrimIsTrimmed(c);
  }

  // ---- operations --------------------------------------------------------------------------

  /** joinSwaggerPath; `clean` is path.Clean. */
  function JoinedPath(clean: string -> string, basePath: string, route: string): string {
    clean("/" + TrimChars(basePath, "/") + "/" + Trim(route))
  }

  function SummaryOf(op: DocumentOperation): string {
    if Blank(op.summary) then Trim(op.operationID) else Trim(op.summary)
  }

  type Place = (string, string)

  /** The operations of the document, by route and method. */
  function Places(d: Document): set<Place> {
    set route, m | route in d.paths && m in d.paths[route] :: (route, m)
  }

  function OperationAt(d: Document, clean: string -> string, p: Place): Operation
    requires p in Places(d)
  {
    var op := d.paths[p.0][p.1];
    Operation(ControllerOf(op, d.title), p.1, JoinedPath(clean, BasePathOf(d), p.0), SummaryOf(op))
  }

  /** validateSwaggerOperation. */
  predicate Acceptable(op: Operation) {
    ValidEndpoint(EndpointFor("", op)).Success?
  }

  predicate AllAcceptable(d: Document, clean: string -> string) {
    forall p <- Places(d) :: Acceptable(OperationAt(d, clean, p))
  }

  /** Ordered by path, then method. */
  predicate OperationLe(a: Operation, b: Operation) {
    if a.path != b.path then LexLe(a.path, b.path) else LexLe(a.method_, b.method_)
  }

  lemma OperationOrder()
    ensures TotalPreorder(OperationLe)
  {
    LexOrder();
    hide LexLe;
  }

  /** A list holds the document's operations, as many as there are, and nothing else. */
  ghost predicate Holds(d: Document, clean: string -> string, ops: seq<Operation>) {
    && |ops| == |Places(d)|
    && (forall p <- Places(d) :: OperationAt(d, clean, p) in ops)
    && (forall op <- ops :: exists p <- Places(d) :: op == OperationAt(d, clean, p))
  }

  /** What a document parses to: all its operations, each acceptable, in order. */
  ghost predicate ParsesTo(d: Document, clean: string -> string, ops: seq<Operation>) {
    && Supported(d) && ops != [] && AllAcceptable(d, clean)
    && Holds(d, clean, ops) && Ordered(ops, OperationLe)
  }

  /**
   * parseSwaggerOperations: two nested loops over the document in whatever order its maps give, then a sort
   * in place. It refuses an unsupported version, an operation no endpoint accepts, or no operation at all.
   */
  method Parse(d: Document, clean: string -> string) returns (result: Result<seq<Operation>, Error>)
    ensures result.Success? <==> Supported(d) && Places(d) != {} && AllAcceptable(d, clean)
    ensures if result.Success? then ParsesTo(d, clean, result.value) else result == Failure(InvalidArgument)
  {
    hide OperationAt, Acceptable, OperationLe, Places, Collected, Ordered;
    if !Supported(d) {
      return Failure(InvalidArgument);
    }
    var found := [];
    var routes := d.paths.Keys;
    NothingCollected(d, clean);
    while routes != {}
      invariant routes <= d.paths.Keys
      invariant forall p <- DoneOutside(d, routes) :: Acceptable(OperationAt(d, clean, p))
      invariant Collected(d, clean, DoneOutside(d, routes), found)
    {
      var route :| route in routes;
      var ok, more := ParseRoute(d, clean, route, DoneOutside(d, routes), found);
      if !ok {
        return Failure(InvalidArgument);
      }
      RouteDone(d, routes, route);
      found := more;
      routes := routes - {route};
    }
    AllDone(d, clean, found);
    if found == [] {
      return Failure(InvalidArgument);
    }
    var operations := new Operation[|found|](i requires 0 <= i < |found| => found[i]);
    assert operations[..] == found;
    SortInPlace(operations, OperationLe);
    SortedHolds(d, clean, found);
    return Success(operations[..]);
  }

  /** The inner loop: the operations of one route. */
  method ParseRoute(d: Document, clean: string -> string, route: string, ghost done: set<Place>, found: seq<Operation>)
    returns (ok: bool, more: seq<Operation>)
    requires route in d.paths && forall p <- done :: p.0 != route
    requires Collected(d, clean, done, found)
    ensures ok <==> forall p <- DoneAt(d, route, {}) :: Acceptable(OperationAt(d, clean, p))
    ensures ok ==> Collected(d, clean, done + DoneAt(d, route, {}), more)
  {
    hide OperationAt, Acceptable, Collected;
    more := found;
    var methods := d.paths[route].Keys;
    assert done + DoneAt(d, route, methods) == done;
    while methods != {}
      invariant methods <= d.paths[route].Keys
      invariant forall p <- DoneAt(d, route, methods) :: Acceptable(OperationAt(d, clean, p))
      invariant Collected(d, clean, done + DoneAt(d, route, methods), more)
    {
      var m :| m in methods;
      var op := OperationAt(d, clean, (route, m));
      if !Acceptable(op) {
        assert (route, m) in DoneAt(d, route, {});
        return false, found;
      }
      CollectedMore(d, clean, done + DoneAt(d, route, methods), more, (route, m));
      assert done + DoneAt(d, route, methods - {m}) == done + DoneAt(d, route, methods) + {(route, m)};
      more := more + [op];
      methods := methods - {m};
    }
    return true, more;
  }

  lemma NothingCollected(d: Document, clean: string -> string)
    ensures DoneOutside(d, d.paths.Keys) == {} && Collected(d, clean, {}, [])
  {
  }

  lemma RouteDone(d: Document, routes: set<string>, route: string)
    requires route in routes
    ensures DoneOutside(d, routes - {route}) == DoneOutside(d, routes) + DoneAt(d, route, {})
    ensures DoneAt(d, route, {}) <= Places(d)
  {
  }

  lemma AllDone(d: Document, clean: string -> string, found: seq<Operation>)
    requires Collected(d, clean, DoneOutside(d, {}), found)
    ensures DoneOutside(d, {}) == Places(d) && (found == [] <==> Places(d) == {})
  {
    assert DoneOutside(d, {}) == Places(d);
  }

  /** The operations of every route but these. */
  ghost function DoneOutside(d: Document, routes: set<string>): set<Place> {
    set p | p in Places(d) && p.0 !in routes
  }

  /** The operations of one route but these methods. */
  ghost function DoneAt(d: Document, route: string, methods: set<string>): set<Place> {
    set p | p in Places(d) && p.0 == route && p.1 !in methods
  }

  ghost predicate Collected(d: Document, clean: string -> string, done: set<Place>, found: seq<Operation>) {
    && done <= Places(d) && |found| == |done|
    && (forall p <- done :: OperationAt(d, clean, p) in found)
    && (forall op <- found :: exists p <- done :: op == OperationAt(d, clean, p))
  }

  lemma CollectedMore(d: Document, clean: string -> string, done: set<Place>, found: seq<Operation>, p: Place)
    requires Collected(d, clean, done, found) && p in Places(d) && p !in done
    ensures Collected(d, clean, done + {p}, found + [OperationAt(d, clean, p)])
  {
    hide OperationAt;
    var op := OperationAt(d, clean, p);
    assert |done + {p}| == |done| + 1;
    forall x | x in found + [op] ensures exists q <- done + {p} :: x == OperationAt(d, clean, q) {
      if x in found {
        var q :| q in done && x == OperationAt(d, clean, q);
        assert q in done + {p};
      } else {
        assert p in done + {p};
      }
    }
  }

  lemma SortedHolds(d: Document, clean: string -> string, found: seq<Operation>)
    requires Collected(d, clean, Places(d), found)
    ensures Holds(d, clean, Sort(found, OperationLe)) && Ordered(Sort(found, OperationLe), OperationLe)
    ensures found != [] ==> Sort(found, OperationLe) != []
  {
    hide OperationAt, OperationLe;
    OperationOrder();
    SortSorts(found, OperationLe);
    var sorted := Sort(found, OperationLe);
    SameElements(sorted, found);
    assert |sorted| == |multiset(sorted)| == |multiset(found)| == |found|;
  }

  /** The order in which the document's maps are walked does not change which operations are found. */
  lemma ParsesAlike(d: Document, clean: string -> string, a: seq<Operation>, b: seq<Operation>)
    requires ParsesTo(d, clean, a) && ParsesTo(d, clean, b)
    ensures |a| == |b| && forall op :: op in a <==> op in b
  {
    hide OperationAt, OperationLe;
  }

  // ---- what the parts mean -----------------------------------------------------------------

  ghost predicate AllIn(s: string, cutset: string) {
    forall i :: 0 <= i < |s| ==> s[i] in cutset
  }

  ghost predicate NoOuter(s: string, cutset: string) {
    s == "" || (s[0] !in cutset && s[|s| - 1] !in cutset)
  }

  /** strings.Trim removes exactly the outer characters of the cutset. */
  lemma {:induction false} TrimCharsMeaning(left: string, s: string, right: string, cutset: string)
    requires AllIn(left, cutset) && AllIn(right, cutset) && NoOuter(s, cutset)
    ensures TrimChars(left + s + right, cutset) == s
    decreases |left| + |right|
  {
    var whole := left + s + right;
    if left != "" {
      assert whole[0] == left[0] && whole[1..] == left[1..] + s + right;
      TrimCharsMeaning(left[1..], s, right, cutset);
    } else if right != "" {
      var front := right[..|right| - 1];
      assert whole[|whole| - 1] == right[|right| - 1] && whole[..|whole| - 1] == left + s + front;
      if s != "" {
        assert whole[0] == s[0];
        TrimCharsMeaning(left, s, front, cutset);
      } else {
        assert whole == right && whole[1..] == "" + "" + right[1..] && whole[0] == right[0];
        TrimCharsMeaning("", "", right[1..], cutset);
      }
    } else {
      assert whole == s;
    }
  }

  /**
   * The route of an operation: base path and route joined by one slash under the root, the base without its
   * outer slashes, the route without its outer spaces, and the whole cleaned.
   */
  lemma JoinedMeaning(clean: string -> string, left: string, base: string, right: string, route: string)
    requires AllIn(left, "/") && AllIn(right, "/") && NoOuter(base, "/")
    ensures JoinedPath(clean, left + base + right, route) == clean("/" + base + "/" + Trim(route))
  {
    TrimCharsMeaning(left, base, right, "/");
    hide Trim, TrimChars;
  }

  /** The base path is the document's own, or else the path of its first server; a lone slash is no base path. */
  lemma BasePathMeaning(d: Document)
    ensures !AllSpace(d.basePath) ==> BasePathOf(d) == if Trim(d.basePath) == "/" then "" else Trim(d.basePath)
    ensures AllSpace(d.basePath) && d.servers != [] && d.servers[0].Some? ==>
              BasePathOf(d) == if d.servers[0].value == "/" then "" else d.servers[0].value
    ensures AllSpace(d.basePath) && (d.servers == [] || d.servers[0].None?) ==> BasePathOf(d) == ""
  {
    BlankIsSpace(d.basePath);
    hide Trim, AllSpace;
  }

  lemma LowerStep(s: string, c: char)
    ensures Lower(s + [c]) == Lower(s) + [LowerChar(c)]
  {
    hide LowerChar;
    var longer := s + [c];
    assert longer[..|longer| - 1] == s;
  }

  lemma DashedStep(s: string, c: char)
    ensures Dashed(s + [c]) == if Plain(c) then Dashed(s) + [c]
                               else if s != "" && !Plain(s[|s| - 1]) then Dashed(s) else Dashed(s) + ['-']
  {
    hide Plain;
    var longer := s + [c];
    assert longer[..|longer| - 1] == s && (s != "" ==> longer[|longer| - 2] == s[|s| - 1]);
  }

  lemma PlainChars(c: char)
    ensures Plain(c) <==> 'a' <= c <= 'z' || '0' <= c <= '9' || c == '.' || c == '_' || c == '-'
    ensures Plain(c) ==> LowerChar(c) == c
    ensures LowerChar(c) == if 'A' <= c <= 'Z' then (c as int + 32) as char
                            else if c as int == 0x130 then 'i' else if c as int == 0x212A then 'k' else c
  {
  }

  /** Small letters, digits, dots, underscores and dashes stay as they are. */
  lemma {:induction false} PlainStays(s: string)
    requires AllPlain(s)
    ensures Lower(s) == s && Dashed(s) == s
  {
    hide Plain, LowerChar, Lower, Dashed;
    if s == "" {
      NothingToClean();
    } else {
      var front, last := s[..|s| - 1], s[|s| - 1];
      assert last in s && forall c <- front :: c in s;
      PlainStays(front);
      assert s == front + [last];
      LowerStep(front, last);
      DashedStep(front, last);
      PlainChars(last);
    }
  }

  lemma NothingToClean()
    ensures Lower("") == "" && Dashed("") == ""
  {
  }

  ghost predicate PlainName(s: string) {
    AllPlain(s) && 0 < |s| <= 200 && NoOuter(s, "-._")
  }

  lemma PlainIsSanitized(s: string)
    requires PlainName(s)
    ensures Sanitized(s) == s
  {
    PlainIsTrimmed(s);
    PlainStays(s);
    assert "" + s + "" == s;
    TrimCharsMeaning("", s, "", "-._");
    hide Trim, Lower, Dashed, TrimChars;
  }

  /** A capital becomes a small letter; any run of other characters becomes one dash. */
  lemma SanitizingSteps(s: string, c: char)
    ensures Lower(s + [c]) == Lower(s) + [LowerChar(c)]
    ensures LowerChar(c) == if 'A' <= c <= 'Z' then (c as int + 32) as char
                            else if c as int == 0x130 then 'i' else if c as int == 0x212A then 'k' else c
    ensures Plain(c) <==> 'a' <= c <= 'z' || '0' <= c <= '9' || c == '.' || c == '_' || c == '-'
    ensures Dashed(s + [c]) == if Plain(c) then Dashed(s) + [c]
                               else if s != "" && !Plain(s[|s| - 1]) then Dashed(s) else Dashed(s) + ['-']
  {
    hide Plain, LowerChar, Lower, Dashed;
    LowerStep(s, c);
    DashedStep(s, c);
    PlainChars(c);
  }

  /** A field that has no separator in it, and what follows it. */
  lemma {:induction false} FirstFieldMeaning(before: string, field: string, after: string)
    requires AllIn(before, "_./:-") && field != "" && forall i :: 0 <= i < |field| ==> field[i] !in "_./:-"
    requires after == "" || after[0] in "_./:-"
    ensures FirstField(before + field + after) == field
    decreases |before|
  {
    var whole := before + field + after;
    if before != "" {
      assert whole[0] == before[0] && whole[1..] == before[1..] + field + after;
      FirstFieldMeaning(before[1..], field, after);
    } else {
      assert whole == field + after && whole[0] == field[0];
      FieldMeaning(field, after);
    }
  }

  lemma {:induction false} FieldMeaning(field: string, after: string)
    requires forall i :: 0 <= i < |field| ==> field[i] !in "_./:-"
    requires after == "" || after[0] in "_./:-"
    ensures FieldAt(field + after) == field
  {
    var whole := field + after;
    if field != "" {
      assert whole[0] == field[0] && whole[1..] == field[1..] + after;
      FieldMeaning(field[1..], after);
      assert field == [field[0]] + field[1..];
    } else {
      assert whole == after;
    }
  }

  /** The first tag names the controller; without one the operation id's first field; without both the title. */
  lemma ControllerMeaning(op: DocumentOperation, title: string, field: string, after: string)
    ensures op.tags != [] && PlainName(op.tags[0]) ==> ControllerOf(op, title) == op.tags[0]
    ensures (op.tags == [] || AllSpace(op.tags[0])) && op.operationID == field + after && PlainName(field)
            && (forall i :: 0 <= i < |field| ==> field[i] !in "_./:-") && (after == "" || after[0] in "_./:-") ==>
              ControllerOf(op, title) == field
    ensures (op.tags == [] || AllSpace(op.tags[0])) && AllSpace(op.operationID) && PlainName(title) ==>
              ControllerOf(op, title) == title
  {
    hide Sanitized, FirstField, AllSpace, Blank, PlainName;
    if op.tags != [] {
      BlankIsSpace(op.tags[0]);
      if PlainName(op.tags[0]) {
        PlainIsSanitized(op.tags[0]);
        PlainNotBlank(op.tags[0], "");
        assert op.tags[0] + "" == op.tags[0];
      }
    }
    BlankIsSpace(op.operationID);
    if PlainName(title) {
      PlainIsSanitized(title);
    }
    if op.operationID == field + after && PlainName(field)
       && (forall i :: 0 <= i < |field| ==> field[i] !in "_./:-") && (after == "" || after[0] in "_./:-")
    {
      PlainNotBlank(field, after);
      PlainIsSanitized(field);
      assert "" + field + after == field + after;
      FirstFieldMeaning("", field, after);
    }
  }

  lemma PlainNotBlank(s: string, after: string)
    requires PlainName(s)
    ensures s != "" && !Blank(s + after)
  {
    BlankIsSpace(s + after);
    assert (s + after)[0] == s[0] && s[0] in s;
  }

  /** The summary, or else the operation id, trimmed. */
  lemma SummaryMeaning(op: DocumentOperation)
    ensures SummaryOf(op) == if AllSpace(op.summary) then Trim(op.operationID) else Trim(op.summary)
  {
    BlankIsSpace(op.summary);
    hide Trim, AllSpace;
  }

  /** Parsed operations go by path, then by method, in dictionary order. */
  lemma {:induction false} ParsedRising(ops: seq<Operation>)
    requires Ordered(ops, OperationLe)
    ensures forall i, j :: 0 <= i < j < |ops| ==> OperationBefore(ops[i], ops[j])
  {
    hide OperationLe;
    forall i, j | 0 <= i < j < |ops| ensures OperationBefore(ops[i], ops[j]) {
      OrderMeaning(ops[i], ops[j]);
    }
  }

  ghost predicate OperationBefore(a: Operation, b: Operation) {
    if a.path != b.path then a.path <= b.path || exists i :: SmallerAt(a.path, b.path, i)
    else a.method_ <= b.method_ || exists i :: SmallerAt(a.method_, b.method_, i)
  }

  lemma OrderMeaning(a: Operation, b: Operation)
    requires OperationLe(a, b)
    ensures OperationBefore(a, b)
  {
    hide LexLe;
    LexMeaning(a.path, b.path);
    LexMeaning(a.method_, b.method_);
  }

  /** Swagger 2.0, or any OpenAPI version that starts with 3 and a dot. */
  lemma SupportedMeaning(d: Document)
    ensures Supported(d) <==> d.swagger == "2.0" || (|d.openAPI| >= 2 && d.openAPI[0] == '3' && d.openAPI[1] == '.')
  {
  }

  ghost predicate IsOperation(
    op: Operation, d: Document, clean: string -> string, route: string, m: string)
    requires route in d.paths && m in d.paths[route]
  {
    && op.method_ == m && op.path == JoinedPath(clean, BasePathOf(d), route)
    && op.controller == ControllerOf(d.paths[route][m], d.title) && op.summary == SummaryOf(d.paths[route][m])
  }

  /** Every method of every route gives one operation, with its own method, path, controller and summary; no others. */
  lemma {:induction false} ParsedOperations(d: Document, clean: string -> string, ops: seq<Operation>)
    requires ParsesTo(d, clean, ops)
    ensures forall route, m :: route in d.paths && m in d.paths[route] ==>
              exists op <- ops :: IsOperation(op, d, clean, route, m)
    ensures forall op <- ops ::
              exists route, m :: route in d.paths && m in d.paths[route] && IsOperation(op, d, clean, route, m)
  {
    hide ControllerOf, JoinedPath, BasePathOf, SummaryOf, Acceptable, OperationLe;
    forall route, m | route in d.paths && m in d.paths[route]
      ensures exists op <- ops :: IsOperation(op, d, clean, route, m)
    {
      assert (route, m) in Places(d);
      assert IsOperation(OperationAt(d, clean, (route, m)), d, clean, route, m);
    }
    forall op | op in ops
      ensures exists route, m :: route in d.paths && m in d.paths[route] && IsOperation(op, d, clean, route, m)
    {
      var p :| p in Places(d) && op == OperationAt(d, clean, p);
      assert IsOperation(op, d, clean, p.0, p.1);
    }
  }
}
