/** How conditions are written to and read from JSON, with the compact leaf form of the design document. */
module ConditionJson {
  import opened Wrappers
  import opened PolicyModel
  import opened Validate

  function OperatorText(op: Operator): string {
    match op
    case Eq => "eq" case Neq => "neq" case In => "in" case NotIn => "not_in"
    case Includes => "contains" case Exists => "exists" case OtherOperator(text) => text
  }

  function ParseOperator(text: string): Operator {
    if text == "eq" then Eq else if text == "neq" then Neq else if text == "in" then In
    else if text == "not_in" then NotIn else if text == "contains" then Includes
    else if text == "exists" then Exists else OtherOperator(text)
  }

  function SourceText(source: Source): string {
    match source
    case FromSubject => "subject" case FromResource => "resource" case FromRequest => "request"
    case FromContext => "context" case Literal => "literal" case OtherSource(text) => text
  }

  function ParseSource(text: string): Source {
    if text == "subject" then FromSubject else if text == "resource" then FromResource
    else if text == "request" then FromRequest else if text == "context" then FromContext
    else if text == "literal" then Literal else OtherSource(text)
  }

  function TypeText(valueType: ValueType): string {
    match valueType
    case StringType => "string" case NumberType => "number" case BooleanType => "boolean"
    case StringListType => "string_list" case NumberListType => "number_list" case OtherValueType(text) => text
  }

  function ParseType(text: string): ValueType {
    if text == "string" then StringType else if text == "number" then NumberType
    else if text == "boolean" then BooleanType else if text == "string_list" then StringListType
    else if text == "number_list" then NumberListType else OtherValueType(text)
  }

  // ---- objects -----------------------------------------------------------------------------

  /** Adds a field unless it is empty, as omitempty does. */
  function Put(fields: map<string, Json>, key: string, value: Json): map<string, Json> {
    if value == JNull then fields else fields[key := value]
  }

  /** Unmarshalling treats a missing field and a null one alike. */
  function Field(fields: map<string, Json>, key: string): Json {
    if key in fields then fields[key] else JNull
  }

  function OrNull(present: bool, value: Json): Json {
    if present then value else JNull
  }

  // ---- writing -----------------------------------------------------------------------------

  function EncodeRef(ref: ValueRef): Json {
    JObject(Put(Put(Put(Put(map[],
      "source", JString(SourceText(ref.source))),
      "path", OrNull(ref.path != [], JString(ref.path))),
      "type", JString(TypeText(ref.valueType))),
      "value", ref.value))
  }

  function LeafFields(leaf: Comparison): map<string, Json> {
    Put(Put(Put(map[],
      "left", EncodeRef(leaf.left)),
      "op", JString(OperatorText(leaf.op))),
      "right", if leaf.right.Some? then EncodeRef(leaf.right.value) else JNull)
  }

  /**
   * Writes a condition. `compact` says, for each node by its path from the root, whether a comparison
   * there is written compactly (left, op and right beside each other) instead of under "comparison".
   */
  function EncodeAt(c: Condition, path: seq<nat>, compact: seq<nat> -> bool): Json
    decreases c, 1
  {
    JObject(NodeFields(
      LeafPart(c.comparison, compact(path)),
      OrNull(c.all != [], JArray(EncodeList(c.all, path + [0], compact))),
      OrNull(c.any != [], JArray(EncodeList(c.any, path + [1], compact))),
      if c.not.Some? then EncodeAt(c.not.value, path + [2], compact) else JNull))
  }

  function LeafPart(comparison: Option<Comparison>, compact: bool): map<string, Json> {
    if comparison.None? then map[]
    else if compact then LeafFields(comparison.value)
    else map["comparison" := JObject(LeafFields(comparison.value))]
  }

  function NodeFields(leaf: map<string, Json>, all: Json, any: Json, not: Json): map<string, Json> {
    Put(Put(Put(leaf, "all", all), "any", any), "not", not)
  }

  function EncodeList(cs: seq<Condition>, path: seq<nat>, compact: seq<nat> -> bool): (js: seq<Json>)
    ensures |js| == |cs|
    decreases cs, 0
  {
    if cs == [] then []
    else EncodeList(cs[..|cs| - 1], path, compact) + [EncodeAt(cs[|cs| - 1], path + [|cs| - 1], compact)]
  }

  /** json.Marshal of a condition: never compact. */
  function Encode(c: Condition): Json {
    EncodeAt(c, [], Never)
  }

  predicate Never(path: seq<nat>) { false }

  // ---- reading -----------------------------------------------------------------------------

  const EMPTY_REF := ValueRef(OtherSource(""), "", OtherValueType(""), JNull)
  const EMPTY_CONDITION := Condition([], [], None, None)

  function DecodeText(j: Json): Option<string> {
    match j case JNull => Some("") case JString(text) => Some(text) case _ => None
  }

  function DecodeRef(j: Json): Option<ValueRef> {
    match j
    case JNull => Some(EMPTY_REF)
    case JObject(fields) =>
      var source := DecodeText(Field(fields, "source"));
      var path := DecodeText(Field(fields, "path"));
      var valueType := DecodeText(Field(fields, "type"));
      if source.None? || path.None? || valueType.None? then None
      else Some(ValueRef(ParseSource(source.value), path.value, ParseType(valueType.value), Field(fields, "value")))
    case _ => None
  }

  /** A pointer field: null leaves it nil. */
  function DecodeRefPointer(j: Json): Option<Option<ValueRef>> {
    if j == JNull then Some(None)
    else var ref := DecodeRef(j); if ref.None? then None else Some(Some(ref.value))
  }

  function DecodeLeafFields(fields: map<string, Json>): Option<Comparison> {
    var left := DecodeRef(Field(fields, "left"));
    var op := DecodeText(Field(fields, "op"));
    var right := DecodeRefPointer(Field(fields, "right"));
    if left.None? || op.None? || right.None? then None
    else Some(Comparison(left.value, ParseOperator(op.value), right.value))
  }

  function DecodeComparison(j: Json): Option<Option<Comparison>> {
    match j
    case JNull => Some(None)
    case JObject(fields) => var leaf := DecodeLeafFields(fields); if leaf.None? then None else Some(Some(leaf.value))
    case _ => None
  }

  /** Condition.UnmarshalJSON; None is an unmarshalling error. */
  function Decode(j: Json): Option<Condition>
    decreases j, 1
  {
    match j
    case JNull => Some(EMPTY_CONDITION)
    case JObject(fields) =>
      var all := if "all" in fields then DecodeList(fields["all"]) else Some([]);
      var any := if "any" in fields then DecodeList(fields["any"]) else Some([]);
      var not := if "not" in fields && fields["not"] != JNull then Decode(fields["not"]) else Some(EMPTY_CONDITION);
      var comparison := DecodeComparison(Field(fields, "comparison"));
      var compactLeaf := DecodeLeafFields(fields);
      if all.None? || any.None? || not.None? || comparison.None? || compactLeaf.None? then None
      else Some(Condition(
        all.value, any.value,
        if Field(fields, "not") == JNull then None else Some(not.value),
        if comparison.value.None? && Field(fields, "left") != JNull then Some(compactLeaf.value) else comparison.value))
    case _ => None
  }

  function DecodeList(j: Json): Option<seq<Condition>>
    decreases j, 2
  {
    match j case JNull => Some([]) case JArray(items) => DecodeItems(items) case _ => None
  }

  function DecodeItems(items: seq<Json>): Option<seq<Condition>>
    decreases items, 0
  {
    if items == [] then Some([])
    else
      var front := DecodeItems(items[..|items| - 1]);
      var last := Decode(items[|items| - 1]);
      if front.None? || last.None? then None else Some(front.value + [last.value])
  }

  // ---- the round trip ----------------------------------------------------------------------

  lemma RefRoundTrip(ref: ValueRef)
    requires ReferenceOk(ref)
    ensures DecodeRef(EncodeRef(ref)) == Some(ref)
  {
  }

  lemma PutThree(k1: string, v1: Json, k2: string, v2: Json, k3: string, v3: Json)
    requires k1 != k2 && k1 != k3 && k2 != k3
    ensures var fields := Put(Put(Put(map[], k1, v1), k2, v2), k3, v3);
            && Field(fields, k1) == v1 && Field(fields, k2) == v2 && Field(fields, k3) == v3
            && fields.Keys <= {k1, k2, k3}
  {
  }

  lemma LeafRoundTrip(leaf: Comparison)
    requires LeafOk(leaf)
    ensures DecodeLeafFields(LeafFields(leaf)) == Some(leaf)
    ensures LeafFields(leaf).Keys <= {"left", "op", "right"}
    ensures Field(LeafFields(leaf), "left") != JNull
  {
    var left, op := EncodeRef(leaf.left), JString(OperatorText(leaf.op));
    var right := if leaf.right.Some? then EncodeRef(leaf.right.value) else JNull;
    assert DecodeRef(left) == Some(leaf.left) by { RefRoundTrip(leaf.left); }
    assert DecodeRefPointer(right) == Some(leaf.right) by {
      if leaf.right.Some? {
        RefRoundTrip(leaf.right.value);
      }
    }
    assert left != JNull && DecodeText(op) == Some(OperatorText(leaf.op))
      && ParseOperator(OperatorText(leaf.op)) == leaf.op;
    hide EncodeRef, DecodeRef, DecodeRefPointer, DecodeText, OperatorText, ParseOperator, Put, Field;
    PutThree("left", left, "op", op, "right", right);
  }

  lemma NodeFieldsRead(leaf: map<string, Json>, all: Json, any: Json, not: Json)
    requires "all" !in leaf && "any" !in leaf && "not" !in leaf
    ensures var fields := NodeFields(leaf, all, any, not);
            && Field(fields, "all") == all && Field(fields, "any") == any && Field(fields, "not") == not
            && DecodeLeafFields(fields) == DecodeLeafFields(leaf)
            && Field(fields, "comparison") == Field(leaf, "comparison") && Field(fields, "left") == Field(leaf, "left")
  {
    var fields := NodeFields(leaf, all, any, not);
    assert forall key | key in ["left", "op", "right", "comparison"] :: Field(fields, key) == Field(leaf, key);
    assert Field(fields, "left") == Field(leaf, "left");
    assert Field(fields, "op") == Field(leaf, "op");
    assert Field(fields, "right") == Field(leaf, "right");
    assert Field(fields, "comparison") == Field(leaf, "comparison");
  }

  /** However it was written, the leaf part of a node gives its comparison back. */
  ghost predicate LeafPartOk(comparison: Option<Comparison>, compact: bool) {
    var leaf := LeafPart(comparison, compact);
    && "all" !in leaf && "any" !in leaf && "not" !in leaf
    && DecodeLeafFields(leaf).Some?
    && DecodeComparison(Field(leaf, "comparison")) == Some(if compact then None else comparison)
    && (Field(leaf, "left") != JNull <==> compact && comparison.Some?)
    && (compact && comparison.Some? ==> DecodeLeafFields(leaf).value == comparison.value)
  }

  lemma CompactLeafRead(leaf: Comparison)
    requires LeafOk(leaf)
    ensures LeafPartOk(Some(leaf), true)
  {
    hide EncodeRef, DecodeRef, LeafFields, DecodeLeafFields;
    LeafRoundTrip(leaf);
    assert "comparison" !in {"left", "op", "right"};
  }

  lemma CanonicalLeafRead(comparison: Option<Comparison>, compact: bool)
    requires comparison.Some? ==> LeafOk(comparison.value) && !compact
    ensures LeafPartOk(comparison, compact)
  {
    hide EncodeRef, LeafFields;
    if comparison.Some? {
      LeafRoundTrip(comparison.value);
    }
    var fields := LeafPart(comparison, compact);
    assert fields.Keys <= {"comparison"};
    assert Field(fields, "left") == Field(fields, "op") == Field(fields, "right") == JNull;
  }

  /** Any mixture of compact and canonical leaves, at any nesting, decodes to the same tree. */
  lemma {:induction false} MixedRoundTrip(c: Condition, path: seq<nat>, compact: seq<nat> -> bool)
    requires WellFormed(c)
    ensures Decode(EncodeAt(c, path, compact)) == Some(c)
    decreases c, 1
  {
    assert forall k <- c.all :: WellFormed(k);
    assert forall k <- c.any :: WellFormed(k);
    hide Decode, DecodeLeafFields, LeafPart, LeafFields, NodeFields, Put;
    var leaf := LeafPart(c.comparison, compact(path));
    var all := OrNull(c.all != [], JArray(EncodeList(c.all, path + [0], compact)));
    var any := OrNull(c.any != [], JArray(EncodeList(c.any, path + [1], compact)));
    var not := if c.not.Some? then EncodeAt(c.not.value, path + [2], compact) else JNull;
    if c.comparison.Some? && compact(path) {
      CompactLeafRead(c.comparison.value);
    } else {
      CanonicalLeafRead(c.comparison, compact(path));
    }
    NodeFieldsRead(leaf, all, any, not);
    assert DecodeList(all) == Some(c.all) by { MixedListRoundTrip(c.all, path + [0], compact); }
    assert DecodeList(any) == Some(c.any) by { MixedListRoundTrip(c.any, path + [1], compact); }
    if c.not.Some? {
      MixedRoundTrip(c.not.value, path + [2], compact);
    }
    DecodeNode(leaf, all, any, not, c);
  }

  /** A node decodes to the condition its four parts decode to. */
  lemma DecodeNode(leaf: map<string, Json>, all: Json, any: Json, not: Json, c: Condition)
    requires DecodeList(all) == Some(c.all) && DecodeList(any) == Some(c.any)
    requires if c.not.Some? then not != JNull && Decode(not) == Some(c.not.value) else not == JNull
    requires var fields := NodeFields(leaf, all, any, not);
             && Field(fields, "all") == all && Field(fields, "any") == any && Field(fields, "not") == not
             && DecodeLeafFields(fields).Some? && DecodeComparison(Field(fields, "comparison")).Some?
             && c.comparison ==
                if DecodeComparison(Field(fields, "comparison")).value.None? && Field(fields, "left") != JNull
                                then Some(DecodeLeafFields(fields).value)
                                else DecodeComparison(Field(fields, "comparison")).value
    ensures Decode(JObject(NodeFields(leaf, all, any, not))) == Some(c)
  {
  }

  lemma {:induction false} MixedListRoundTrip(cs: seq<Condition>, path: seq<nat>, compact: seq<nat> -> bool)
    requires forall k <- cs :: WellFormed(k)
    ensures DecodeItems(EncodeList(cs, path, compact)) == Some(cs)
    decreases cs, 0
  {
    hide Decode, DecodeLeafFields, WellFormed;
    if cs != [] {
      var front, last := cs[..|cs| - 1], cs[|cs| - 1];
      assert last in cs && forall k <- front :: k in cs;
      MixedListRoundTrip(front, path, compact);
      MixedRoundTrip(last, path + [|front|], compact);
      DecodeAppend(EncodeList(front, path, compact), EncodeAt(last, path + [|front|], compact), front, last);
      assert cs == front + [last];
    }
  }

  lemma DecodeAppend(items: seq<Json>, item: Json, front: seq<Condition>, last: Condition)
    requires DecodeItems(items) == Some(front) && Decode(item) == Some(last)
    ensures DecodeItems(items + [item]) == Some(front + [last])
  {
    assert (items + [item])[..|items|] == items;
  }

  /** Reading back what was written gives the same condition, and every compact spelling agrees with it. */
  lemma {:induction false} RoundTrip(c: Condition, compact: seq<nat> -> bool)
    requires WellFormed(c)
    ensures Decode(Encode(c)) == Some(c) == Decode(EncodeAt(c, [], compact))
  {
    MixedRoundTrip(c, [], Never);
    MixedRoundTrip(c, [], compact);
  }

  // ---- the condition columns ---------------------------------------------------------------

  /** The condition column written by save and by SaveVersion. */
  function Store(c: Option<Condition>): Option<Json> {
    if c.None? then None else Some(Encode(c.value))
  }

  /** The condition column as it is read; None is a decoding error. */
  function Load(column: Option<Json>): Option<Option<Condition>> {
    if column.None? || column.value == JNull then Some(None)
    else var c := Decode(column.value); if c.None? then None else Some(Some(c.value))
  }

  /** A stored condition stays valid and keeps its meaning. */
  lemma {:induction false} StoreLoad(c: Option<Condition>)
    requires ValidCondition(c)
    ensures Load(Store(c)) == Some(c)
  {
    if c.Some? {
      RoundTrip(c.value, Never);
    }
  }
}
