/** internal/policy/validate: the bounded condition language and the validator that counts nodes as it goes. */
module Validate {
  import opened Wrappers
  import opened Text
  import opened PolicyModel

  const MAX_DEPTH := 8
  const MAX_NODES := 64

  datatype Problem =
    | TooLarge | NotOneOperator | UnknownOperator | BadReference | LiteralRequired | BadPath
    | RightForbidden | RightRequired | TypeMismatch

  // ---- the declarative language ------------------------------------------------------------

  predicate ReferenceOk(ref: ValueRef) {
    && !ref.source.OtherSource? && !ref.valueType.OtherValueType?
    && (if ref.source.Literal? then ref.value != JNull else !Blank(ref.path) && !Contains(ref.path, ".."))
  }

  predicate LeafOk(leaf: Comparison) {
    && !leaf.op.OtherOperator? && ReferenceOk(leaf.left)
    && (if leaf.op.Exists? then leaf.right.None?
        else leaf.right.Some? && ReferenceOk(leaf.right.value) && leaf.left.valueType == leaf.right.value.valueType)
  }

  function Operators(c: Condition): nat {
    (if c.all != [] then 1 else 0) + (if c.any != [] then 1 else 0)
    + (if c.not.Some? then 1 else 0) + (if c.comparison.Some? then 1 else 0)
  }

  /** Every node has exactly one operator and every leaf is well formed. */
  predicate WellFormed(c: Condition) {
    && Operators(c) == 1
    && (forall k <- c.all :: WellFormed(k))
    && (forall k <- c.any :: WellFormed(k))
    && (c.not.Some? ==> WellFormed(c.not.value))
    && (c.comparison.Some? ==> LeafOk(c.comparison.value))
  }

  /** The number of nodes of the tree. */
  function Size(c: Condition): nat
    decreases c, 1
  {
    1 + SumSize(c.all) + SumSize(c.any) + (if c.not.Some? then Size(c.not.value) else 0)
  }

  function SumSize(cs: seq<Condition>): nat
    decreases cs, 0
  {
    if cs == [] then 0 else SumSize(cs[..|cs| - 1]) + Size(cs[|cs| - 1])
  }

  /** The number of nodes on the longest path from this node to a leaf. */
  function Height(c: Condition): nat
    decreases c, 1
  {
    1 + Max(MaxHeight(c.all), Max(MaxHeight(c.any), if c.not.Some? then Height(c.not.value) else 0))
  }

  function MaxHeight(cs: seq<Condition>): nat
    decreases cs, 0
  {
    if cs == [] then 0 else Max(MaxHeight(cs[..|cs| - 1]), Height(cs[|cs| - 1]))
  }

  function Max(a: nat, b: nat): nat { if a < b then b else a }

  /** What may still follow at this depth when `used` nodes have been counted before. */
  predicate Fits(c: Condition, depth: nat, used: nat) {
    WellFormed(c) && depth + Height(c) <= MAX_DEPTH + 1 && used + Size(c) <= MAX_NODES
  }

  predicate ValidCondition(c: Option<Condition>) {
    c.Some? ==> Fits(c.value, 1, 0)
  }

  // ---- the validator -----------------------------------------------------------------------

  /** The counter that the recursive calls share through a pointer. */
  class NodeCounter {
    var count: nat

    constructor ()
      ensures count == 0
    {
      count := 0;
    }
  }

  function CheckReference(ref: ValueRef): (problem: Option<Problem>)
    ensures problem.None? <==> ReferenceOk(ref)
  {
    if ref.source.OtherSource? || ref.valueType.OtherValueType? then Some(BadReference)
    else if ref.source.Literal? then (if ref.value == JNull then Some(LiteralRequired) else None)
    else if Blank(ref.path) || Contains(ref.path, "..") then Some(BadPath)
    else None
  }

  function CheckLeaf(leaf: Comparison): (problem: Option<Problem>)
    ensures problem.None? <==> LeafOk(leaf)
  {
    if leaf.op.OtherOperator? then Some(UnknownOperator)
    else if CheckReference(leaf.left).Some? then CheckReference(leaf.left)
    else if leaf.op.Exists? then (if leaf.right.Some? then Some(RightForbidden) else None)
    else if leaf.right.None? then Some(RightRequired)
    else if CheckReference(leaf.right.value).Some? then CheckReference(leaf.right.value)
    else if leaf.left.valueType != leaf.right.value.valueType then Some(TypeMismatch)
    else None
  }

  /** Under one operator, the node adds one to the size and height of that operator's operands. */
  lemma OneOperator(c: Condition)
    requires Operators(c) == 1
    ensures c.all != [] ==> Size(c) == 1 + SumSize(c.all) && Height(c) == 1 + MaxHeight(c.all)
                            && (WellFormed(c) <==> forall k <- c.all :: WellFormed(k))
    ensures c.any != [] ==> Size(c) == 1 + SumSize(c.any) && Height(c) == 1 + MaxHeight(c.any)
                            && (WellFormed(c) <==> forall k <- c.any :: WellFormed(k))
    ensures c.not.Some? ==> Size(c) == 1 + Size(c.not.value) && Height(c) == 1 + Height(c.not.value)
                            && (WellFormed(c) <==> WellFormed(c.not.value))
    ensures c.comparison.Some? ==> Size(c) == 1 && Height(c) == 1 && (WellFormed(c) <==> LeafOk(c.comparison.value))
  {
    assert SumSize([]) == 0 && MaxHeight([]) == 0;
    assert c.all == [] || c.any == [];
  }

  /**
   * Accepts exactly the trees that fit. Every call adds one to the counter, so its growth is the
   * number of node visits: the tree size on success, and never past one beyond the limit.
   */
  method Check(c: Condition, depth: nat, counter: NodeCounter) returns (problem: Option<Problem>)
    modifies counter
    ensures problem.None? <==> Fits(c, depth, old(counter.count))
    ensures problem.None? ==> counter.count == old(counter.count) + Size(c)
    ensures old(counter.count) < counter.count <= Max(old(counter.count), MAX_NODES) + 1
    decreases c, 1
  {
    counter.count := counter.count + 1;
    if depth > MAX_DEPTH || counter.count > MAX_NODES {
      return Some(TooLarge);
    }
    var kinds := 0;
    if |c.all| > 0 {
      kinds := kinds + 1;
    }
    if |c.any| > 0 {
      kinds := kinds + 1;
    }
    if c.not.Some? {
      kinds := kinds + 1;
    }
    if c.comparison.Some? {
      kinds := kinds + 1;
    }
    if kinds != 1 {
      return Some(NotOneOperator);
    }
    OneOperator(c);
    if c.all != [] {
      problem := CheckEach(c.all, depth + 1, counter);
    } else if c.any != [] {
      problem := CheckEach(c.any, depth + 1, counter);
    } else if c.not.Some? {
      problem := Check(c.not.value, depth + 1, counter);
    } else {
      problem := CheckLeaf(c.comparison.value);
    }
  }

  /** The loop over the children of an `all` or `any` node, stopping at the first problem. */
  method CheckEach(cs: seq<Condition>, depth: nat, counter: NodeCounter) returns (problem: Option<Problem>)
    requires cs != [] && counter.count <= MAX_NODES
    modifies counter
    ensures problem.None? <==>
            (forall k <- cs :: WellFormed(k))
            && depth + MaxHeight(cs) <= MAX_DEPTH + 1
            && old(counter.count) + SumSize(cs) <= MAX_NODES
    ensures problem.None? ==> counter.count == old(counter.count) + SumSize(cs)
    ensures old(counter.count) <= counter.count <= MAX_NODES + 1
    decreases cs, 0
  {
    for i := 0 to |cs|
      invariant counter.count == old(counter.count) + SumSize(cs[..i]) <= MAX_NODES
      invariant forall k <- cs[..i] :: WellFormed(k)
      invariant i > 0 ==> depth + MaxHeight(cs[..i]) <= MAX_DEPTH + 1
    {
      problem := Check(cs[i], depth, counter);
      PrefixBounds(cs, i);
      if problem.Some? {
        assert cs[i] in cs;
        return;
      }
    }
    assert cs[..|cs|] == cs;
    return None;
  }

  /** A prefix of the children, and the child after it, weigh no more than all of them. */
  lemma {:induction false} PrefixBounds(cs: seq<Condition>, i: nat)
    requires i < |cs|
    ensures SumSize(cs[..i + 1]) == SumSize(cs[..i]) + Size(cs[i]) <= SumSize(cs)
    ensures MaxHeight(cs[..i + 1]) == Max(MaxHeight(cs[..i]), Height(cs[i])) <= MaxHeight(cs)
    ensures cs[..i + 1] == cs[..i] + [cs[i]]
    decreases |cs|
  {
    assert cs[..i + 1][..i] == cs[..i];
    if i + 1 < |cs| {
      PrefixBounds(cs[..|cs| - 1], i);
      assert cs[..|cs| - 1][..i] == cs[..i] && cs[..|cs| - 1][..i + 1] == cs[..i + 1];
    } else {
      assert cs[..i + 1] == cs;
    }
  }

  /** validate.Condition: exact acceptance, within 65 visits whatever the size of the input. */
  method CheckCondition(c: Option<Condition>) returns (problem: Option<Problem>, visits: nat)
    ensures problem.None? <==> ValidCondition(c)
    ensures problem.None? <==> (c.Some? ==> WellFormed(c.value) && Height(c.value) <= 8 && Size(c.value) <= 64)
    ensures visits <= 65
    ensures problem.None? ==> visits == if c.Some? then Size(c.value) else 0
  {
    if c.None? {
      return None, 0;
    }
    var counter := new NodeCounter();
    problem := Check(c.value, 1, counter);
    visits := counter.count;
  }
}
