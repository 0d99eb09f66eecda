/**
 * The parametrised builders BINARY_(OP), INPLACE_(OP) and UNARY_(OP), and
 * COMPARE_OP with its lookup in the comparison map.
 */
module Operators {
  import opened Wrappers
  import opened Ast
  import opened Tags
  import opened Tables
  import opened Stacks

  /**
   * The node with its context tag set to c and nothing else changed; a node
   * without a tag is returned as it is.
   */
  function Retag(n: Node, c: Ctx): (m: Node)
    ensures HasCtx(m) == HasCtx(n) && (HasCtx(n) ==> m.ctx == c)
    ensures Assignable(n) ==> Assignable(m)
    ensures n.Name? ==> m == Name(n.id, c)
    ensures n.Attribute? ==> m == Attribute(n.value, n.attr, c)
    ensures n.Subscript? ==> m == Subscript(n.value, n.slice, c)
    ensures !HasCtx(n) ==> m == n
  {
    if HasCtx(n) then n.(ctx := c) else n
  }

  /** BINARY_*: pops the right operand, then the left, and pushes BinOp(left, op, right). */
  function Binary(s: seq<Node>, op: Operator): (r: seq<Node>)
    requires |s| >= 2
    ensures |r| == |s| - 1 && Below(r, 1) == Below(s, 2)
    ensures Peek(r, 0) == BinOp(Peek(s, 1), op, Peek(s, 0))
  {
    var right, s1 := Peek(s, 0), Below(s, 1);
    var left, s2 := Peek(s1, 0), Below(s1, 1);
    s2 + [BinOp(left, op, right)]
  }

  /**
   * A stack entry that is a plain Python value rather than an AST node:
   * None, the `'CLOSURE'` string or an unconverted constant.  Setting an
   * attribute on it raises AttributeError.
   */
  predicate IsRawValue(n: Node) {
    n.NoneValue? || n.ClosureMarker? || n.RawConst?
  }

  /**
   * INPLACE_*: pops the value, then the target, retags the target for
   * storing and pushes AugAssign(target, op, value).  Setting the tag of a
   * target that is a plain value raises AttributeError.
   */
  function Inplace(s: seq<Node>, op: Operator): (r: Result<seq<Node>>)
    requires |s| >= 2
    ensures r.Fail? <==> IsRawValue(Peek(s, 1))
    ensures r.Fail? ==> r.error == AttributeError("ctx")
    ensures r.Ok? ==> |r.value| == |s| - 1 && Below(r.value, 1) == Below(s, 2)
    ensures r.Ok? ==> Peek(r.value, 0) == AugAssign(Retag(Peek(s, 1), Store), op, Peek(s, 0))
  {
    var right, s1 := Peek(s, 0), Below(s, 1);
    var left, s2 := Peek(s1, 0), Below(s1, 1);
    if IsRawValue(left) then Fail(AttributeError("ctx"))
    else Ok(s2 + [AugAssign(Retag(left, Store), op, right)])
  }

  /** UNARY_*: replaces the top entry by UnaryOp(op, top). */
  function Unary(s: seq<Node>, uop: UnaryOperator): (r: seq<Node>)
    requires |s| >= 1
    ensures |r| == |s| && Below(r, 1) == Below(s, 1)
    ensures Peek(r, 0) == UnaryOp(uop, Peek(s, 0))
  {
    var expr := Peek(s, 0);
    Below(s, 1) + [UnaryOp(uop, expr)]
  }

  /**
   * COMPARE_OP: pops right, then left, and pushes a single-comparator
   * Compare; a mnemonic outside the comparison map raises KeyError.
   */
  function CompareOp(s: seq<Node>, arg: Arg): (r: Result<seq<Node>>)
    requires |s| >= 2
    ensures r.Ok? <==> arg.StrArg? && arg.s in CMP_OPMAP
    ensures r.Fail? ==> r.error == KeyError(arg)
    ensures r.Ok? ==> |r.value| == |s| - 1 && Below(r.value, 1) == Below(s, 2)
    ensures r.Ok? ==> Peek(r.value, 0) == Compare(Peek(s, 1), [CMP_OPMAP[arg.s]], [Peek(s, 0)])
  {
    var right, s1 := Peek(s, 0), Below(s, 1);
    var expr, s2 := Peek(s1, 0), Below(s1, 1);
    match CompareOpFor(arg)
    case None => Fail(KeyError(arg))
    case Some(cmp) => Ok(s2 + [Compare(expr, [cmp], [right])])
  }

  /** BINARY_* keeps a well-tagged stack well tagged. */
  lemma BinaryKeepsTags(s: seq<Node>, op: Operator)
    requires |s| >= 2 && StackTagged(s)
    ensures StackTagged(Binary(s, op))
  {
    TaggedParts(s, 2);
    TaggedReplaceTop(s, 2, Peek(Binary(s, op), 0));
  }

  /** A well-tagged name, attribute or subscript retagged Store is a well-tagged assignment target. */
  lemma RetaggedTarget(n: Node)
    requires WellTagged(n) && Assignable(n)
    ensures TargetTagged(Retag(n, Store), Store)
  {
    if n.Attribute? {
      assert n.value in Kids(n);
    } else if n.Subscript? {
      assert n.value in Kids(n) && n.slice in Kids(n);
    }
  }

  /**
   * INPLACE_* keeps a well-tagged stack well tagged when its target is a
   * name, attribute or subscript, the only targets Python compiles an
   * augmented assignment to: the target is retagged Store.
   */
  lemma InplaceKeepsTags(s: seq<Node>, op: Operator)
    requires |s| >= 2 && StackTagged(s) && Assignable(Peek(s, 1))
    ensures Inplace(s, op).Ok? && StackTagged(Inplace(s, op).value)
  {
    TaggedParts(s, 2);
    RetaggedTarget(Peek(s, 1));
    var aug := AugAssign(Retag(Peek(s, 1), Store), op, Peek(s, 0));
    assert Kids(aug) == [Peek(s, 0)];
    TaggedReplaceTop(s, 2, aug);
  }

  /** UNARY_* keeps a well-tagged stack well tagged. */
  lemma UnaryKeepsTags(s: seq<Node>, uop: UnaryOperator)
    requires |s| >= 1 && StackTagged(s)
    ensures StackTagged(Unary(s, uop))
  {
    TaggedParts(s, 1);
    TaggedReplaceTop(s, 1, Peek(Unary(s, uop), 0));
  }

  /** A successful COMPARE_OP keeps a well-tagged stack well tagged. */
  lemma CompareOpKeepsTags(s: seq<Node>, arg: Arg)
    requires |s| >= 2 && StackTagged(s) && CompareOp(s, arg).Ok?
    ensures StackTagged(CompareOp(s, arg).value)
  {
    TaggedParts(s, 2);
    var r := CompareOp(s, arg).value;
    assert WellTagged(Peek(r, 0));
    TaggedReplaceTop(s, 2, Peek(r, 0));
  }
}
