/**
 * Whole statements run through the handlers: the instruction sequences
 * CPython 2 compiles a few statements to, fed one handler at a time from
 * an empty stack, and the statement each leaves.
 */
module Scenarios {
  import opened Wrappers
  import opened Ast
  import opened Tables
  import opened Stacks
  import Operators
  import Names
  import Statements
  import Subscripts

  /**
   * `a.b += 1` compiles to LOAD_NAME a, DUP_TOP, LOAD_ATTR b, LOAD_CONST 1,
   * INPLACE_ADD, ROT_TWO, STORE_ATTR b.  These are the entries left on the
   * stack just before the STORE_ATTR: the augmented assignment under the
   * object.
   */
  function AugmentedAttributeStack(a: string, b: string): (s: seq<Node>)
    ensures |s| == 2
  {
    var s1 := Names.LoadName([], a);
    var s2 := DupTop(s1);
    var s3 := Names.LoadAttr(s2, b);
    var s4 := Names.LoadConst(s3, NumArg("1"));
    var s5 := Operators.Inplace(s4, Add);
    assert s5.Ok?;
    RotTwo(s5.value)
  }

  /** The statement `a.b += 1`, with its target tagged Store. */
  function AugmentedAttribute(a: string, b: string): Node {
    AugAssign(Attribute(Name(a, Load), b, Store), Add, Num("1"))
  }

  /**
   * STORE_ATTR as written wraps the finished `a.b += 1` into the assignment
   * `a.b = (a.b += 1)`, which is not a Python statement; the corrected
   * handler leaves `a.b += 1` itself.
   */
  lemma AugmentedAttributeStore(a: string, b: string)
    ensures Names.StoreAttrAsWritten(AugmentedAttributeStack(a, b), b).Ok?
    ensures Names.StoreAttrAsWritten(AugmentedAttributeStack(a, b), b).value
      == [Assign([Attribute(Name(a, Load), b, Store)], AugmentedAttribute(a, b))]
    ensures Names.StoreAttr(AugmentedAttributeStack(a, b), b) == Ok([AugmentedAttribute(a, b)])
  {
    var s := AugmentedAttributeStack(a, b);
    assert Peek(s, 0) == Name(a, Load);
    assert Peek(s, 1) == AugmentedAttribute(a, b);
  }

  /**
   * `a[:] += x` compiles to LOAD_NAME a, DUP_TOP, SLICE+0, LOAD_NAME x,
   * INPLACE_ADD, ROT_TWO, STORE_SLICE+0.  These are the entries left on the
   * stack just before the STORE_SLICE+0.
   */
  function AugmentedSliceStack(a: string, x: string): (s: seq<Node>)
    ensures |s| == 2
  {
    var s1 := Names.LoadName([], a);
    var s2 := DupTop(s1);
    var s3 := Subscripts.SliceLoad(s2, 0);
    var s4 := Names.LoadName(s3, x);
    var s5 := Operators.Inplace(s4, Add);
    assert s5.Ok?;
    RotTwo(s5.value)
  }

  /** The statement `a[:] += x`, with its target tagged Store. */
  function AugmentedSlice(a: string, x: string): Node {
    AugAssign(Subscript(Name(a, Load), Slice(None, None, None), Store), Add, Name(x, Load))
  }

  /**
   * STORE_SLICE+0 as written wraps the finished `a[:] += x` into the
   * assignment `a[:] = (a[:] += x)`; the corrected handler leaves
   * `a[:] += x` itself.
   */
  lemma AugmentedSliceStore(a: string, x: string)
    ensures Subscripts.StoreSliceAsWritten(AugmentedSliceStack(a, x), 0)
      == [Assign([Subscript(Name(a, Load), Slice(None, None, None), Store)], AugmentedSlice(a, x))]
    ensures Subscripts.StoreSlice(AugmentedSliceStack(a, x), 0) == [AugmentedSlice(a, x)]
  {
    var s := AugmentedSliceStack(a, x);
    assert Peek(s, 0) == Name(a, Load);
    assert Peek(s, 1) == AugmentedSlice(a, x);
  }

  /**
   * `x = y = v` compiles to LOAD_NAME v, DUP_TOP, STORE_NAME x, STORE_NAME y:
   * the second store finds the assignment the first made, with the
   * duplicate of the value under it, and adds its name as a second target.
   */
  lemma ChainedAssignment(v: string, x: string, y: string)
    ensures var s := DupTop(Names.LoadName([], v));
      && Names.StoreName(s, x).Ok?
      && Names.StoreName(Names.StoreName(s, x).value, y).Ok?
      && Names.StoreName(Names.StoreName(s, x).value, y).value
         == [Assign([Name(x, Store), Name(y, Store)], Name(v, Load))]
  {
    var value := Name(v, Load);
    var s := DupTop(Names.LoadName([], v));
    assert s == [value, value];
    assert Peek(s, 0) == value && Below(s, 1) == [value];
    var first := Assign([Name(x, Store)], value);
    assert Names.StoreName(s, x) == Names.StoreValue([value], value, x);
    var s1 := [value, first];
    assert Names.StoreName(s, x).value == s1;
    assert Peek(s1, 0) == first && Below(s1, 1) == [value] && Below([value], 1) == [];
    assert Names.StoreName(s1, y) == Names.StoreValue([value], first, y);
    assert first.targets + [Name(y, Store)] == [Name(x, Store), Name(y, Store)];
  }

  /**
   * The stack of `from m import x` after LOAD_CONST -1 (the level),
   * LOAD_CONST ('x',) (the from-list), IMPORT_NAME m and IMPORT_FROM x.
   */
  function PendingFromImport(m: string, x: string): Result<seq<Node>> {
    var s2 := Names.LoadConst(Names.LoadConst([], NumArg("-1")), TupleArg([StrArg(x)]));
    Names.FromImport(Names.ImportName(s2, m), x)
  }

  /**
   * The stack of `from m import x as y` just before its POP_TOP, once
   * STORE_NAME y has run as well; None when one of the handlers raised.
   */
  function FromImportStack(m: string, x: string, y: string): Option<seq<Node>> {
    match PendingFromImport(m, x)
    case Fail(_) => None
    case Ok(s4) =>
      match Names.StoreName(s4, y)
      case Fail(_) => None
      case Ok(s5) => Some(s5)
  }

  /** The statement `from m import x as y`, without the `as` part when y is x. */
  function FromImportOf(m: string, x: string, y: string): Node {
    ImportFrom(m, [Alias(x, if x == y then None else Some(y))], 0)
  }

  /**
   * Before the POP_TOP of `from m import x as y` the stack holds the
   * finished statement under the pending import IMPORT_NAME pushed.
   */
  lemma FromImportStackIs(m: string, x: string, y: string)
    ensures FromImportStack(m, x, y).Some?
    ensures FromImportStack(m, x, y).value == [FromImportOf(m, x, y), Import([Alias(m, None)], true)]
  {
    var pending := Import([Alias(m, None)], true);
    var from_ := ImportFrom(m, [Alias(x, None)], 0);
    PendingFromImportIs(m, x);
    var s4 := PendingFromImport(m, x).value;
    assert Peek(s4, 0) == pending && Below(s4, 1) == [from_];
    RebindOne(x, y);
    assert Names.StoreName(s4, y) == Names.StoreValue([from_], pending, y);
    assert Peek([from_], 0) == from_ && Below([from_], 1) == [];
  }

  /**
   * The stack after IMPORT_FROM x of `from m import x`: the statement with
   * no binding yet, under the pending import.
   */
  lemma PendingFromImportIs(m: string, x: string)
    ensures PendingFromImport(m, x).Ok?
    ensures PendingFromImport(m, x).value == [ImportFrom(m, [Alias(x, None)], 0), Import([Alias(m, None)], true)]
  {
    var s2 := Names.LoadConst(Names.LoadConst([], NumArg("-1")), TupleArg([StrArg(x)]));
    assert |s2| == 2 && Peek(s2, 0) == RawConst(TupleArg([StrArg(x)])) && Below(s2, 2) == [];
    assert Names.ImportName(s2, m) == [Import([Alias(m, None)], true)];
  }

  /**
   * `from m import x as y` ends, after the POP_TOP that drops the pending
   * import, as that single statement.
   */
  lemma FromImportAs(m: string, x: string, y: string)
    ensures FromImportStack(m, x, y).Some? && |FromImportStack(m, x, y).value| >= 1
    ensures Statements.PopTop(FromImportStack(m, x, y).value).Ok?
    ensures Statements.PopTop(FromImportStack(m, x, y).value).value == [FromImportOf(m, x, y)]
  {
    FromImportStackIs(m, x, y);
    var pending := Import([Alias(m, None)], true);
    var s5 := FromImportStack(m, x, y).value;
    assert Peek(s5, 0) == pending && Below(s5, 1) == [FromImportOf(m, x, y)];
    assert Statements.PopTop(s5) == Statements.PopValue([FromImportOf(m, x, y)], pending);
  }

  /** Binding the one name of `from m import x` to y. */
  lemma RebindOne(x: string, y: string)
    ensures Names.Rebind([Alias(x, None)], y).Ok?
    ensures Names.Rebind([Alias(x, None)], y).value == [Alias(x, if x == y then None else Some(y))]
  {
    if x != y {
      assert [Alias(x, None)][0 := Alias(x, Some(y))] == [Alias(x, Some(y))];
    }
  }

  /**
   * `a < b` compiles to LOAD_NAME a, LOAD_NAME b, COMPARE_OP '<' and becomes
   * one comparison; `a != b` compiles the same way with '!=', which the
   * comparison map does not know, so its COMPARE_OP raises KeyError.
   */
  lemma Comparisons(a: string, b: string)
    ensures Operators.CompareOp(Names.LoadName(Names.LoadName([], a), b), StrArg("<"))
      == Ok([Compare(Name(a, Load), [Lt], [Name(b, Load)])])
    ensures Operators.CompareOp(Names.LoadName(Names.LoadName([], a), b), StrArg("!="))
      == Fail(KeyError(StrArg("!=")))
  {
    var s := Names.LoadName(Names.LoadName([], a), b);
    assert s == [Name(a, Load), Name(b, Load)];
    assert CMP_OPMAP["<"] == Lt;
    CmpOpMapKeys();
  }
}
