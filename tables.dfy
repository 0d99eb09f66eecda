/**
 * The fixed tables and small pure helpers of the handler file: the
 * recogniser for Python's `None`, the comparison map, the opcode-to-operator
 * tables of the generic builders, the conversion of a LOAD_CONST argument and
 * the decoding of CALL_FUNCTION's packed argument count.
 */
module Tables {
  import opened Wrappers
  import opened Ast
  import opened Tags

  /** Python's `None`, either the raw value or the name `None` read in Load context. */
  predicate IsNone(n: Node): (b: bool)
    ensures b <==> n in {NoneValue, Name("None", Load)}
  {
    n.NoneValue? || (n.Name? && n.id == "None" && n.ctx == Load)
  }

  /**
   * A bound that was not popped, or that was popped but stands for `None`,
   * becomes absent; any other bound is kept.
   */
  function DropNone(bound: Option<Node>): (r: Option<Node>)
    ensures r.None? <==> bound.None? || IsNone(bound.value)
    ensures r.Some? ==> r == bound
  {
    if bound.Some? && !IsNone(bound.value) then bound else None
  }

  /** The comparison mnemonics COMPARE_OP understands; every other one is a lookup failure. */
  const CMP_OPMAP: map<string, CmpOp> :=
    map[">=" := GtE, "<=" := LtE, ">" := Gt, "<" := Lt,
        "==" := Eq, "in" := In, "is" := Is, "is not" := IsNot]

  /** The operator of each BINARY_ opcode the handler class defines. */
  const BINARY_OPS: map<string, Operator> :=
    map["BINARY_ADD" := Add, "BINARY_SUBTRACT" := Sub, "BINARY_DIVIDE" := Div,
        "BINARY_MULTIPLY" := Mult, "BINARY_FLOOR_DIVIDE" := FloorDiv, "BINARY_POWER" := Pow,
        "BINARY_AND" := BitAnd, "BINARY_OR" := BitOr, "BINARY_XOR" := BitXor,
        "BINARY_LSHIFT" := LShift, "BINARY_RSHIFT" := RShift, "BINARY_MODULO" := Mod]

  /** The operator of each INPLACE_ opcode the handler class defines. */
  const INPLACE_OPS: map<string, Operator> :=
    map["INPLACE_ADD" := Add, "INPLACE_SUBTRACT" := Sub, "INPLACE_DIVIDE" := Div,
        "INPLACE_FLOOR_DIVIDE" := FloorDiv, "INPLACE_MULTIPLY" := Mult,
        "INPLACE_AND" := BitAnd, "INPLACE_OR" := BitOr, "INPLACE_LSHIFT" := LShift,
        "INPLACE_RSHIFT" := RShift, "INPLACE_POWER" := Pow, "INPLACE_MODULO" := Mod,
        "INPLACE_XOR" := BitXor]

  /** The operator of each UNARY_ opcode the handler class defines. */
  const UNARY_OPS: map<string, UnaryOperator> :=
    map["UNARY_NOT" := Not, "UNARY_NEGATIVE" := USub, "UNARY_INVERT" := Invert,
        "UNARY_POSITIVE" := UAdd]

  /** The comparison operator for COMPARE_OP's argument, if the map has one. */
  function CompareOpFor(arg: Arg): (r: Option<CmpOp>)
    ensures r.Some? <==> arg.StrArg? && arg.s in CMP_OPMAP
    ensures r.Some? ==> r.value == CMP_OPMAP[arg.s]
  {
    if arg.StrArg? && arg.s in CMP_OPMAP then Some(CMP_OPMAP[arg.s]) else None
  }

  /** The comparison map knows exactly eight mnemonics; `!=`, `<>` and `not in` are not among them. */
  lemma CmpOpMapKeys()
    ensures CMP_OPMAP.Keys == {">=", "<=", ">", "<", "==", "in", "is", "is not"}
    ensures "!=" !in CMP_OPMAP && "not in" !in CMP_OPMAP && "<>" !in CMP_OPMAP
  {
  }

  /** No two mnemonics of the comparison map denote the same operator. */
  lemma CmpOpMapInjective()
    ensures forall a, b | a in CMP_OPMAP && b in CMP_OPMAP && a != b :: CMP_OPMAP[a] != CMP_OPMAP[b]
  {
  }

  /** Every operator has a BINARY_ opcode. */
  lemma BinaryTableCovers(op: Operator)
    ensures op in BINARY_OPS.Values
  {
    match op
    case Add => assert BINARY_OPS["BINARY_ADD"] == op;
    case Sub => assert BINARY_OPS["BINARY_SUBTRACT"] == op;
    case Mult => assert BINARY_OPS["BINARY_MULTIPLY"] == op;
    case Div => assert BINARY_OPS["BINARY_DIVIDE"] == op;
    case FloorDiv => assert BINARY_OPS["BINARY_FLOOR_DIVIDE"] == op;
    case Pow => assert BINARY_OPS["BINARY_POWER"] == op;
    case BitAnd => assert BINARY_OPS["BINARY_AND"] == op;
    case BitOr => assert BINARY_OPS["BINARY_OR"] == op;
    case BitXor => assert BINARY_OPS["BINARY_XOR"] == op;
    case LShift => assert BINARY_OPS["BINARY_LSHIFT"] == op;
    case RShift => assert BINARY_OPS["BINARY_RSHIFT"] == op;
    case Mod => assert BINARY_OPS["BINARY_MODULO"] == op;
  }

  /** The INPLACE_ opcodes cover the same twelve operators as the BINARY_ ones. */
  lemma InplaceTableCovers(op: Operator)
    ensures op in INPLACE_OPS.Values
  {
    match op
    case Add => assert INPLACE_OPS["INPLACE_ADD"] == op;
    case Sub => assert INPLACE_OPS["INPLACE_SUBTRACT"] == op;
    case Mult => assert INPLACE_OPS["INPLACE_MULTIPLY"] == op;
    case Div => assert INPLACE_OPS["INPLACE_DIVIDE"] == op;
    case FloorDiv => assert INPLACE_OPS["INPLACE_FLOOR_DIVIDE"] == op;
    case Pow => assert INPLACE_OPS["INPLACE_POWER"] == op;
    case BitAnd => assert INPLACE_OPS["INPLACE_AND"] == op;
    case BitOr => assert INPLACE_OPS["INPLACE_OR"] == op;
    case BitXor => assert INPLACE_OPS["INPLACE_XOR"] == op;
    case LShift => assert INPLACE_OPS["INPLACE_LSHIFT"] == op;
    case RShift => assert INPLACE_OPS["INPLACE_RSHIFT"] == op;
    case Mod => assert INPLACE_OPS["INPLACE_MODULO"] == op;
  }

  /** Every unary operator has a UNARY_ opcode. */
  lemma UnaryTableCovers(u: UnaryOperator)
    ensures u in UNARY_OPS.Values
  {
    match u
    case Not => assert UNARY_OPS["UNARY_NOT"] == u;
    case USub => assert UNARY_OPS["UNARY_NEGATIVE"] == u;
    case UAdd => assert UNARY_OPS["UNARY_POSITIVE"] == u;
    case Invert => assert UNARY_OPS["UNARY_INVERT"] == u;
  }

  /**
   * The node LOAD_CONST pushes for its argument: a Str or Num node for a
   * byte string or an int, float or complex number, the name `None` for
   * Python's None, and the argument itself, unconverted, for a tuple or any
   * other constant (unicode strings and longs among them).
   */
  function ConstNode(arg: Arg): (n: Node)
    ensures arg.StrArg? ==> n == Str(arg.s)
    ensures arg.NumArg? ==> n == Num(arg.literal)
    ensures IsNone(n) <==> arg.NoArg?
    ensures n.RawConst? <==> arg.TupleArg? || arg.OtherArg?
    ensures WellTagged(n)
  {
    match arg
    case StrArg(s) => Str(s)
    case NumArg(lit) => Num(lit)
    case NoArg => Name("None", Load)
    case TupleArg(_) => RawConst(arg)
    case OtherArg(_) => RawConst(arg)
  }

  function Pow2(k: nat): (p: nat)
    ensures p >= 1
  {
    if k == 0 then 1 else 2 * Pow2(k - 1)
  }

  /**
   * Python's `x & ~m` on non-negative integers, which have no width: bit i
   * of the result is set when bit i of x is set and bit i of m is clear.
   */
  function AndNot(x: nat, m: nat): (r: nat)
    ensures r <= x
    ensures m == 0 ==> r == x
    decreases x
  {
    if x == 0 then 0
    else 2 * AndNot(x / 2, m / 2) + (if x % 2 == 1 && m % 2 == 0 then 1 else 0)
  }

  lemma {:induction false} AndNotSelf(x: nat)
    ensures AndNot(x, x) == 0
    decreases x
  {
    if x != 0 {
      AndNotSelf(x / 2);
    }
  }

  /**
   * Clearing from `high * 2^k + low` (with low below 2^k) every bit of
   * `high * 2^k` leaves exactly the low part.
   */
  lemma {:induction false} AndNotClearsHigh(high: nat, low: nat, k: nat)
    requires low < Pow2(k)
    ensures AndNot(high * Pow2(k) + low, high * Pow2(k)) == low
    decreases k
  {
    if k == 0 {
      AndNotSelf(high);
    } else {
      var p := Pow2(k - 1);
      var x, m := high * Pow2(k) + low, high * Pow2(k);
      assert m == 2 * (high * p);
      assert x == 2 * (high * p + low / 2) + low % 2;
      if x != 0 {
        assert x / 2 == high * p + low / 2 && x % 2 == low % 2;
        assert m / 2 == high * p && m % 2 == 0;
        AndNotClearsHigh(high, low / 2, k - 1);
      }
    }
  }

  /**
   * CALL_FUNCTION's packed count: `nkwargs = oparg >> 8` and
   * `nargs = ~(nkwargs << 8) & oparg`, i.e. the keyword-pair count from the
   * high part and the positional count from the low byte.
   */
  function DecodeCallCount(oparg: nat): (counts: (nat, nat))
    ensures counts.0 * 256 + counts.1 == oparg
    ensures counts.1 < 256
  {
    var nkwargs := oparg / 256;
    assert Pow2(8) == 256;
    AndNotClearsHigh(nkwargs, oparg % 256, 8);
    (nkwargs, AndNot(oparg, nkwargs * 256))
  }

  /** How a compiler packs `nkwargs` keyword pairs and `nargs` positional arguments. */
  function EncodeCallCount(nkwargs: nat, nargs: nat): nat
    requires nargs < 256
  {
    nkwargs * 256 + nargs
  }

  /** Decoding inverts the packing: the two counts come back unchanged. */
  lemma DecodeEncodeCallCount(nkwargs: nat, nargs: nat)
    requires nargs < 256
    ensures DecodeCallCount(EncodeCallCount(nkwargs, nargs)) == (nkwargs, nargs)
  {
    var oparg := EncodeCallCount(nkwargs, nargs);
    assert oparg / 256 == nkwargs;
  }

  /** How many stack entries CALL_FUNCTION pops: two per keyword, one per positional, and the callee. */
  function CallDepth(oparg: nat): (depth: nat)
    ensures depth >= 1 && depth >= oparg / 256
  {
    var counts := DecodeCallCount(oparg);
    2 * counts.0 + counts.1 + 1
  }

  /**
   * CALL_FUNCTION pops exactly two entries per keyword pair (`oparg >> 8`),
   * one per positional argument (`oparg & 255`) and the callee.
   */
  lemma CallDepthCounts(oparg: nat)
    ensures CallDepth(oparg) == 2 * (oparg / 256) + oparg % 256 + 1
  {
    var counts := DecodeCallCount(oparg);
    DivModUnique(oparg, counts.0, counts.1);
  }

  /** Division by 256 is determined by any split into a multiple of 256 and a remainder below 256. */
  lemma DivModUnique(x: nat, q: nat, r: nat)
    requires q * 256 + r == x && r < 256
    ensures q == x / 256 && r == x % 256
  {
  }
}
