/** Optional values, used for the AST fields that Python leaves as `None`. */
module Wrappers {

  datatype Option<+T> = None | Some(value: T)
}

/**
 * The values the decompiler handles: the decoded instructions it reads, the
 * abstract syntax tree nodes it builds and the raw values it pushes beside
 * them on its operand stack.
 */
module Ast {
  import opened Wrappers

  /** The context tag of a name-like node: read, assigned or deleted. */
  datatype Ctx = Load | Store | Del

  /** Arithmetic and bitwise operators, shared by BinOp and AugAssign. */
  datatype Operator =
    | Add | Sub | Mult | Div | FloorDiv | Pow
    | BitAnd | BitOr | BitXor | LShift | RShift | Mod

  datatype UnaryOperator = Not | USub | UAdd | Invert

  datatype CmpOp = GtE | LtE | Gt | Lt | Eq | In | Is | IsNot

  /**
   * The decoded argument of an instruction as the disassembler supplies it:
   * Python's None; a byte string (`str`, never `unicode`); an `int`,
   * `float` or `complex` number, carried as its literal text since nothing
   * here computes with it; a tuple of constants; or any other constant
   * object, which includes unicode strings and `long` integers, neither of
   * which is a `str` or one of the three numeric types the handlers test for.
   */
  datatype Arg =
    | NoArg
    | StrArg(s: string)
    | NumArg(literal: string)
    | TupleArg(items: seq<Arg>)
    | OtherArg(repr: string)

  /** One decoded instruction; never changed by the decompiler. */
  datatype Instr = Instr(opname: string, arg: Arg, oparg: nat, lineno: int)

  /** An imported name with its optional local binding (`import a as b`). */
  datatype Alias = Alias(name: string, asname: Option<string>)

  /** A keyword argument of a call (`f(k=v)`). */
  datatype Keyword = Keyword(arg: string, value: Node)

  /**
   * The AST forms the handlers build or inspect, plus three raw values that
   * also travel on the operand stack: Python's `None` (the placeholder
   * pushed while unpacking), the `'CLOSURE'` string marker and a constant
   * pushed unconverted (a tuple or another non-string, non-numeric object).
   */
  datatype Node =
    | NoneValue
    | ClosureMarker
    | RawConst(raw: Arg)
    | Str(s: string)
    | Num(n: string)
    | Name(id: string, ctx: Ctx)
    | Attribute(value: Node, attr: string, ctx: Ctx)
    | Subscript(value: Node, slice: Node, ctx: Ctx)
    | Index(value: Node)
    | Slice(lower: Option<Node>, upper: Option<Node>, step: Option<Node>)
    | ExtSlice(dims: seq<Node>)
    | BinOp(left: Node, op: Operator, right: Node)
    | UnaryOp(uop: UnaryOperator, operand: Node)
    | Compare(left: Node, ops: seq<CmpOp>, comparators: seq<Node>)
    | Call(func: Node, args: seq<Node>, keywords: seq<Keyword>, starargs: Option<Node>, kwargs: Option<Node>)
    | IfExp(test: Node, ifTrue: Node, ifFalse: Node)
    | If(test: Node, body: seq<Node>, orelse: seq<Node>)
    | List(elts: seq<Node>, ctx: Ctx)
    | Tuple(elts: seq<Node>, ctx: Ctx)
    | Set(elts: seq<Node>, ctx: Ctx)
    | Dict(keys: seq<Node>, values: seq<Node>)
    | Yield(value: Node)
    | Assign(targets: seq<Node>, value: Node)
    | AugAssign(target: Node, op: Operator, value: Node)
    | Delete(targets: seq<Node>)
    | Expr(value: Node)
    | Return(value: Node)
    | Print(dest: Option<Node>, values: seq<Node>, nl: bool)
    | Raise(excType: Option<Node>, inst: Option<Node>, tback: Option<Node>)
    | Import(names: seq<Alias>, isFrom: bool)
    | ImportFrom(moduleName: string, names: seq<Alias>, level: nat)
    | FunctionDef(name: string, body: seq<Node>, decorators: seq<Node>)
    | ClassDef(name: string, bases: seq<Node>, body: seq<Node>, decorators: seq<Node>)

  /** True of the node kinds that carry a context tag. */
  predicate HasCtx(n: Node) {
    n.Name? || n.Attribute? || n.Subscript? || n.List? || n.Tuple? || n.Set?
  }

  /** The Python exceptions a handler can raise on input it does not expect. */
  datatype Error =
    | KeyError(key: Arg)
    | AssertionError
    | AttributeError(field: string)
    | IndexError
    | Unsupported(opname: string)

  /** The outcome of a handler that can raise. */
  datatype Result<+T> = Ok(value: T) | Fail(error: Error)

  /** The outcome of a state-changing handler: it returned, or it raised. */
  datatype Outcome = Pass | Raised(error: Error)
}
