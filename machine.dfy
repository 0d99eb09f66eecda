/**
 * The handler class itself: an operand stack of nodes that the handlers pop
 * and push one entry at a time, the feed of instructions not yet read
 * (BUILD_MAP and UNPACK_SEQUENCE read ahead in it), and the flag
 * YIELD_VALUE raises.  Every handler is proved to leave exactly the stack
 * the corresponding function of the other modules describes.  Three
 * handlers follow the corrected function rather than the handler as
 * written: STORE_ATTR and STORE_SLICE_n push an augmented assignment back
 * unchanged (the handlers as written are Names.StoreAttrAsWritten and
 * Subscripts.StoreSliceAsWritten), and PRINT_NEWLINE checks for an empty
 * stack (as written it is Statements.PrintNewlineAsWritten).
 */
module Machine {
  import opened Wrappers
  import opened Ast
  import opened Tags
  import opened Tables
  import opened Stacks
  import Operators
  import Names
  import Calls
  import Subscripts
  import opened MapBlocks
  import Containers
  import Statements

  class SimpleInstructions {
    /** The operand stack; its last element is the top. */
    var stack: seq<Node>
    /** The instructions not yet read, the next one first. */
    var ilst: seq<Instr>
    /** Whether a YIELD_VALUE was seen, which makes the block a generator's. */
    var seenYield: bool
    /** The block decompiler BUILD_MAP hands the instructions of each entry to. */
    const decompileBlock: seq<Instr> -> seq<Node>

    /** A handler set with an empty stack over the given instruction feed. */
    constructor(feed: seq<Instr>, decompileBlock: seq<Instr> -> seq<Node>)
      ensures stack == [] && ilst == feed && !seenYield && this.decompileBlock == decompileBlock
    {
      stack := [];
      ilst := feed;
      seenYield := false;
      this.decompileBlock := decompileBlock;
    }

    /** Pops the top entry. */
    method Pop() returns (n: Node)
      requires |stack| >= 1
      modifies this
      ensures n == Peek(old(stack), 0) && stack == Below(old(stack), 1)
      ensures ilst == old(ilst) && seenYield == old(seenYield)
    {
      n := stack[|stack| - 1];
      stack := stack[..|stack| - 1];
    }

    /** Pushes one entry. */
    method Push(n: Node)
      modifies this
      ensures stack == old(stack) + [n]
      ensures ilst == old(ilst) && seenYield == old(seenYield)
    {
      stack := stack + [n];
    }

    /**
     * Pops n entries one at a time, putting each in front of those popped
     * before it, so that they come out in the order they were pushed.
     */
    method PopItems(n: nat) returns (items: seq<Node>)
      requires |stack| >= n
      modifies this
      ensures items == TopItems(old(stack), n) && stack == Below(old(stack), n)
      ensures ilst == old(ilst) && seenYield == old(seenYield)
    {
      items := [];
      for i := 0 to n
        invariant stack == Below(old(stack), i) && items == TopItems(old(stack), i)
        invariant ilst == old(ilst) && seenYield == old(seenYield)
      {
        var item := Pop();
        items := [item] + items;
      }
    }

    /** BINARY_*, made by BINARY_(op). */
    method Binary(op: Operator)
      requires |stack| >= 2
      modifies this
      ensures stack == Operators.Binary(old(stack), op)
      ensures ilst == old(ilst) && seenYield == old(seenYield)
    {
      var right := Pop();
      var left := Pop();
      Push(BinOp(left, op, right));
    }

    /** INPLACE_*, made by INPLACE_(op): the target is retagged Store. */
    method Inplace(op: Operator) returns (outcome: Outcome)
      requires |stack| >= 2
      modifies this
      ensures outcome.Pass? <==> Operators.Inplace(old(stack), op).Ok?
      ensures outcome.Pass? ==> stack == Operators.Inplace(old(stack), op).value
      ensures outcome.Raised? ==> outcome.error == AttributeError("ctx")
      ensures ilst == old(ilst) && seenYield == old(seenYield)
    {
      var right := Pop();
      var left := Pop();
      if Operators.IsRawValue(left) {
        return Raised(AttributeError("ctx"));
      }
      left := Operators.Retag(left, Store);
      Push(AugAssign(left, op, right));
      return Pass;
    }

    /** UNARY_*, made by UNARY_(uop). */
    method Unary(uop: UnaryOperator)
      requires |stack| >= 1
      modifies this
      ensures stack == Operators.Unary(old(stack), uop)
      ensures ilst == old(ilst) && seenYield == old(seenYield)
    {
      var expr := Pop();
      Push(UnaryOp(uop, expr));
    }

    /** COMPARE_OP: raises KeyError for a mnemonic outside the comparison map. */
    method CompareOp(arg: Arg) returns (outcome: Outcome)
      requires |stack| >= 2
      modifies this
      ensures outcome.Pass? <==> Operators.CompareOp(old(stack), arg).Ok?
      ensures outcome.Pass? ==> stack == Operators.CompareOp(old(stack), arg).value
      ensures outcome.Raised? ==> outcome.error == Operators.CompareOp(old(stack), arg).error
      ensures ilst == old(ilst) && seenYield == old(seenYield)
    {
      var right := Pop();
      var expr := Pop();
      match CompareOpFor(arg)
      case None =>
        return Raised(KeyError(arg));
      case Some(cmp) =>
        Push(Compare(expr, [cmp], [right]));
        return Pass;
    }

    /** LOAD_CONST. */
    method LoadConst(arg: Arg)
      modifies this
      ensures stack == Names.LoadConst(old(stack), arg)
      ensures ilst == old(ilst) && seenYield == old(seenYield)
    {
      Push(ConstNode(arg));
    }

    /** LOAD_NAME; LOAD_FAST, LOAD_GLOBAL and LOAD_DEREF do the same. */
    method LoadName(name: string)
      modifies this
      ensures stack == Names.LoadName(old(stack), name)
      ensures ilst == old(ilst) && seenYield == old(seenYield)
    {
      Push(Name(name, Load));
    }

    /** DELETE_NAME; DELETE_FAST does the same. */
    method DeleteName(name: string)
      modifies this
      ensures stack == Names.DeleteName(old(stack), name)
      ensures ilst == old(ilst) && seenYield == old(seenYield)
    {
      Push(Delete([Name(name, Del)]));
    }

    /** RETURN_VALUE. */
    method ReturnValue()
      requires |stack| >= 1
      modifies this
      ensures stack == Names.ReturnValue(old(stack))
      ensures ilst == old(ilst) && seenYield == old(seenYield)
    {
      var value := Pop();
      Push(Return(value));
    }

    /** YIELD_VALUE: also records that the block is a generator's. */
    method YieldValue()
      requires |stack| >= 1
      modifies this
      ensures stack == Names.YieldValue(old(stack)) && seenYield
      ensures ilst == old(ilst)
    {
      var value := Pop();
      Push(Yield(value));
      seenYield := true;
    }

    /** LOAD_ATTR. */
    method LoadAttr(attr: string)
      requires |stack| >= 1
      modifies this
      ensures stack == Names.LoadAttr(old(stack), attr)
      ensures ilst == old(ilst) && seenYield == old(seenYield)
    {
      var name := Pop();
      Push(Attribute(name, attr, Load));
    }

    /** DELETE_ATTR. */
    method DeleteAttr(attr: string)
      requires |stack| >= 1
      modifies this
      ensures stack == Names.DeleteAttr(old(stack), attr)
      ensures ilst == old(ilst) && seenYield == old(seenYield)
    {
      var expr := Pop();
      Push(Delete([Attribute(expr, attr, Del)]));
    }

    /** ROT_TWO. */
    method RotTwo()
      requires |stack| >= 2
      modifies this
      ensures stack == Stacks.RotTwo(old(stack))
      ensures ilst == old(ilst) && seenYield == old(seenYield)
    {
      var one := Pop();
      var two := Pop();
      Push(one);
      Push(two);
    }

    /** ROT_THREE. */
    method RotThree()
      requires |stack| >= 3
      modifies this
      ensures stack == Stacks.RotThree(old(stack))
      ensures ilst == old(ilst) && seenYield == old(seenYield)
    {
      var expr1 := Pop();
      var expr2 := Pop();
      var expr3 := Pop();
      Push(expr1);
      Push(expr3);
      Push(expr2);
    }

    /** DUP_TOP. */
    method DupTop()
      requires |stack| >= 1
      modifies this
      ensures stack == Stacks.DupTop(old(stack))
      ensures ilst == old(ilst) && seenYield == old(seenYield)
    {
      var expr := Pop();
      Push(expr);
      Push(expr);
    }

    /** DUP_TOPX n. */
    method DupTopX(n: nat)
      requires |stack| >= n
      modifies this
      ensures stack == Stacks.DupTopX(old(stack), n)
      ensures ilst == old(ilst) && seenYield == old(seenYield)
    {
      var exprs := PopItems(n);
      stack := stack + exprs;
      stack := stack + exprs;
    }

    /**
     * One round of CALL_FUNCTION's first loop: pops a keyword's value, then
     * its name, which must be a string constant (else AttributeError).
     */
    method PopKeyword() returns (outcome: Outcome, keyword: Keyword)
      requires |stack| >= 2
      modifies this
      ensures outcome.Pass? <==> Peek(old(stack), 1).Str?
      ensures outcome.Pass? ==> keyword == Keyword(Peek(old(stack), 1).s, Peek(old(stack), 0))
      ensures outcome.Raised? ==> outcome.error == AttributeError("s")
      ensures stack == Below(old(stack), 2)
      ensures ilst == old(ilst) && seenYield == old(seenYield)
    {
      var expr := Pop();
      var name := Pop();
      if !name.Str? {
        return Raised(AttributeError("s")), Keyword("", expr);
      }
      return Pass, Keyword(name.s, expr);
    }

    /**
     * CALL_FUNCTION's first loop: pops nkwargs keyword pairs, putting each
     * keyword in front of those popped before it; the first name that is
     * not a string constant raises AttributeError.
     */
    method PopKeywords(nkwargs: nat) returns (outcome: Outcome, keywords: seq<Keyword>)
      requires |stack| >= 2 * nkwargs
      modifies this
      ensures outcome.Pass? <==> Calls.Keywords(TopItems(old(stack), 2 * nkwargs)).Ok?
      ensures outcome.Pass? ==> keywords == Calls.Keywords(TopItems(old(stack), 2 * nkwargs)).value
      ensures outcome.Pass? ==> stack == Below(old(stack), 2 * nkwargs)
      ensures outcome.Raised? ==> outcome.error == AttributeError("s")
      ensures ilst == old(ilst) && seenYield == old(seenYield)
    {
      ghost var pairs, base := TopItems(stack, 2 * nkwargs), Below(stack, 2 * nkwargs);
      assert |pairs| == 2 * nkwargs && pairs[..2 * nkwargs] == pairs && pairs[2 * nkwargs..] == [];
      keywords := [];
      var k: nat := nkwargs;
      while k > 0
        invariant k <= nkwargs
        invariant stack == base + pairs[..2 * k]
        invariant Calls.Keywords(pairs[2 * k..]).Ok? && keywords == Calls.Keywords(pairs[2 * k..]).value
        invariant ilst == old(ilst) && seenYield == old(seenYield)
      {
        ghost var name, value := pairs[2 * k - 2], pairs[2 * k - 1];
        LastPairOfPrefix(base, pairs, 2 * k);
        var keyword;
        outcome, keyword := PopKeyword();
        if outcome.Raised? {
          Calls.KeywordsFailAt(pairs, nkwargs, k - 1);
          return;
        }
        Calls.KeywordsConsPair(name, value, pairs[2 * k..], nkwargs - k);
        keywords := [keyword] + keywords;
        k := k - 1;
      }
      assert pairs[0..] == pairs;
      outcome := Pass;
    }

    /**
     * CALL_FUNCTION: splits the packed count, pops the keyword pairs, then
     * the positional arguments, then the callee, and pushes the call -- or
     * applies the callee as a decorator to a lone definition argument.
     */
    method CallFunction(oparg: nat) returns (outcome: Outcome)
      requires |stack| >= CallDepth(oparg)
      modifies this
      ensures outcome.Pass? <==> Calls.CallFunction(old(stack), oparg).Ok?
      ensures outcome.Pass? ==> stack == Calls.CallFunction(old(stack), oparg).value
      ensures outcome.Raised? ==> outcome.error == AttributeError("s")
      ensures ilst == old(ilst) && seenYield == old(seenYield)
    {
      var nkwargs := oparg / 256;
      var nargs := AndNot(oparg, nkwargs * 256);
      assert nkwargs == Calls.KeywordCount(oparg) && nargs == Calls.PositionalCount(oparg);
      Calls.CallParts(stack, oparg);
      var keywords;
      outcome, keywords := PopKeywords(nkwargs);
      if outcome.Raised? {
        return;
      }
      var args := PopItems(nargs);
      var node := Pop();
      if |args| == 1 && (args[0].FunctionDef? || args[0].ClassDef?) {
        Push(Calls.Decorate(args[0], node));
      } else {
        Push(Call(node, args, keywords, None, None));
      }
    }

    /** CALL_FUNCTION_VAR: pops `*args`, runs CALL_FUNCTION and sets the call's starargs. */
    method CallFunctionVar(oparg: nat) returns (outcome: Outcome)
      requires |stack| >= CallDepth(oparg) + 1
      modifies this
      ensures outcome.Pass? <==> Calls.CallFunctionVar(old(stack), oparg).Ok?
      ensures outcome.Pass? ==> stack == Calls.CallFunctionVar(old(stack), oparg).value
      ensures outcome.Raised? ==> outcome.error == AttributeError("s")
      ensures ilst == old(ilst) && seenYield == old(seenYield)
    {
      var arg := Pop();
      outcome := CallFunction(oparg);
      if outcome.Raised? {
        return;
      }
      var callfunc := Pop();
      Push(Calls.WithExtras(callfunc, Some(arg), None));
    }

    /** CALL_FUNCTION_KW: pops `**kwargs`, runs CALL_FUNCTION and sets the call's kwargs. */
    method CallFunctionKw(oparg: nat) returns (outcome: Outcome)
      requires |stack| >= CallDepth(oparg) + 1
      modifies this
      ensures outcome.Pass? <==> Calls.CallFunctionKw(old(stack), oparg).Ok?
      ensures outcome.Pass? ==> stack == Calls.CallFunctionKw(old(stack), oparg).value
      ensures outcome.Raised? ==> outcome.error == AttributeError("s")
      ensures ilst == old(ilst) && seenYield == old(seenYield)
    {
      var kwarg := Pop();
      outcome := CallFunction(oparg);
      if outcome.Raised? {
        return;
      }
      var callfunc := Pop();
      Push(Calls.WithExtras(callfunc, None, Some(kwarg)));
    }

    /** CALL_FUNCTION_VAR_KW: pops `**kwargs`, then `*args`, runs CALL_FUNCTION and sets both. */
    method CallFunctionVarKw(oparg: nat) returns (outcome: Outcome)
      requires |stack| >= CallDepth(oparg) + 2
      modifies this
      ensures outcome.Pass? <==> Calls.CallFunctionVarKw(old(stack), oparg).Ok?
      ensures outcome.Pass? ==> stack == Calls.CallFunctionVarKw(old(stack), oparg).value
      ensures outcome.Raised? ==> outcome.error == AttributeError("s")
      ensures ilst == old(ilst) && seenYield == old(seenYield)
    {
      var kwarg := Pop();
      var arg := Pop();
      assert stack == Below(old(stack), 2);
      outcome := CallFunction(oparg);
      if outcome.Raised? {
        return;
      }
      ghost var t := stack;
      var callfunc := Pop();
      assert callfunc == Peek(t, 0) && stack == Below(t, 1);
      assert Calls.CallFunctionVarKw(old(stack), oparg) == Ok(stack + [Calls.WithExtras(callfunc, Some(arg), Some(kwarg))]);
      Push(Calls.WithExtras(callfunc, Some(arg), Some(kwarg)));
    }

    /**
     * STORE_NAME: pops the value, merges an If into a conditional
     * expression, and records the store the way the value's kind asks for.
     */
    method StoreName(name: string) returns (outcome: Outcome)
      requires |stack| >= 1
      modifies this
      ensures outcome.Pass? <==> Names.StoreName(old(stack), name).Ok?
      ensures outcome.Pass? ==> stack == Names.StoreName(old(stack), name).value
      ensures outcome.Raised? ==> outcome.error == Names.StoreName(old(stack), name).error
      ensures ilst == old(ilst) && seenYield == old(seenYield)
    {
      var value0 := Pop();
      var merged := Names.ProcessIfExpr(value0);
      if merged.Fail? {
        return Raised(merged.error);
      }
      var value := merged.value;
      if value.Import? {
        if value.isFrom {
          if |stack| == 0 {
            return Raised(IndexError);
          }
          if !Peek(stack, 0).ImportFrom? {
            return Raised(AssertionError);
          }
          var from_ := Pop();
          var names := Names.Rebind(from_.names, name);
          if names.Fail? {
            return Raised(names.error);
          }
          Push(ImportFrom(from_.moduleName, names.value, from_.level));
          Push(value);
        } else {
          var names := Names.Rebind(value.names, name);
          if names.Fail? {
            return Raised(names.error);
          }
          Push(Import(names.value, false));
        }
      } else if value.FunctionDef? || value.ClassDef? {
        Push(value.(name := name));
      } else if value.AugAssign? {
        Push(value);
      } else if value.Assign? {
        if |stack| == 0 {
          return Raised(IndexError);
        }
        var _ := Pop();
        Push(Assign(value.targets + [Name(name, Store)], value.value));
      } else {
        Push(Assign([Name(name, Store)], value));
      }
      return Pass;
    }

    /** STORE_FAST: the same as STORE_NAME. */
    method StoreFast(name: string) returns (outcome: Outcome)
      requires |stack| >= 1
      modifies this
      ensures outcome.Pass? <==> Names.StoreName(old(stack), name).Ok?
      ensures outcome.Pass? ==> stack == Names.StoreName(old(stack), name).value
      ensures outcome.Raised? ==> outcome.error == Names.StoreName(old(stack), name).error
      ensures ilst == old(ilst) && seenYield == old(seenYield)
    {
      outcome := StoreName(name);
    }

    /**
     * STORE_ATTR, corrected: pops the object, then the value (merging an
     * If), and records `object.attr = value`; an augmented assignment
     * already stores into the attribute and is pushed back as it is, where
     * the handler as written wraps it in an assignment.
     */
    method StoreAttr(attr: string) returns (outcome: Outcome)
      requires |stack| >= 2
      modifies this
      ensures outcome.Pass? <==> Names.StoreAttr(old(stack), attr).Ok?
      ensures outcome.Pass? ==> stack == Names.StoreAttr(old(stack), attr).value
      ensures outcome.Raised? ==> outcome.error == AssertionError
      ensures ilst == old(ilst) && seenYield == old(seenYield)
    {
      var node := Pop();
      var expr0 := Pop();
      assert stack == Below(old(stack), 2);
      var merged := Names.ProcessIfExpr(expr0);
      if merged.Fail? {
        return Raised(merged.error);
      }
      var expr := merged.value;
      if expr.AugAssign? {
        Push(expr);
      } else {
        Push(Assign([Attribute(node, attr, Store)], expr));
      }
      return Pass;
    }

    /** IMPORT_NAME: pops the from-list and the level and pushes the pending import. */
    method ImportName(name: string)
      requires |stack| >= 2
      modifies this
      ensures stack == Names.ImportName(old(stack), name)
      ensures ilst == old(ilst) && seenYield == old(seenYield)
    {
      var from_ := Pop();
      var _ := Pop();
      Push(Import([Alias(name, None)], !IsNone(from_)));
    }

    /** IMPORT_FROM: pushes `from module import name` below the pending import. */
    method FromImport(name: string) returns (outcome: Outcome)
      requires |stack| >= 1
      modifies this
      ensures outcome.Pass? <==> Names.FromImport(old(stack), name).Ok?
      ensures outcome.Pass? ==> stack == Names.FromImport(old(stack), name).value
      ensures outcome.Raised? ==> outcome.error == Names.FromImport(old(stack), name).error
      ensures ilst == old(ilst) && seenYield == old(seenYield)
    {
      var import_ := Pop();
      if !(import_.Import? || import_.ImportFrom?) {
        return Raised(AttributeError("names"));
      }
      if |import_.names| == 0 {
        return Raised(IndexError);
      }
      Push(ImportFrom(import_.names[0].name, [Alias(name, None)], 0));
      Push(import_);
      return Pass;
    }

    /** IMPORT_STAR: the pending import becomes `from module import *`. */
    method StarImport() returns (outcome: Outcome)
      requires |stack| >= 1
      modifies this
      ensures outcome.Pass? <==> Names.StarImport(old(stack)).Ok?
      ensures outcome.Pass? ==> stack == Names.StarImport(old(stack)).value
      ensures outcome.Raised? ==> outcome.error == Names.StarImport(old(stack)).error
      ensures ilst == old(ilst) && seenYield == old(seenYield)
    {
      var import_ := Pop();
      if !(import_.Import? || import_.ImportFrom?) {
        return Raised(AttributeError("names"));
      }
      if |import_.names| == 0 {
        return Raised(IndexError);
      }
      Push(ImportFrom(import_.names[0].name, [Alias("*", None)], 0));
      return Pass;
    }

    /**
     * POP_TOP: pops the value (merging an If); an import is dropped, a
     * print statement replaces the entry below it, anything else becomes an
     * expression statement.
     */
    method PopTop() returns (outcome: Outcome)
      requires |stack| >= 1
      modifies this
      ensures outcome.Pass? <==> Statements.PopTop(old(stack)).Ok?
      ensures outcome.Pass? ==> stack == Statements.PopTop(old(stack)).value
      ensures outcome.Raised? ==> outcome.error == Statements.PopTop(old(stack)).error
      ensures ilst == old(ilst) && seenYield == old(seenYield)
    {
      var node0 := Pop();
      var merged := Names.ProcessIfExpr(node0);
      if merged.Fail? {
        return Raised(merged.error);
      }
      var node := merged.value;
      if node.Import? {
        return Pass;
      }
      if node.Print? {
        if |stack| == 0 {
          return Raised(IndexError);
        }
        var _ := Pop();
        Push(node);
        return Pass;
      }
      Push(Expr(node));
      return Pass;
    }

    /** BUILD_LIST n. */
    method BuildList(n: nat)
      requires |stack| >= n
      modifies this
      ensures stack == Containers.BuildList(old(stack), n)
      ensures ilst == old(ilst) && seenYield == old(seenYield)
    {
      var nodes := PopItems(n);
      Push(List(nodes, Load));
    }

    /** BUILD_SET n. */
    method BuildSet(n: nat)
      requires |stack| >= n
      modifies this
      ensures stack == Containers.BuildSet(old(stack), n)
      ensures ilst == old(ilst) && seenYield == old(seenYield)
    {
      var nodes := PopItems(n);
      Push(Set(nodes, Load));
    }

    /** BUILD_TUPLE n: a tuple of closure cells is popped and not pushed. */
    method BuildTuple(n: nat) returns (outcome: Outcome)
      requires |stack| >= n
      modifies this
      ensures outcome.Pass? <==> Containers.BuildTuple(old(stack), n).Ok?
      ensures outcome.Pass? ==> stack == Containers.BuildTuple(old(stack), n).value
      ensures outcome.Raised? ==> outcome.error == AssertionError
      ensures ilst == old(ilst) && seenYield == old(seenYield)
    {
      var nodes := PopItems(n);
      if Containers.AnyClosure(nodes) {
        if !Containers.AllClosure(nodes) {
          return Raised(AssertionError);
        }
        return Pass;
      }
      Push(Tuple(nodes, Load));
      return Pass;
    }

    /** PRINT_ITEM. */
    method PrintItem()
      requires |stack| >= 1
      modifies this
      ensures stack == Statements.PrintItem(old(stack))
      ensures ilst == old(ilst) && seenYield == old(seenYield)
    {
      var item := Pop();
      if |stack| > 0 && Statements.OpenPrint(Peek(stack, 0)) {
        var print_ := Pop();
        Push(Print(None, print_.values + [item], false));
      } else {
        Push(Print(None, [item], false));
      }
    }

    /**
     * PRINT_NEWLINE, corrected to check for an empty stack the way
     * PRINT_ITEM does; the handler as written raises IndexError there.
     */
    method PrintNewline()
      modifies this
      ensures stack == Statements.PrintNewline(old(stack))
      ensures ilst == old(ilst) && seenYield == old(seenYield)
    {
      if |stack| > 0 && Statements.OpenPrint(Peek(stack, 0)) {
        var item := Pop();
        Push(Print(None, item.values, true));
      } else {
        Push(Print(None, [], true));
      }
    }

    /** RAISE_VARARGS n: pops the traceback, the instance and the type, as far as n goes. */
    method RaiseVarargs(nargs: nat)
      requires |stack| >= Statements.RaiseCount(nargs)
      modifies this
      ensures stack == Statements.RaiseVarargs(old(stack), nargs)
      ensures ilst == old(ilst) && seenYield == old(seenYield)
    {
      var tback: Option<Node> := None;
      var inst: Option<Node> := None;
      var excType: Option<Node> := None;
      if nargs > 2 {
        var n := Pop();
        tback := Some(n);
      }
      if nargs > 1 {
        var n := Pop();
        inst := Some(n);
      }
      if nargs > 0 {
        var n := Pop();
        excType := Some(n);
      }
      Push(Raise(excType, inst, tback));
    }

    /** BINARY_SUBSCR. */
    method BinarySubscr()
      requires |stack| >= 2
      modifies this
      ensures stack == Subscripts.BinarySubscr(old(stack))
      ensures ilst == old(ilst) && seenYield == old(seenYield)
    {
      var index := Pop();
      var value := Pop();
      index := Subscripts.FormatSlice(index);
      Push(Subscript(value, index, Load));
    }

    /** STORE_SUBSCR: an augmented assignment is pushed back as it is. */
    method StoreSubscr()
      requires |stack| >= 3
      modifies this
      ensures stack == Subscripts.StoreSubscr(old(stack))
      ensures ilst == old(ilst) && seenYield == old(seenYield)
    {
      var index := Pop();
      var value := Pop();
      var expr := Pop();
      assert stack == Below(old(stack), 3) && expr == Peek(old(stack), 2);
      if expr.AugAssign? {
        Push(expr);
      } else {
        index := Subscripts.FormatSlice(index);
        Push(Assign([Subscript(value, index, Store)], expr));
      }
    }

    /** DELETE_SUBSCR. */
    method DeleteSubscr()
      requires |stack| >= 2
      modifies this
      ensures stack == Subscripts.DeleteSubscr(old(stack))
      ensures ilst == old(ilst) && seenYield == old(seenYield)
    {
      var index := Pop();
      var value := Pop();
      index := Subscripts.FormatSlice(index);
      Push(Delete([Subscript(value, index, Del)]));
    }

    /** The bounds of SLICE_n and its relatives: the upper one (n = 2, 3), then the lower one (n = 1, 3). */
    method PopBounds(n: nat) returns (sl: Node)
      requires n <= 3 && |stack| >= Subscripts.BoundCount(n)
      modifies this
      ensures sl == Subscripts.PoppedSlice(old(stack), n) && stack == Below(old(stack), Subscripts.BoundCount(n))
      ensures ilst == old(ilst) && seenYield == old(seenYield)
    {
      var upper: Option<Node> := None;
      var lower: Option<Node> := None;
      if n >= 2 {
        var b := Pop();
        upper := Some(b);
      }
      if n % 2 == 1 {
        var b := Pop();
        lower := Some(b);
      }
      sl := Slice(lower, upper, None);
    }

    /** SLICE_n. */
    method SliceLoad(n: nat)
      requires n <= 3 && |stack| >= Subscripts.BoundCount(n) + 1
      modifies this
      ensures stack == Subscripts.SliceLoad(old(stack), n)
      ensures ilst == old(ilst) && seenYield == old(seenYield)
    {
      var sl := PopBounds(n);
      var value := Pop();
      Push(Subscript(value, sl, Load));
    }

    /**
     * STORE_SLICE_n, corrected: an augmented slice assignment is pushed back
     * as it is, where the handler as written wraps it in an assignment.
     */
    method StoreSlice(n: nat)
      requires n <= 3 && |stack| >= Subscripts.BoundCount(n) + 2
      modifies this
      ensures stack == Subscripts.StoreSlice(old(stack), n)
      ensures ilst == old(ilst) && seenYield == old(seenYield)
    {
      var sl := PopBounds(n);
      var value := Pop();
      var expr := Pop();
      assert stack == Below(old(stack), Subscripts.BoundCount(n) + 2);
      if expr.AugAssign? {
        Push(expr);
      } else {
        Push(Assign([Subscript(value, sl, Store)], expr));
      }
    }

    /** DELETE_SLICE_n. */
    method DeleteSlice(n: nat)
      requires n <= 3 && |stack| >= Subscripts.BoundCount(n) + 1
      modifies this
      ensures stack == Subscripts.DeleteSlice(old(stack), n)
      ensures ilst == old(ilst) && seenYield == old(seenYield)
    {
      var sl := PopBounds(n);
      var value := Pop();
      Push(Delete([Subscript(value, sl, Del)]));
    }

    /** BUILD_SLICE: pops the step, the upper and the lower bound as far as the argument goes. */
    method BuildSlice(oparg: nat)
      requires |stack| >= Subscripts.SlicePops(oparg)
      modifies this
      ensures stack == Subscripts.BuildSlice(old(stack), oparg)
      ensures ilst == old(ilst) && seenYield == old(seenYield)
    {
      var step: Option<Node> := None;
      var upper: Option<Node> := None;
      var lower: Option<Node> := None;
      if oparg > 2 {
        var n := Pop();
        step := Some(n);
      }
      if oparg > 1 {
        var n := Pop();
        upper := Some(n);
      }
      if oparg > 0 {
        var n := Pop();
        lower := Some(n);
      }
      Push(Slice(DropNone(lower), DropNone(upper), step));
    }

    /**
     * BUILD_MAP's inner loop: takes instructions off the front of the feed
     * until a STORE_MAP, which is dropped, and gives back those before it;
     * a feed that runs out first raises IndexError.
     */
    method ReadEntryBlock(ghost feed: seq<Instr>, ghost at: nat) returns (outcome: Outcome, block: seq<Instr>)
      requires at <= |feed| && ilst == feed[at..]
      modifies this
      ensures outcome.Pass? <==> StoreMapFrom(feed, at) < |feed|
      ensures outcome.Pass? ==> block == feed[at..StoreMapFrom(feed, at)] && ilst == feed[StoreMapFrom(feed, at) + 1..]
      ensures outcome.Raised? ==> outcome.error == IndexError
      ensures stack == old(stack) && seenYield == old(seenYield)
    {
      block := [];
      while true
        invariant at + |block| <= |feed| && ilst == feed[at + |block|..] && block == feed[at..at + |block|]
        invariant forall j | at <= j < at + |block| :: !IsStoreMap(feed[j])
        invariant stack == old(stack) && seenYield == old(seenYield)
        decreases |ilst|
      {
        if |ilst| == 0 {
          return Raised(IndexError), block;
        }
        var newInstr := ilst[0];
        ilst := ilst[1..];
        if newInstr.opname == "STORE_MAP" {
          StoreMapFromIs(feed, at, at + |block|);
          return Pass, block;
        }
        block := block + [newInstr];
      }
    }

    /**
     * BUILD_MAP n: reads n entries off the instruction feed, each decompiled
     * on its own into a value and a key (else AssertionError), and pushes the
     * dictionary of them.
     */
    method BuildMap(n: nat) returns (outcome: Outcome)
      modifies this
      ensures outcome.Pass? <==> Containers.BuildMap(old(stack), old(ilst), n, decompileBlock).Ok?
      ensures outcome.Pass? ==> (stack, ilst) == Containers.BuildMap(old(stack), old(ilst), n, decompileBlock).value
      ensures outcome.Raised? ==> outcome.error == Containers.BuildMap(old(stack), old(ilst), n, decompileBlock).error
      ensures seenYield == old(seenYield)
    {
      ghost var feed := ilst;
      ghost var at: nat := 0;
      var keys: seq<Node> := [];
      var values: seq<Node> := [];
      for i := 0 to n
        invariant at <= |feed| && ilst == feed[at..]
        invariant MapEntries(feed, 0, i, decompileBlock).Ok?
        invariant MapEntries(feed, 0, i, decompileBlock).value == Entries(keys, values, at)
        invariant stack == old(stack) && seenYield == old(seenYield)
      {
        var block;
        outcome, block := ReadEntryBlock(feed, at);
        if outcome.Raised? {
          MapEntriesStop(feed, 0, i, n, decompileBlock);
          return;
        }
        var items := decompileBlock(block);
        if |items| != 2 {
          MapEntriesStop(feed, 0, i, n, decompileBlock);
          return Raised(AssertionError);
        }
        values := values + [items[0]];
        keys := keys + [items[1]];
        MapEntriesSnoc(feed, 0, i, decompileBlock);
        at := StoreMapFrom(feed, at) + 1;
      }
      Push(Dict(keys, values));
      outcome := Pass;
    }

    /**
     * UNPACK_SEQUENCE n, the feed being read from position `at`: for each
     * element, takes the next instruction off the feed, pushes a None
     * placeholder, runs the instruction on it and collects the target of
     * the assignment it leaves; then the top entry becomes the value of
     * `(targets..) = value`.
     */
    method UnpackSequence(n: nat, ghost feed: seq<Instr>, ghost at: nat) returns (outcome: Outcome)
      requires |stack| >= 1 && at <= |feed| && ilst == feed[at..]
      modifies this
      ensures outcome.Pass? <==> Containers.UnpackSequence(old(stack), feed, at, n).Ok?
      ensures outcome.Pass? ==> var (s, next) := Containers.UnpackSequence(old(stack), feed, at, n).value;
        stack == s && ilst == feed[next..]
      ensures outcome.Raised? ==> outcome.error == Containers.UnpackSequence(old(stack), feed, at, n).error
      ensures seenYield == old(seenYield)
      decreases |ilst|, 1
    {
      ghost var pos: nat := at;
      var nodes: seq<Node> := [];
      for i := 0 to n
        invariant at <= pos <= |feed| && ilst == feed[pos..]
        invariant Containers.UnpackTargets(feed, at, i).Ok? && Containers.UnpackTargets(feed, at, i).value == (nodes, pos)
        invariant stack == old(stack) && seenYield == old(seenYield)
      {
        var target;
        outcome, target := UnpackElement(feed, pos);
        if outcome.Raised? {
          Containers.UnpackTargetsStop(feed, at, i, n);
          return;
        }
        nodes := nodes + [target];
        Containers.UnpackTargetsSnoc(feed, at, i);
        pos := Containers.UnpackTarget(feed, pos).value.1;
      }
      var expr := Pop();
      Push(Assign([Tuple(nodes, Store)], expr));
      outcome := Pass;
    }

    /**
     * One element of UNPACK_SEQUENCE: takes the next instruction off the
     * feed (IndexError if there is none), runs it on a None placeholder and
     * gives back the first target of the assignment it leaves, the stack
     * then being as it was.
     */
    method UnpackElement(ghost feed: seq<Instr>, ghost at: nat) returns (outcome: Outcome, target: Node)
      requires at <= |feed| && ilst == feed[at..]
      modifies this
      ensures outcome.Pass? <==> Containers.UnpackTarget(feed, at).Ok?
      ensures outcome.Pass? ==> var (t, next) := Containers.UnpackTarget(feed, at).value;
        target == t && ilst == feed[next..] && stack == old(stack)
      ensures outcome.Raised? ==> outcome.error == Containers.UnpackTarget(feed, at).error
      ensures seenYield == old(seenYield)
      decreases |ilst|, 0
    {
      target := NoneValue;
      if |ilst| == 0 {
        outcome := Raised(IndexError);
        return;
      }
      var nextInstr := ilst[0];
      ilst := ilst[1..];
      Push(NoneValue);
      outcome := VisitTarget(nextInstr, feed, at);
      if outcome.Raised? {
        return;
      }
      var node := Pop();
      target := node.targets[0];
    }

    /**
     * The dispatch UNPACK_SEQUENCE makes for each element: the instruction
     * at position `at` of the feed runs on the None placeholder on top.  A
     * name store and a nested UNPACK_SEQUENCE leave an assignment whose
     * first target is the element's; any other instruction is outside this
     * model.
     */
    method VisitTarget(instr: Instr, ghost feed: seq<Instr>, ghost at: nat) returns (outcome: Outcome)
      requires at < |feed| && feed[at] == instr && ilst == feed[at + 1..]
      requires |stack| >= 1 && Peek(stack, 0) == NoneValue
      modifies this
      ensures outcome.Pass? <==> Containers.UnpackTarget(feed, at).Ok?
      ensures outcome.Pass? ==> var (target, next) := Containers.UnpackTarget(feed, at).value;
        stack == Below(old(stack), 1) + [Assign([target], NoneValue)] && ilst == feed[next..]
      ensures outcome.Raised? ==> outcome.error == Containers.UnpackTarget(feed, at).error
      ensures seenYield == old(seenYield)
      decreases |ilst|, 2
    {
      if Containers.IsNameStore(instr) {
        Containers.StoreOfPlaceholder(Below(stack, 1), instr.arg.s);
        assert stack == Below(stack, 1) + [NoneValue];
        if instr.opname == "STORE_NAME" {
          outcome := StoreName(instr.arg.s);
        } else {
          outcome := StoreFast(instr.arg.s);
        }
      } else if instr.opname == "UNPACK_SEQUENCE" {
        outcome := UnpackSequence(instr.oparg, feed, at + 1);
      } else {
        outcome := Raised(Unsupported(instr.opname));
      }
    }
  }

  /**
   * The first m entries of a run of keyword entries laid over a base: the
   * top two are the run's entries m - 2 and m - 1, and they run on into the
   * rest of the run.
   */
  lemma LastPairOfPrefix(base: seq<Node>, p: seq<Node>, m: nat)
    requires 2 <= m <= |p|
    ensures var s := base + p[..m];
      && Peek(s, 0) == p[m - 1] && Peek(s, 1) == p[m - 2] && Below(s, 2) == base + p[..m - 2]
      && p[m - 2..] == [p[m - 2], p[m - 1]] + p[m..]
  {
    var s := base + p[..m];
    assert Below(s, 2) == base + p[..m - 2];
    assert p[m - 2..] == [p[m - 2], p[m - 1]] + p[m..];
  }

  /** A sequence splits at j into the run from i to j and the rest. */
  lemma SplitAt<T>(p: seq<T>, i: nat, j: nat)
    requires i <= j <= |p|
    ensures p[i..] == p[i..j] + p[j..]
    ensures i == 0 ==> p == p[..j] + p[j..]
  {
  }
}
