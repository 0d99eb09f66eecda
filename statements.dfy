/**
 * The handlers that finish or extend a statement on the stack: POP_TOP,
 * PRINT_ITEM, PRINT_NEWLINE and RAISE_VARARGS.
 */
module Statements {
  import opened Wrappers
  import opened Ast
  import opened Tags
  import opened Stacks
  import opened Names

  /**
   * What POP_TOP does with the value it popped, once an If is merged into a
   * conditional expression, `s` being the stack below it:
   *  - an import is dropped: the store before it has already recorded it;
   *  - a print statement takes the place of the entry below it (the stream
   *    a `print >>` statement duplicated), and IndexError is raised when
   *    there is none;
   *  - anything else becomes an expression statement.
   */
  function PopValue(s: seq<Node>, node: Node): (r: Result<seq<Node>>)
    ensures r.Fail? <==> node.Print? && |s| == 0
    ensures r.Fail? ==> r.error == IndexError
    ensures r.Ok? && node.Import? ==> r.value == s
    ensures r.Ok? && node.Print? ==> r.value == Below(s, 1) + [node]
    ensures r.Ok? && !node.Import? && !node.Print? ==> r.value == s + [Expr(node)]
  {
    if node.Import? then Ok(s)
    else if node.Print? then
      if |s| == 0 then Fail(IndexError) else Ok(Below(s, 1) + [node])
    else Ok(s + [Expr(node)])
  }

  /** POP_TOP: pops the value of an expression statement, merges an If into a conditional expression, and finishes the statement. */
  function PopTop(s: seq<Node>): (r: Result<seq<Node>>)
    requires |s| >= 1
    ensures ProcessIfExpr(Peek(s, 0)).Fail? ==> r == Fail(AssertionError)
    ensures ProcessIfExpr(Peek(s, 0)).Ok? ==> r == PopValue(Below(s, 1), ProcessIfExpr(Peek(s, 0)).value)
  {
    var node0, s1 := Peek(s, 0), Below(s, 1);
    match ProcessIfExpr(node0)
    case Fail(e) => Fail(e)
    case Ok(node) => PopValue(s1, node)
  }

  /** Finishing a well-tagged statement keeps a well-tagged stack well tagged. */
  lemma PopValueKeepsTags(s: seq<Node>, node: Node)
    requires StackTagged(s) && WellTagged(node) && PopValue(s, node).Ok?
    ensures StackTagged(PopValue(s, node).value)
  {
    if node.Print? {
      TaggedParts(s, 1);
      TaggedPush(Below(s, 1), [node]);
    } else if !node.Import? {
      assert Kids(Expr(node)) == [node];
      TaggedPush(s, [Expr(node)]);
    }
  }

  /** A successful POP_TOP keeps a well-tagged stack well tagged. */
  lemma PopTopKeepsTags(s: seq<Node>)
    requires |s| >= 1 && StackTagged(s) && PopTop(s).Ok?
    ensures StackTagged(PopTop(s).value)
  {
    TaggedParts(s, 1);
    IfExprKeepsTags(Peek(s, 0));
    PopValueKeepsTags(Below(s, 1), ProcessIfExpr(Peek(s, 0)).value);
  }

  /** A print statement that still takes items: no newline yet, and no stream. */
  predicate OpenPrint(n: Node) {
    n.Print? && !n.nl && n.dest.None?
  }

  /** The open prints are exactly the print statements with no stream and no newline, whatever their values. */
  lemma OpenPrintShape(n: Node)
    ensures OpenPrint(n) <==> exists values: seq<Node> :: n == Print(None, values, false)
  {
    if OpenPrint(n) {
      assert n == Print(None, n.values, false);
    }
  }

  /**
   * PRINT_ITEM: pops the item; an open print statement on top takes it as
   * its last value, otherwise a new open print statement of just that item
   * is pushed.
   */
  function PrintItem(s: seq<Node>): (r: seq<Node>)
    requires |s| >= 1
    ensures var item, s1 := Peek(s, 0), Below(s, 1);
      if |s1| > 0 && OpenPrint(Peek(s1, 0)) then
        |r| == |s1| && Below(r, 1) == Below(s1, 1) && Peek(r, 0) == Print(None, Peek(s1, 0).values + [item], false)
      else
        |r| == |s1| + 1 && Below(r, 1) == s1 && Peek(r, 0) == Print(None, [item], false)
  {
    var item, s1 := Peek(s, 0), Below(s, 1);
    if |s1| > 0 && OpenPrint(Peek(s1, 0)) then Below(s1, 1) + [Print(None, Peek(s1, 0).values + [item], false)]
    else s1 + [Print(None, [item], false)]
  }

  /** PRINT_ITEM keeps a well-tagged stack well tagged. */
  lemma PrintItemKeepsTags(s: seq<Node>)
    requires |s| >= 1 && StackTagged(s)
    ensures StackTagged(PrintItem(s))
  {
    TaggedParts(s, 1);
    var item, s1 := Peek(s, 0), Below(s, 1);
    if |s1| > 0 && OpenPrint(Peek(s1, 0)) {
      TaggedParts(s1, 1);
      AddItemTagged(Below(s1, 1), Peek(s1, 0), item);
    } else {
      TaggedPush(s1, [Print(None, [item], false)]);
    }
  }

  /** Adding a well-tagged item to a well-tagged open print statement on top of a well-tagged stack. */
  lemma AddItemTagged(s: seq<Node>, p: Node, item: Node)
    requires StackTagged(s) && WellTagged(p) && OpenPrint(p) && WellTagged(item)
    ensures StackTagged(s + [Print(None, p.values + [item], false)])
  {
    assert Kids(p) == p.values;
    var q := Print(None, p.values + [item], false);
    assert Kids(q) == p.values + [item];
    TaggedPush(s, [q]);
  }

  /**
   * PRINT_NEWLINE as the handler is written: it reads the top entry without
   * checking that there is one, so an empty stack raises IndexError; an
   * open print statement on top is closed, otherwise an empty closed print
   * statement (a bare `print`) is pushed.
   */
  function PrintNewlineAsWritten(s: seq<Node>): (r: Result<seq<Node>>)
    ensures r.Fail? <==> |s| == 0
    ensures r.Fail? ==> r.error == IndexError
    ensures r.Ok? && OpenPrint(Peek(s, 0)) ==> r.value == Below(s, 1) + [Print(None, Peek(s, 0).values, true)]
    ensures r.Ok? && !OpenPrint(Peek(s, 0)) ==> r.value == s + [Print(None, [], true)]
  {
    if |s| == 0 then Fail(IndexError)
    else
      var item := Peek(s, 0);
      if OpenPrint(item) then Ok(Below(s, 1) + [Print(None, item.values, true)])
      else Ok(s + [Print(None, [], true)])
  }

  /**
   * PRINT_NEWLINE as intended, checking for an empty stack the way
   * PRINT_ITEM does: a bare `print` with nothing on the stack pushes an
   * empty closed print statement.  Wherever the handler as written
   * succeeds, the two agree.
   */
  function PrintNewline(s: seq<Node>): (r: seq<Node>)
    ensures |s| > 0 ==> PrintNewlineAsWritten(s) == Ok(r)
    ensures |s| == 0 ==> r == [Print(None, [], true)]
    ensures Peek(r, 0).Print? && Peek(r, 0).nl && Peek(r, 0).dest.None?
  {
    if |s| > 0 && OpenPrint(Peek(s, 0)) then Below(s, 1) + [Print(None, Peek(s, 0).values, true)]
    else s + [Print(None, [], true)]
  }

  /** PRINT_NEWLINE keeps a well-tagged stack well tagged. */
  lemma PrintNewlineKeepsTags(s: seq<Node>)
    requires StackTagged(s)
    ensures StackTagged(PrintNewline(s))
  {
    if |s| > 0 && OpenPrint(Peek(s, 0)) {
      TaggedParts(s, 1);
      var p := Peek(s, 0);
      assert Kids(p) == p.values;
      var closed := Print(None, p.values, true);
      assert Kids(closed) == p.values;
      TaggedReplaceTop(s, 1, closed);
    } else {
      TaggedPush(s, [Print(None, [], true)]);
    }
  }

  /** A bare `print` at the start of a block: the handler as written raises where the intended one prints a newline. */
  lemma BarePrintFirst()
    ensures PrintNewlineAsWritten([]) == Fail(IndexError)
    ensures PrintNewline([]) == [Print(None, [], true)]
  {
  }

  /**
   * The items of a print statement, each pushed and then handed to
   * PRINT_ITEM, the way `print e1, e2, ...` is compiled.
   */
  function PrintItems(s: seq<Node>, items: seq<Node>): seq<Node>
    decreases |items|
  {
    if |items| == 0 then s else PrintItems(PrintItem(s + [items[0]]), items[1..])
  }

  /** PRINT_ITEM onto an open print statement adds the item to it. */
  lemma PrintItemOpen(s: seq<Node>, pre: seq<Node>, item: Node)
    ensures PrintItem(s + [Print(None, pre, false)] + [item]) == s + [Print(None, pre + [item], false)]
  {
    var open := s + [Print(None, pre, false)];
    var t := open + [item];
    assert Below(t, 1) == open && Peek(t, 0) == item;
    assert Below(open, 1) == s && OpenPrint(Peek(open, 0));
  }

  /** PRINT_ITEM onto anything but an open print statement starts a new one. */
  lemma PrintItemNew(s: seq<Node>, item: Node)
    requires |s| == 0 || !OpenPrint(Peek(s, 0))
    ensures PrintItem(s + [item]) == s + [Print(None, [item], false)]
  {
    var t := s + [item];
    assert Below(t, 1) == s && Peek(t, 0) == item;
  }

  /** Printing several items after an open print statement adds them to it, in order. */
  lemma {:induction false} PrintItemsExtend(s: seq<Node>, pre: seq<Node>, items: seq<Node>)
    ensures PrintItems(s + [Print(None, pre, false)], items) == s + [Print(None, pre + items, false)]
    decreases |items|
  {
    if |items| > 0 {
      var open := s + [Print(None, pre, false)];
      PrintItemOpen(s, pre, items[0]);
      assert PrintItems(open, items) == PrintItems(s + [Print(None, pre + [items[0]], false)], items[1..]);
      PrintItemsExtend(s, pre + [items[0]], items[1..]);
      SplitFirst(pre, items);
    } else {
      assert pre + items == pre;
    }
  }

  /** PRINT_NEWLINE closes an open print statement on top. */
  lemma PrintNewlineCloses(s: seq<Node>, items: seq<Node>)
    ensures PrintNewline(s + [Print(None, items, false)]) == s + [Print(None, items, true)]
  {
    var p := s + [Print(None, items, false)];
    assert Below(p, 1) == s && OpenPrint(Peek(p, 0));
  }

  /**
   * `print e1, ..., en`: the items, printed onto a stack whose top is not an
   * open print statement, become one print statement of exactly those items
   * in order, which PRINT_NEWLINE closes.
   */
  lemma PrintStatement(s: seq<Node>, items: seq<Node>)
    requires |items| > 0 && (|s| == 0 || !OpenPrint(Peek(s, 0)))
    ensures PrintItems(s, items) == s + [Print(None, items, false)]
    ensures PrintNewline(PrintItems(s, items)) == s + [Print(None, items, true)]
  {
    PrintItemNew(s, items[0]);
    assert PrintItems(s, items) == PrintItems(s + [Print(None, [items[0]], false)], items[1..]);
    PrintItemsExtend(s, [items[0]], items[1..]);
    SplitFirst([], items);
    assert [] + [items[0]] == [items[0]] && [] + items == items;
    PrintNewlineCloses(s, items);
  }

  /**
   * Printing items in two runs is printing them in one: a `print a,` with
   * its trailing comma followed by `print b` is read back as `print a, b`,
   * which prints the same text.
   */
  lemma {:induction false} PrintItemsConcat(s: seq<Node>, xs: seq<Node>, ys: seq<Node>)
    ensures PrintItems(PrintItems(s, xs), ys) == PrintItems(s, xs + ys)
    decreases |xs|
  {
    if |xs| == 0 {
      assert xs + ys == ys;
    } else {
      var next := PrintItem(s + [xs[0]]);
      assert PrintItems(s, xs) == PrintItems(next, xs[1..]);
      PrintItemsConcat(next, xs[1..], ys);
      TailOfConcat(xs, ys);
      assert PrintItems(s, xs + ys) == PrintItems(next, xs[1..] + ys);
    }
  }

  /** Dropping the first element of a concatenation whose left part is not empty. */
  lemma TailOfConcat<T>(xs: seq<T>, ys: seq<T>)
    requires |xs| > 0
    ensures (xs + ys)[0] == xs[0] && (xs + ys)[1..] == xs[1..] + ys
  {
  }

  /** Moving the first element of the right part of a concatenation to the left part. */
  lemma SplitFirst<T>(pre: seq<T>, items: seq<T>)
    requires |items| > 0
    ensures pre + [items[0]] + items[1..] == pre + items
  {
  }

  /** The number of entries RAISE_VARARGS n pops: the type, the instance and the traceback, as far as n goes. */
  function RaiseCount(nargs: nat): (count: nat)
    ensures count <= nargs && count <= 3
    ensures nargs <= 3 ==> count == nargs
  {
    if nargs > 3 then 3 else nargs
  }

  /**
   * RAISE_VARARGS n: pops the traceback (n > 2), the instance (n > 1) and
   * the type (n > 0), in that order, and pushes the raise statement of
   * those it popped.
   */
  function RaiseVarargs(s: seq<Node>, nargs: nat): (r: seq<Node>)
    requires |s| >= RaiseCount(nargs)
    ensures |r| == |s| - RaiseCount(nargs) + 1 && Below(r, 1) == Below(s, RaiseCount(nargs))
    ensures var raise := Peek(r, 0);
      && raise.Raise?
      && (raise.excType.Some? <==> nargs > 0)
      && (raise.inst.Some? <==> nargs > 1)
      && (raise.tback.Some? <==> nargs > 2)
      && Opt(raise.excType) + Opt(raise.inst) + Opt(raise.tback) == TopItems(s, RaiseCount(nargs))
  {
    var tback := if nargs > 2 then Some(Peek(s, 0)) else None;
    var s1 := if nargs > 2 then Below(s, 1) else s;
    var inst := if nargs > 1 then Some(Peek(s1, 0)) else None;
    var s2 := if nargs > 1 then Below(s1, 1) else s1;
    var excType := if nargs > 0 then Some(Peek(s2, 0)) else None;
    var s3 := if nargs > 0 then Below(s2, 1) else s2;
    s3 + [Raise(excType, inst, tback)]
  }

  /** RAISE_VARARGS keeps a well-tagged stack well tagged. */
  lemma RaiseKeepsTags(s: seq<Node>, nargs: nat)
    requires |s| >= RaiseCount(nargs) && StackTagged(s)
    ensures StackTagged(RaiseVarargs(s, nargs))
  {
    var k := RaiseCount(nargs);
    TaggedParts(s, k);
    var raise := Peek(RaiseVarargs(s, nargs), 0);
    assert Kids(raise) == TopItems(s, k);
    TaggedReplaceTop(s, k, raise);
  }
}
