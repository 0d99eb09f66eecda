/**
 * The handlers that load, bind and delete names and attributes, LOAD_CONST,
 * the import handlers, RETURN_VALUE and YIELD_VALUE, and the merge of a two-branch If
 * into a conditional expression that the storing handlers apply first.
 */
module Names {
  import opened Wrappers
  import opened Ast
  import opened Tags
  import opened Tables
  import opened Stacks

  /**
   * An If statement left by the branch decompiler where a value is expected
   * becomes the conditional expression `body if test else orelse`; each
   * branch must hold exactly one statement.  Any other node is returned
   * unchanged.
   */
  function ProcessIfExpr(n: Node): (r: Result<Node>)
    ensures !n.If? ==> r == Ok(n)
    ensures n.If? ==> (r.Ok? <==> |n.body| == 1 && |n.orelse| == 1)
    ensures r.Fail? ==> r.error == AssertionError
    ensures r.Ok? && n.If? ==> r.value == IfExp(n.test, n.body[0], n.orelse[0])
    ensures r.Ok? ==> !r.value.If?
  {
    if n.If? then
      if |n.body| != 1 || |n.orelse| != 1 then Fail(AssertionError)
      else Ok(IfExp(n.test, n.body[0], n.orelse[0]))
    else Ok(n)
  }

  /** Merging the branches of an If keeps a well-tagged node well tagged. */
  lemma IfExprKeepsTags(n: Node)
    requires WellTagged(n) && ProcessIfExpr(n).Ok?
    ensures WellTagged(ProcessIfExpr(n).value)
  {
    if n.If? {
      assert n.body[0] in n.body && n.orelse[0] in n.orelse;
    }
  }

  /** The local name an import alias binds: its `as` name if it has one, else the imported name. */
  function LocalName(a: Alias): string {
    if a.asname.Some? then a.asname.value else a.name
  }

  /**
   * Binds the first imported name to `local`: the alias gets `as local`
   * unless it already has that name.  An import without names raises
   * IndexError.
   */
  function Rebind(names: seq<Alias>, local: string): (r: Result<seq<Alias>>)
    ensures r.Fail? <==> |names| == 0
    ensures r.Fail? ==> r.error == IndexError
    ensures r.Ok? ==> |r.value| == |names| && r.value[1..] == names[1..]
    ensures r.Ok? ==> r.value[0].name == names[0].name
    ensures r.Ok? && names[0].name != local ==> r.value[0].asname == Some(local)
    ensures r.Ok? && names[0].asname.None? ==> LocalName(r.value[0]) == local
    ensures r.Ok? && names[0].name == local ==> r.value == names
  {
    if |names| == 0 then Fail(IndexError)
    else if names[0].name != local then Ok(names[0 := names[0].(asname := Some(local))])
    else Ok(names)
  }

  /**
   * The store STORE_NAME records once it has popped `value` (and merged an
   * If into a conditional expression), `s` being the stack below it:
   *  - an `import` gets its first alias bound to the name; for `from m
   *    import x` that alias sits in the ImportFrom just below, which must be
   *    there;
   *  - a function or class definition takes the name;
   *  - an augmented assignment already names its target and is pushed back;
   *  - an assignment (the chained form `a = b = v`) pops the duplicate of its
   *    value left below it and gains the name as its last target;
   *  - any other value becomes `name = value`.
   */
  function StoreValue(s: seq<Node>, value: Node, name: string): (r: Result<seq<Node>>)
    ensures r.Fail? <==>
      || (value.Import? && value.isFrom && (|s| == 0 || !Peek(s, 0).ImportFrom? || |Peek(s, 0).names| == 0))
      || (value.Import? && !value.isFrom && |value.names| == 0)
      || (value.Assign? && |s| == 0)
    ensures r.Fail? ==>
      r.error == (if value.Import? && value.isFrom && |s| > 0 && !Peek(s, 0).ImportFrom? then AssertionError
                  else IndexError)
    ensures r.Ok? && value.Assign? ==> r.value == Below(s, 1) + [Assign(value.targets + [Name(name, Store)], value.value)]
    ensures r.Ok? && (value.FunctionDef? || value.ClassDef?) ==> r.value == s + [value.(name := name)]
    ensures r.Ok? && value.AugAssign? ==> r.value == s + [value]
    ensures r.Ok? && value.Import? && !value.isFrom ==>
      r.value == s + [Import(Rebind(value.names, name).value, false)]
    ensures r.Ok? && value.Import? && value.isFrom ==>
      var from_ := Peek(s, 0);
      r.value == Below(s, 1) + [ImportFrom(from_.moduleName, Rebind(from_.names, name).value, from_.level), value]
    ensures r.Ok? && !value.Import? && !value.FunctionDef? && !value.ClassDef? && !value.AugAssign? && !value.Assign? ==>
      r.value == s + [Assign([Name(name, Store)], value)]
  {
    if value.Import? then
      if value.isFrom then
        if |s| == 0 then Fail(IndexError)
        else if !Peek(s, 0).ImportFrom? then Fail(AssertionError)
        else
          var from_, s1 := Peek(s, 0), Below(s, 1);
          match Rebind(from_.names, name)
          case Fail(e) => Fail(e)
          case Ok(names) => Ok(s1 + [ImportFrom(from_.moduleName, names, from_.level)] + [value])
      else
        match Rebind(value.names, name)
        case Fail(e) => Fail(e)
        case Ok(names) => Ok(s + [Import(names, false)])
    else if value.FunctionDef? || value.ClassDef? then Ok(s + [value.(name := name)])
    else if value.AugAssign? then Ok(s + [value])
    else if value.Assign? then
      if |s| == 0 then Fail(IndexError)
      else Ok(Below(s, 1) + [Assign(value.targets + [Name(name, Store)], value.value)])
    else Ok(s + [Assign([Name(name, Store)], value)])
  }

  /**
   * STORE_NAME (and STORE_FAST, which delegates to it): pops the value,
   * merges an If into a conditional expression (an If that is not a
   * two-branch expression raises AssertionError) and records the store.
   */
  function StoreName(s: seq<Node>, name: string): (r: Result<seq<Node>>)
    requires |s| >= 1
    ensures ProcessIfExpr(Peek(s, 0)).Fail? ==> r == Fail(AssertionError)
    ensures ProcessIfExpr(Peek(s, 0)).Ok? ==> r == StoreValue(Below(s, 1), ProcessIfExpr(Peek(s, 0)).value, name)
  {
    var value, s1 := Peek(s, 0), Below(s, 1);
    match ProcessIfExpr(value)
    case Fail(e) => Fail(e)
    case Ok(v) => StoreValue(s1, v, name)
  }

  /** Recording a store keeps a well-tagged stack well tagged: the new target is tagged Store. */
  lemma StoreValueKeepsTags(s: seq<Node>, value: Node, name: string)
    requires StackTagged(s) && WellTagged(value) && StoreValue(s, value, name).Ok?
    ensures StackTagged(StoreValue(s, value, name).value)
  {
    if value.Assign? {
      ChainedStoreKeepsTags(s, value, name);
    } else if value.Import? {
      ImportStoreKeepsTags(s, value, name);
    } else {
      PlainStoreKeepsTags(s, value, name);
    }
  }

  /** The chained-assignment case of StoreValueKeepsTags: the name joins the Store-tagged targets. */
  lemma ChainedStoreKeepsTags(s: seq<Node>, value: Node, name: string)
    requires StackTagged(s) && WellTagged(value) && value.Assign? && StoreValue(s, value, name).Ok?
    ensures StackTagged(StoreValue(s, value, name).value)
  {
    var top := Assign(value.targets + [Name(name, Store)], value.value);
    forall t | t in top.targets ensures TargetTagged(t, Store) {
      if t !in value.targets {
        assert t == Name(name, Store);
      }
    }
    TaggedReplaceTop(s, 1, top);
  }

  /** The import cases of StoreValueKeepsTags: imports carry no tags. */
  lemma ImportStoreKeepsTags(s: seq<Node>, value: Node, name: string)
    requires StackTagged(s) && value.Import? && StoreValue(s, value, name).Ok?
    ensures StackTagged(StoreValue(s, value, name).value)
  {
    if value.isFrom {
      FromImportStoreKeepsTags(s, value, name);
    } else {
      TaggedPush(s, [Import(Rebind(value.names, name).value, false)]);
    }
  }

  /** The `from m import x` case: the renamed ImportFrom and the import are pushed back. */
  lemma FromImportStoreKeepsTags(s: seq<Node>, value: Node, name: string)
    requires StackTagged(s) && value.Import? && value.isFrom && StoreValue(s, value, name).Ok?
    ensures StackTagged(StoreValue(s, value, name).value)
  {
    var from_ := Peek(s, 0);
    var renamed := ImportFrom(from_.moduleName, Rebind(from_.names, name).value, from_.level);
    TaggedParts(s, 1);
    TaggedPush(Below(s, 1), [renamed, value]);
  }

  /** The remaining cases of StoreValueKeepsTags: a renamed definition, an augmented assignment or `name = value`. */
  lemma PlainStoreKeepsTags(s: seq<Node>, value: Node, name: string)
    requires StackTagged(s) && WellTagged(value) && !value.Assign? && !value.Import?
    ensures StoreValue(s, value, name).Ok? && StackTagged(StoreValue(s, value, name).value)
  {
    if value.FunctionDef? || value.ClassDef? {
      DefStoreKeepsTags(s, value, name);
    } else if value.AugAssign? {
      TaggedPush(s, [value]);
    } else {
      var top := Assign([Name(name, Store)], value);
      assert Kids(top) == [value] && TargetTagged(Name(name, Store), Store);
      TaggedPush(s, [top]);
    }
  }

  /** A function or class definition renamed by a store stays well tagged. */
  lemma DefStoreKeepsTags(s: seq<Node>, value: Node, name: string)
    requires StackTagged(s) && WellTagged(value) && (value.FunctionDef? || value.ClassDef?)
    ensures StackTagged(s + [value.(name := name)])
  {
    if value.FunctionDef? {
      TaggedPush(s, [FunctionDef(name, value.body, value.decorators)]);
    } else {
      TaggedPush(s, [ClassDef(name, value.bases, value.body, value.decorators)]);
    }
  }

  /** A successful STORE_NAME keeps a well-tagged stack well tagged. */
  lemma StoreNameKeepsTags(s: seq<Node>, name: string)
    requires |s| >= 1 && StackTagged(s) && StoreName(s, name).Ok?
    ensures StackTagged(StoreName(s, name).value)
  {
    TaggedParts(s, 1);
    IfExprKeepsTags(Peek(s, 0));
    StoreValueKeepsTags(Below(s, 1), ProcessIfExpr(Peek(s, 0)).value, name);
  }

  /** RETURN_VALUE: the top entry becomes `return top`. */
  function ReturnValue(s: seq<Node>): (r: seq<Node>)
    requires |s| >= 1
    ensures |r| == |s| && Below(r, 1) == Below(s, 1)
    ensures Peek(r, 0) == Return(Peek(s, 0))
  {
    var value := Peek(s, 0);
    Below(s, 1) + [Return(value)]
  }

  /** YIELD_VALUE: the top entry becomes `yield top` (the class also records that a yield was seen). */
  function YieldValue(s: seq<Node>): (r: seq<Node>)
    requires |s| >= 1
    ensures |r| == |s| && Below(r, 1) == Below(s, 1)
    ensures Peek(r, 0) == Yield(Peek(s, 0))
  {
    var value := Peek(s, 0);
    Below(s, 1) + [Yield(value)]
  }

  /** LOAD_ATTR: the top entry becomes `top.attr`, read. */
  function LoadAttr(s: seq<Node>, attr: string): (r: seq<Node>)
    requires |s| >= 1
    ensures |r| == |s| && Below(r, 1) == Below(s, 1)
    ensures Peek(r, 0) == Attribute(Peek(s, 0), attr, Load)
  {
    var name := Peek(s, 0);
    Below(s, 1) + [Attribute(name, attr, Load)]
  }

  /** DELETE_ATTR: the top entry becomes `del top.attr`. */
  function DeleteAttr(s: seq<Node>, attr: string): (r: seq<Node>)
    requires |s| >= 1
    ensures |r| == |s| && Below(r, 1) == Below(s, 1)
    ensures Peek(r, 0) == Delete([Attribute(Peek(s, 0), attr, Del)])
  {
    var expr := Peek(s, 0);
    Below(s, 1) + [Delete([Attribute(expr, attr, Del)])]
  }

  /**
   * STORE_ATTR as the handler is written: pops the object, then the value
   * (merging an If), and pushes `object.attr = value` whatever the value
   * is -- also when the value is an augmented assignment that already
   * stores into `object.attr`.
   */
  function StoreAttrAsWritten(s: seq<Node>, attr: string): (r: Result<seq<Node>>)
    requires |s| >= 2
    ensures r.Fail? <==> ProcessIfExpr(Peek(s, 1)).Fail?
    ensures r.Fail? ==> r.error == AssertionError
    ensures r.Ok? ==> |r.value| == |s| - 1 && Below(r.value, 1) == Below(s, 2)
    ensures r.Ok? ==> Peek(r.value, 0) == Assign([Attribute(Peek(s, 0), attr, Store)], ProcessIfExpr(Peek(s, 1)).value)
  {
    var node, s1 := Peek(s, 0), Below(s, 1);
    var expr0, s2 := Peek(s1, 0), Below(s1, 1);
    match ProcessIfExpr(expr0)
    case Fail(e) => Fail(e)
    case Ok(expr) => Ok(s2 + [Assign([Attribute(node, attr, Store)], expr)])
  }

  /**
   * STORE_ATTR as intended, the way STORE_NAME and STORE_SUBSCR treat an
   * augmented assignment: `object.attr op= v` is already complete and is
   * pushed back unchanged; any other value becomes `object.attr = value`.
   */
  function StoreAttr(s: seq<Node>, attr: string): (r: Result<seq<Node>>)
    requires |s| >= 2
    ensures r.Fail? <==> ProcessIfExpr(Peek(s, 1)).Fail?
    ensures r.Fail? ==> r.error == AssertionError
    ensures r.Ok? ==> |r.value| == |s| - 1 && Below(r.value, 1) == Below(s, 2)
    ensures r.Ok? ==> var v := ProcessIfExpr(Peek(s, 1)).value;
      && (v.AugAssign? ==> Peek(r.value, 0) == v)
      && (!v.AugAssign? ==> Peek(r.value, 0) == Assign([Attribute(Peek(s, 0), attr, Store)], v))
    ensures r.Ok? ==> !(Peek(r.value, 0).Assign? && Peek(r.value, 0).value.AugAssign?)
  {
    var node, s1 := Peek(s, 0), Below(s, 1);
    var expr0, s2 := Peek(s1, 0), Below(s1, 1);
    match ProcessIfExpr(expr0)
    case Fail(e) => Fail(e)
    case Ok(expr) =>
      if expr.AugAssign? then Ok(s2 + [expr])
      else Ok(s2 + [Assign([Attribute(node, attr, Store)], expr)])
  }

  /** The corrected STORE_ATTR differs from the handler as written only on augmented assignments. */
  lemma StoreAttrAgrees(s: seq<Node>, attr: string)
    requires |s| >= 2
    ensures ProcessIfExpr(Peek(s, 1)).Ok? && ProcessIfExpr(Peek(s, 1)).value.AugAssign?
      <==> StoreAttr(s, attr) != StoreAttrAsWritten(s, attr)
  {
    var a, b := StoreAttr(s, attr), StoreAttrAsWritten(s, attr);
    if a.Ok? && Peek(a.value, 0).AugAssign? {
      assert Peek(a.value, 0) != Peek(b.value, 0);
    }
  }

  /** LOAD_ATTR keeps a well-tagged stack well tagged. */
  lemma LoadAttrKeepsTags(s: seq<Node>, attr: string)
    requires |s| >= 1 && StackTagged(s)
    ensures StackTagged(LoadAttr(s, attr))
  {
    TaggedParts(s, 1);
    TaggedReplaceTop(s, 1, Attribute(Peek(s, 0), attr, Load));
  }

  /** DELETE_ATTR keeps a well-tagged stack well tagged: the attribute is tagged Del. */
  lemma DeleteAttrKeepsTags(s: seq<Node>, attr: string)
    requires |s| >= 1 && StackTagged(s)
    ensures StackTagged(DeleteAttr(s, attr))
  {
    TaggedParts(s, 1);
    var target := Attribute(Peek(s, 0), attr, Del);
    assert TargetTagged(target, Del);
    TaggedReplaceTop(s, 1, Delete([target]));
  }

  /** RETURN_VALUE keeps a well-tagged stack well tagged. */
  lemma ReturnValueKeepsTags(s: seq<Node>)
    requires |s| >= 1 && StackTagged(s)
    ensures StackTagged(ReturnValue(s))
  {
    TaggedParts(s, 1);
    TaggedReplaceTop(s, 1, Return(Peek(s, 0)));
  }

  /** YIELD_VALUE keeps a well-tagged stack well tagged. */
  lemma YieldValueKeepsTags(s: seq<Node>)
    requires |s| >= 1 && StackTagged(s)
    ensures StackTagged(YieldValue(s))
  {
    TaggedParts(s, 1);
    TaggedReplaceTop(s, 1, Yield(Peek(s, 0)));
  }

  /** A successful STORE_ATTR keeps a well-tagged stack well tagged: the attribute is tagged Store. */
  lemma StoreAttrKeepsTags(s: seq<Node>, attr: string)
    requires |s| >= 2 && StackTagged(s) && StoreAttr(s, attr).Ok?
    ensures StackTagged(StoreAttr(s, attr).value)
  {
    TaggedParts(s, 2);
    IfExprKeepsTags(Peek(s, 1));
    var v := ProcessIfExpr(Peek(s, 1)).value;
    var target := Attribute(Peek(s, 0), attr, Store);
    assert TargetTagged(target, Store);
    TaggedReplaceTop(s, 2, if v.AugAssign? then v else Assign([target], v));
  }

  /**
   * IMPORT_NAME: pops the from-list and the level and pushes `import name`,
   * marked as the start of a `from` import exactly when the from-list is
   * not None.
   */
  function ImportName(s: seq<Node>, name: string): (r: seq<Node>)
    requires |s| >= 2
    ensures |r| == |s| - 1 && Below(r, 1) == Below(s, 2)
    ensures Peek(r, 0).Import? && Peek(r, 0).names == [Alias(name, None)]
    ensures Peek(r, 0).isFrom <==> !IsNone(Peek(s, 0))
  {
    var from_, s1 := Peek(s, 0), Below(s, 1);
    var s2 := Below(s1, 1);
    s2 + [Import([Alias(name, None)], !IsNone(from_))]
  }

  /**
   * IMPORT_FROM: pops the pending import, pushes `from module import name`
   * (the module being the import's first name) and then the import again,
   * so that the following store finds both.  A top entry with no names
   * raises AttributeError, an empty name list IndexError.
   */
  function FromImport(s: seq<Node>, name: string): (r: Result<seq<Node>>)
    requires |s| >= 1
    ensures r.Ok? <==> (Peek(s, 0).Import? || Peek(s, 0).ImportFrom?) && |Peek(s, 0).names| > 0
    ensures r.Fail? ==> r.error == (if Peek(s, 0).Import? || Peek(s, 0).ImportFrom? then IndexError
                                     else AttributeError("names"))
    ensures r.Ok? ==> |r.value| == |s| + 1 && Below(r.value, 1) == Below(s, 1) + [Peek(r.value, 1)]
    ensures r.Ok? ==> Peek(r.value, 0) == Peek(s, 0)
    ensures r.Ok? ==> Peek(r.value, 1) == ImportFrom(Peek(s, 0).names[0].name, [Alias(name, None)], 0)
  {
    var import_, s1 := Peek(s, 0), Below(s, 1);
    if !(import_.Import? || import_.ImportFrom?) then Fail(AttributeError("names"))
    else if |import_.names| == 0 then Fail(IndexError)
    else Ok(s1 + [ImportFrom(import_.names[0].name, [Alias(name, None)], 0)] + [import_])
  }

  /** IMPORT_STAR: the pending import becomes `from module import *`. */
  function StarImport(s: seq<Node>): (r: Result<seq<Node>>)
    requires |s| >= 1
    ensures r.Ok? <==> (Peek(s, 0).Import? || Peek(s, 0).ImportFrom?) && |Peek(s, 0).names| > 0
    ensures r.Fail? ==> r.error == (if Peek(s, 0).Import? || Peek(s, 0).ImportFrom? then IndexError
                                     else AttributeError("names"))
    ensures r.Ok? ==> |r.value| == |s| && Below(r.value, 1) == Below(s, 1)
    ensures r.Ok? ==> Peek(r.value, 0) == ImportFrom(Peek(s, 0).names[0].name, [Alias("*", None)], 0)
  {
    var import_, s1 := Peek(s, 0), Below(s, 1);
    if !(import_.Import? || import_.ImportFrom?) then Fail(AttributeError("names"))
    else if |import_.names| == 0 then Fail(IndexError)
    else Ok(s1 + [ImportFrom(import_.names[0].name, [Alias("*", None)], 0)])
  }

  /** LOAD_NAME, LOAD_FAST, LOAD_GLOBAL and LOAD_DEREF: push the name, read. */
  function LoadName(s: seq<Node>, name: string): (r: seq<Node>)
    ensures |r| == |s| + 1 && Below(r, 1) == s
    ensures Peek(r, 0) == Name(name, Load)
  {
    s + [Name(name, Load)]
  }

  /** LOAD_CONST: push the node for the constant (see ConstNode). */
  function LoadConst(s: seq<Node>, arg: Arg): (r: seq<Node>)
    ensures |r| == |s| + 1 && Below(r, 1) == s
    ensures Peek(r, 0) == ConstNode(arg)
  {
    s + [ConstNode(arg)]
  }

  /** DELETE_NAME and DELETE_FAST: push `del name`, the name tagged Del; nothing is popped. */
  function DeleteName(s: seq<Node>, name: string): (r: seq<Node>)
    ensures |r| == |s| + 1 && Below(r, 1) == s
    ensures Peek(r, 0) == Delete([Name(name, Del)])
  {
    s + [Delete([Name(name, Del)])]
  }

  /** The loads and DELETE_NAME keep a well-tagged stack well tagged. */
  lemma LoadsKeepTags(s: seq<Node>, name: string, arg: Arg)
    requires StackTagged(s)
    ensures StackTagged(LoadName(s, name)) && StackTagged(LoadConst(s, arg)) && StackTagged(DeleteName(s, name))
  {
    TaggedPush(s, [Name(name, Load)]);
    TaggedPush(s, [ConstNode(arg)]);
    assert TargetTagged(Name(name, Del), Del);
    TaggedPush(s, [Delete([Name(name, Del)])]);
  }
}
