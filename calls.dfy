/**
 * CALL_FUNCTION and its three variants: the packed argument count says how
 * many keyword pairs and positional arguments sit above the callee; a call
 * whose only positional argument is a function or class definition is a
 * decorator application instead.
 */
module Calls {
  import opened Wrappers
  import opened Ast
  import opened Tags
  import opened Tables
  import opened Stacks

  /** Every name slot `[name0, _, name1, _, ..]` of a run of keyword entries holds a string constant. */
  predicate NamesAreStrings(pairs: seq<Node>)
    requires |pairs| % 2 == 0
  {
    forall j | 0 <= j < |pairs| / 2 :: pairs[2 * j].Str?
  }

  /**
   * The keywords of a call from the keyword entries in push order
   * `[name0, value0, name1, value1, ..]`, popped two at a time from the end;
   * a name that is not a string constant has no `.s` and raises
   * AttributeError.
   */
  function Keywords(pairs: seq<Node>): (r: Result<seq<Keyword>>)
    requires |pairs| % 2 == 0
    ensures r.Fail? ==> r.error == AttributeError("s")
    ensures r.Ok? ==> |r.value| == |pairs| / 2
    decreases |pairs|
  {
    if |pairs| == 0 then Ok([])
    else
      var expr, name, rest := pairs[|pairs| - 1], pairs[|pairs| - 2], pairs[..|pairs| - 2];
      if !name.Str? then Fail(AttributeError("s"))
      else
        match Keywords(rest)
        case Fail(e) => Fail(e)
        case Ok(keywords) => Ok(keywords + [Keyword(name.s, expr)])
  }

  /**
   * Keywords succeeds exactly when every name slot holds a string, and then
   * pairs each name with the value pushed after it, keeping source order.
   */
  lemma {:induction false} KeywordsPairUp(pairs: seq<Node>)
    requires |pairs| % 2 == 0
    ensures Keywords(pairs).Ok? <==> NamesAreStrings(pairs)
    ensures Keywords(pairs).Ok? ==>
      forall j | 0 <= j < |pairs| / 2 :: Keywords(pairs).value[j] == Keyword(pairs[2 * j].s, pairs[2 * j + 1])
    decreases |pairs|
  {
    if |pairs| > 0 {
      var m := |pairs| / 2 - 1;
      var rest := pairs[..|pairs| - 2];
      assert forall j | 0 <= j < |rest| :: rest[j] == pairs[j];
      assert pairs[2 * m] == pairs[|pairs| - 2] && pairs[2 * m + 1] == pairs[|pairs| - 1];
      KeywordsPairUp(rest);
      if NamesAreStrings(pairs) {
        assert NamesAreStrings(rest) by {
          forall j | 0 <= j < |rest| / 2 ensures rest[2 * j].Str? {
            assert rest[2 * j] == pairs[2 * j];
          }
        }
      } else if pairs[|pairs| - 2].Str? {
        var j :| 0 <= j < |pairs| / 2 && !pairs[2 * j].Str?;
        assert j < m && rest[2 * j] == pairs[2 * j];
      }
    }
  }

  /**
   * Keyword entries read in two runs read as the keywords of each run, in
   * order; the whole read fails exactly when the read of either run does.
   */
  lemma {:induction false} KeywordsConcat(front: seq<Node>, back: seq<Node>)
    requires |front| % 2 == 0 && |back| % 2 == 0
    ensures Keywords(front + back).Ok? <==> Keywords(front).Ok? && Keywords(back).Ok?
    ensures Keywords(front + back).Ok? ==> Keywords(front + back).value == Keywords(front).value + Keywords(back).value
    decreases |back|
  {
    if |back| == 0 {
      assert front + back == front;
    } else {
      DropLastTwo(front, back);
      KeywordsConcat(front, back[..|back| - 2]);
      var ab := front + back;
      if Keywords(ab).Ok? {
        var kf, kr := Keywords(front).value, Keywords(back[..|back| - 2]).value;
        var k := Keyword(ab[|ab| - 2].s, ab[|ab| - 1]);
        assert kf + kr + [k] == kf + (kr + [k]);
      }
    }
  }

  /** A single keyword entry reads as one keyword when its name slot holds a string. */
  lemma KeywordsOfPair(name: Node, value: Node)
    ensures Keywords([name, value]).Ok? <==> name.Str?
    ensures name.Str? ==> Keywords([name, value]).value == [Keyword(name.s, value)]
  {
    assert [name, value][..0] == [];
  }

  /** A name slot that does not hold a string makes the whole read fail, wherever it sits. */
  lemma KeywordsFailAt(pairs: seq<Node>, n: nat, k: nat)
    requires |pairs| == 2 * n && k < n && !pairs[2 * k].Str?
    ensures |pairs| % 2 == 0 && Keywords(pairs).Fail?
  {
    KeywordsPairUp(pairs);
  }

  /** Reading a pair in front of n more: the pair's keyword comes first, and its name must be a string. */
  lemma KeywordsConsPair(name: Node, value: Node, rest: seq<Node>, n: nat)
    requires |rest| == 2 * n
    ensures |[name, value] + rest| % 2 == 0 && |rest| % 2 == 0
    ensures Keywords([name, value] + rest).Ok? <==> name.Str? && Keywords(rest).Ok?
    ensures Keywords([name, value] + rest).Ok? ==>
      Keywords([name, value] + rest).value == [Keyword(name.s, value)] + Keywords(rest).value
  {
    KeywordsOfPair(name, value);
    KeywordsConcat([name, value], rest);
  }

  /** The last two entries of two runs laid end to end are those of the second run. */
  lemma DropLastTwo<T>(front: seq<T>, back: seq<T>)
    requires |back| >= 2
    ensures var ab := front + back;
      && ab[..|ab| - 2] == front + back[..|back| - 2]
      && ab[|ab| - 2] == back[|back| - 2] && ab[|ab| - 1] == back[|back| - 1]
  {
    var ab := front + back;
    assert ab[..|ab| - 2] == front + back[..|back| - 2];
  }

  /** How a compiler lays keyword arguments out on the stack: each name as a string constant, then its value. */
  function Pairs(keywords: seq<Keyword>): (pairs: seq<Node>)
    ensures |pairs| == 2 * |keywords|
  {
    if |keywords| == 0 then []
    else Pairs(keywords[..|keywords| - 1]) + [Str(keywords[|keywords| - 1].arg), keywords[|keywords| - 1].value]
  }

  /** The last keyword sits in the top two entries of its layout, the others below them. */
  lemma PairsSplit(keywords: seq<Keyword>)
    requires |keywords| > 0
    ensures var n, pairs := |keywords| - 1, Pairs(keywords);
      && pairs[..|pairs| - 2] == Pairs(keywords[..n])
      && pairs[|pairs| - 2] == Str(keywords[n].arg)
      && pairs[|pairs| - 1] == keywords[n].value
  {
    var n := |keywords| - 1;
    assert Pairs(keywords) == Pairs(keywords[..n]) + [Str(keywords[n].arg), keywords[n].value];
  }

  /** Reading keywords back from their stack layout gives the keywords that were laid out. */
  lemma {:induction false} KeywordsOfPairs(keywords: seq<Keyword>)
    ensures Keywords(Pairs(keywords)) == Ok(keywords)
    decreases |keywords|
  {
    if |keywords| > 0 {
      var n, pairs := |keywords| - 1, Pairs(keywords);
      assert keywords == keywords[..n] + [keywords[n]];
      PairsSplit(keywords);
      KeywordsOfPairs(keywords[..n]);
      assert Keywords(pairs[..|pairs| - 2]) == Ok(keywords[..n]);
    }
  }

  /** The number of keyword pairs of a packed argument count. */
  function KeywordCount(oparg: nat): nat {
    DecodeCallCount(oparg).0
  }

  /** The number of positional arguments of a packed argument count. */
  function PositionalCount(oparg: nat): nat {
    DecodeCallCount(oparg).1
  }

  /** The keyword entries of a call: the top 2 * nkwargs entries. */
  function KeywordEntries(s: seq<Node>, oparg: nat): seq<Node>
    requires |s| >= CallDepth(oparg)
  {
    TopItems(s, 2 * KeywordCount(oparg))
  }

  /** The positional arguments of a call, in source order: the nargs entries below the keyword entries. */
  function PositionalArgs(s: seq<Node>, oparg: nat): seq<Node>
    requires |s| >= CallDepth(oparg)
  {
    var k := 2 * KeywordCount(oparg);
    s[|s| - k - PositionalCount(oparg)..|s| - k]
  }

  /** The callee: the entry just below the arguments. */
  function Callee(s: seq<Node>, oparg: nat): Node
    requires |s| >= CallDepth(oparg)
  {
    Peek(s, CallDepth(oparg) - 1)
  }

  /**
   * Popping the keyword entries, then the positional arguments, then one
   * more entry pops the whole call, callee last.
   */
  lemma CallParts(s: seq<Node>, oparg: nat)
    requires |s| >= CallDepth(oparg)
    ensures var k, p := 2 * KeywordCount(oparg), PositionalCount(oparg);
      var rest := Below(s, k);
      && CallDepth(oparg) == k + p + 1
      && |rest| >= p + 1
      && TopItems(rest, p) == PositionalArgs(s, oparg)
      && Peek(Below(rest, p), 0) == Callee(s, oparg)
      && Below(Below(rest, p), 1) == Below(s, CallDepth(oparg))
  {
  }

  /** A call whose single positional argument is a definition is the application of a decorator to it. */
  predicate IsDecoration(args: seq<Node>) {
    |args| == 1 && (args[0].FunctionDef? || args[0].ClassDef?)
  }

  /** The definition with `decorator` put first in its decorator list. */
  function Decorate(def: Node, decorator: Node): (d: Node)
    requires def.FunctionDef? || def.ClassDef?
    ensures d.FunctionDef? == def.FunctionDef? && d.ClassDef? == def.ClassDef? && d.name == def.name
    ensures d.decorators == [decorator] + def.decorators
  {
    if def.FunctionDef? then FunctionDef(def.name, def.body, [decorator] + def.decorators)
    else ClassDef(def.name, def.bases, def.body, [decorator] + def.decorators)
  }

  /**
   * CALL_FUNCTION: pops the keyword pairs, the positional arguments and the
   * callee -- 2 * nkwargs + nargs + 1 entries -- and pushes
   * `callee(args.., keywords..)`, or, for a decorator applied to a
   * definition, the definition with the callee as its first decorator.
   */
  function CallFunction(s: seq<Node>, oparg: nat): (r: Result<seq<Node>>)
    requires |s| >= CallDepth(oparg)
    ensures r.Ok? <==> Keywords(KeywordEntries(s, oparg)).Ok?
    ensures r.Fail? ==> r.error == AttributeError("s")
    ensures r.Ok? ==> |r.value| == |s| - CallDepth(oparg) + 1 && Below(r.value, 1) == Below(s, CallDepth(oparg))
    ensures r.Ok? && !IsDecoration(PositionalArgs(s, oparg)) ==>
      Peek(r.value, 0) == Call(Callee(s, oparg), PositionalArgs(s, oparg), Keywords(KeywordEntries(s, oparg)).value, None, None)
    ensures r.Ok? && IsDecoration(PositionalArgs(s, oparg)) ==>
      Peek(r.value, 0) == Decorate(PositionalArgs(s, oparg)[0], Callee(s, oparg))
  {
    match Keywords(KeywordEntries(s, oparg))
    case Fail(e) => Fail(e)
    case Ok(keywords) =>
      var args, node := PositionalArgs(s, oparg), Callee(s, oparg);
      var below := Below(s, CallDepth(oparg));
      if IsDecoration(args) then Ok(below + [Decorate(args[0], node)])
      else Ok(below + [Call(node, args, keywords, None, None)])
  }

  /** Where CALL_FUNCTION finds the parts of a call laid out by a compiler. */
  lemma LaidOutCall(s: seq<Node>, f: Node, args: seq<Node>, pairs: seq<Node>, nkwargs: nat)
    requires |args| < 256 && |pairs| == 2 * nkwargs
    ensures var oparg := EncodeCallCount(nkwargs, |args|);
      var laid := s + [f] + args + pairs;
      && |laid| >= CallDepth(oparg)
      && KeywordEntries(laid, oparg) == pairs
      && PositionalArgs(laid, oparg) == args
      && Callee(laid, oparg) == f
      && Below(laid, CallDepth(oparg)) == s
  {
    DecodeEncodeCallCount(nkwargs, |args|);
    var laid := s + [f] + args + pairs;
    assert laid[|laid| - |pairs|..] == pairs;
    assert laid[|s| + 1..|s| + 1 + |args|] == args;
    assert laid[|s|] == f;
    assert laid[..|s|] == s;
  }

  /**
   * Laying a call out as a compiler does -- callee, positional arguments,
   * keyword pairs, packed count -- and running CALL_FUNCTION rebuilds that
   * call.
   */
  lemma CallFunctionRebuilds(s: seq<Node>, f: Node, args: seq<Node>, keywords: seq<Keyword>)
    requires |args| < 256 && !IsDecoration(args)
    ensures var oparg := EncodeCallCount(|keywords|, |args|);
      var laid := s + [f] + args + Pairs(keywords);
      |laid| >= CallDepth(oparg) && CallFunction(laid, oparg) == Ok(s + [Call(f, args, keywords, None, None)])
  {
    var oparg := EncodeCallCount(|keywords|, |args|);
    var laid := s + [f] + args + Pairs(keywords);
    LaidOutCall(s, f, args, Pairs(keywords), |keywords|);
    KeywordsOfPairs(keywords);
    var r := CallFunction(laid, oparg).value;
    assert Below(r, 1) == s && Peek(r, 0) == Call(f, args, keywords, None, None);
    assert r == Below(r, 1) + [Peek(r, 0)];
  }

  /** The keyword values of a call on a well-tagged stack are well tagged. */
  lemma KeywordValuesTagged(s: seq<Node>, oparg: nat)
    requires |s| >= CallDepth(oparg) && StackTagged(s) && Keywords(KeywordEntries(s, oparg)).Ok?
    ensures forall k | k in KwValues(Keywords(KeywordEntries(s, oparg)).value) :: WellTagged(k)
  {
    TaggedParts(s, 2 * KeywordCount(oparg));
    PairValuesTagged(KeywordEntries(s, oparg));
  }

  /** The keyword values built from well-tagged pairs are well tagged. */
  lemma PairValuesTagged(pairs: seq<Node>)
    requires |pairs| % 2 == 0 && StackTagged(pairs) && Keywords(pairs).Ok?
    ensures forall k | k in KwValues(Keywords(pairs).value) :: WellTagged(k)
  {
    var keywords := Keywords(pairs).value;
    KeywordsPairUp(pairs);
    forall k | k in KwValues(keywords) ensures WellTagged(k) {
      var j :| 0 <= j < |keywords| && KwValues(keywords)[j] == k;
      assert k == pairs[2 * j + 1];
    }
  }

  /** The positional arguments of a call on a well-tagged stack are well tagged. */
  lemma PositionalArgsTagged(s: seq<Node>, oparg: nat)
    requires |s| >= CallDepth(oparg) && StackTagged(s)
    ensures forall a | a in PositionalArgs(s, oparg) :: WellTagged(a)
  {
    forall a | a in PositionalArgs(s, oparg) ensures WellTagged(a) {
      var i :| 0 <= i < |PositionalArgs(s, oparg)| && PositionalArgs(s, oparg)[i] == a;
      assert a == s[|s| - 2 * KeywordCount(oparg) - PositionalCount(oparg) + i];
    }
  }

  /** The node CALL_FUNCTION pushes on a well-tagged stack is well tagged. */
  lemma CallNodeTagged(s: seq<Node>, oparg: nat)
    requires |s| >= CallDepth(oparg) && StackTagged(s) && CallFunction(s, oparg).Ok?
    ensures WellTagged(Peek(CallFunction(s, oparg).value, 0))
  {
    var args := PositionalArgs(s, oparg);
    PositionalArgsTagged(s, oparg);
    assert WellTagged(Callee(s, oparg));
    if IsDecoration(args) {
      assert args[0] in args;
      DecorateKeepsTags(args[0], Callee(s, oparg));
    } else {
      var keywords := Keywords(KeywordEntries(s, oparg)).value;
      KeywordValuesTagged(s, oparg);
      var call := Call(Callee(s, oparg), args, keywords, None, None);
      assert Kids(call) == [Callee(s, oparg)] + args + KwValues(keywords);
    }
  }

  /** A successful CALL_FUNCTION keeps a well-tagged stack well tagged. */
  lemma CallFunctionKeepsTags(s: seq<Node>, oparg: nat)
    requires |s| >= CallDepth(oparg) && StackTagged(s) && CallFunction(s, oparg).Ok?
    ensures StackTagged(CallFunction(s, oparg).value)
  {
    var r := CallFunction(s, oparg).value;
    CallNodeTagged(s, oparg);
    TaggedReplaceTop(s, CallDepth(oparg), Peek(r, 0));
    assert r == Below(s, CallDepth(oparg)) + [Peek(r, 0)];
  }

  /** Adding a well-tagged decorator to a well-tagged definition keeps it well tagged. */
  lemma DecorateKeepsTags(def: Node, decorator: Node)
    requires (def.FunctionDef? || def.ClassDef?) && WellTagged(def) && WellTagged(decorator)
    ensures WellTagged(Decorate(def, decorator))
  {
    var d := Decorate(def, decorator);
    if def.FunctionDef? {
      assert Kids(d) == def.body + ([decorator] + def.decorators);
      assert Kids(def) == def.body + def.decorators;
    } else {
      assert Kids(d) == def.bases + def.body + ([decorator] + def.decorators);
      assert Kids(def) == def.bases + def.body + def.decorators;
    }
  }

  /**
   * The variants set `*args` and `**kwargs` on the call CALL_FUNCTION built;
   * a decorated definition has no such fields and is left as it is.
   */
  function WithExtras(node: Node, starargs: Option<Node>, kwargs: Option<Node>): (r: Node)
    ensures node.Call? ==> r.Call? && r.func == node.func && r.args == node.args && r.keywords == node.keywords
    ensures node.Call? ==> r.starargs == (if starargs.Some? then starargs else node.starargs)
    ensures node.Call? ==> r.kwargs == (if kwargs.Some? then kwargs else node.kwargs)
    ensures !node.Call? ==> r == node
  {
    if node.Call? then
      Call(node.func, node.args, node.keywords,
           if starargs.Some? then starargs else node.starargs,
           if kwargs.Some? then kwargs else node.kwargs)
    else node
  }

  /** CALL_FUNCTION_VAR: pops `*args`, runs CALL_FUNCTION and sets the call's starargs. */
  function CallFunctionVar(s: seq<Node>, oparg: nat): (r: Result<seq<Node>>)
    requires |s| >= CallDepth(oparg) + 1
    ensures r.Ok? <==> CallFunction(Below(s, 1), oparg).Ok?
    ensures r.Fail? ==> r.error == AttributeError("s")
    ensures r.Ok? ==> var t := CallFunction(Below(s, 1), oparg).value;
      |r.value| == |t| && Below(r.value, 1) == Below(t, 1) &&
      Peek(r.value, 0) == WithExtras(Peek(t, 0), Some(Peek(s, 0)), None)
  {
    var arg, s1 := Peek(s, 0), Below(s, 1);
    match CallFunction(s1, oparg)
    case Fail(e) => Fail(e)
    case Ok(t) =>
      var callfunc, t1 := Peek(t, 0), Below(t, 1);
      Ok(t1 + [WithExtras(callfunc, Some(arg), None)])
  }

  /** CALL_FUNCTION_KW: pops `**kwargs`, runs CALL_FUNCTION and sets the call's kwargs. */
  function CallFunctionKw(s: seq<Node>, oparg: nat): (r: Result<seq<Node>>)
    requires |s| >= CallDepth(oparg) + 1
    ensures r.Ok? <==> CallFunction(Below(s, 1), oparg).Ok?
    ensures r.Fail? ==> r.error == AttributeError("s")
    ensures r.Ok? ==> var t := CallFunction(Below(s, 1), oparg).value;
      |r.value| == |t| && Below(r.value, 1) == Below(t, 1) &&
      Peek(r.value, 0) == WithExtras(Peek(t, 0), None, Some(Peek(s, 0)))
  {
    var kwarg, s1 := Peek(s, 0), Below(s, 1);
    match CallFunction(s1, oparg)
    case Fail(e) => Fail(e)
    case Ok(t) =>
      var callfunc, t1 := Peek(t, 0), Below(t, 1);
      Ok(t1 + [WithExtras(callfunc, None, Some(kwarg))])
  }

  /** CALL_FUNCTION_VAR_KW: pops `**kwargs`, then `*args`, runs CALL_FUNCTION and sets both. */
  function CallFunctionVarKw(s: seq<Node>, oparg: nat): (r: Result<seq<Node>>)
    requires |s| >= CallDepth(oparg) + 2
    ensures r.Ok? <==> CallFunction(Below(s, 2), oparg).Ok?
    ensures r.Fail? ==> r.error == AttributeError("s")
    ensures r.Ok? ==> var t := CallFunction(Below(s, 2), oparg).value;
      |r.value| == |t| && Below(r.value, 1) == Below(t, 1) &&
      Peek(r.value, 0) == WithExtras(Peek(t, 0), Some(Peek(s, 1)), Some(Peek(s, 0)))
  {
    var kwarg, arg, s2 := Peek(s, 0), Peek(s, 1), Below(s, 2);
    match CallFunction(s2, oparg)
    case Fail(e) => Fail(e)
    case Ok(t) =>
      var callfunc, t1 := Peek(t, 0), Below(t, 1);
      Ok(t1 + [WithExtras(callfunc, Some(arg), Some(kwarg))])
  }
}
