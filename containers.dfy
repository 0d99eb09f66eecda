/**
 * The container builders BUILD_LIST, BUILD_TUPLE, BUILD_SET and BUILD_MAP,
 * and UNPACK_SEQUENCE, the two handlers that read ahead in the instruction
 * feed.
 */
module Containers {
  import opened Wrappers
  import opened Ast
  import opened Tags
  import opened Tables
  import opened Stacks
  import opened Names
  import opened MapBlocks

  /** BUILD_LIST n: the top n entries become a list, read, in the order they were pushed. */
  function BuildList(s: seq<Node>, n: nat): (r: seq<Node>)
    requires |s| >= n
    ensures |r| == |s| - n + 1 && Below(r, 1) == Below(s, n)
    ensures Peek(r, 0) == List(TopItems(s, n), Load)
  {
    Below(s, n) + [List(TopItems(s, n), Load)]
  }

  /** BUILD_SET n: the top n entries become a set display, in the order they were pushed. */
  function BuildSet(s: seq<Node>, n: nat): (r: seq<Node>)
    requires |s| >= n
    ensures |r| == |s| - n + 1 && Below(r, 1) == Below(s, n)
    ensures Peek(r, 0) == Set(TopItems(s, n), Load)
  {
    Below(s, n) + [Set(TopItems(s, n), Load)]
  }

  /** Some item is the `'CLOSURE'` marker. */
  predicate AnyClosure(items: seq<Node>) {
    exists i | 0 <= i < |items| :: items[i].ClosureMarker?
  }

  /** Every item is the `'CLOSURE'` marker. */
  predicate AllClosure(items: seq<Node>) {
    forall i | 0 <= i < |items| :: items[i].ClosureMarker?
  }

  /**
   * BUILD_TUPLE n: the top n entries become a tuple, read, in the order they
   * were pushed -- except the tuple of cells a closure is built from: when
   * any item is the `'CLOSURE'` marker all must be (else AssertionError) and
   * nothing is pushed.
   */
  function BuildTuple(s: seq<Node>, n: nat): (r: Result<seq<Node>>)
    requires |s| >= n
    ensures r.Fail? <==> AnyClosure(TopItems(s, n)) && !AllClosure(TopItems(s, n))
    ensures r.Fail? ==> r.error == AssertionError
    ensures r.Ok? && AnyClosure(TopItems(s, n)) ==> r.value == Below(s, n)
    ensures r.Ok? && !AnyClosure(TopItems(s, n)) ==> r.value == Below(s, n) + [Tuple(TopItems(s, n), Load)]
  {
    var nodes := TopItems(s, n);
    if AnyClosure(nodes) then
      if AllClosure(nodes) then Ok(Below(s, n)) else Fail(AssertionError)
    else Ok(Below(s, n) + [Tuple(nodes, Load)])
  }

  /**
   * Pushing items and building a list, tuple or set of them gives back the
   * stack with the container of exactly those items, in order (for a tuple,
   * as long as none of them is the closure marker).
   */
  lemma BuildOfPushed(s: seq<Node>, items: seq<Node>)
    ensures BuildList(s + items, |items|) == s + [List(items, Load)]
    ensures BuildSet(s + items, |items|) == s + [Set(items, Load)]
    ensures !AnyClosure(items) ==> BuildTuple(s + items, |items|) == Ok(s + [Tuple(items, Load)])
  {
    var t := s + items;
    assert Below(t, |items|) == s && TopItems(t, |items|) == items;
  }

  /** A run of markers pushed for a closure's cells leaves no trace on the stack. */
  lemma ClosureCellsVanish(s: seq<Node>, n: nat)
    requires n >= 1
    ensures BuildTuple(s + seq(n, _ => ClosureMarker), n) == Ok(s)
  {
    var t := s + seq(n, _ => ClosureMarker);
    assert Below(t, n) == s && TopItems(t, n) == seq(n, _ => ClosureMarker);
    assert TopItems(t, n)[0].ClosureMarker?;
  }

  /** A container of the top n entries of a well-tagged stack, put in their place, leaves it well tagged. */
  lemma ContainerKeepsTags(s: seq<Node>, n: nat, container: Node)
    requires |s| >= n && StackTagged(s) && Kids(container) == TopItems(s, n)
    requires (container.List? || container.Set? || container.Tuple?) && container.ctx == Load
    ensures StackTagged(Below(s, n) + [container])
  {
    TaggedParts(s, n);
    assert WellTagged(container);
    TaggedReplaceTop(s, n, container);
  }

  /** BUILD_LIST, BUILD_SET and BUILD_TUPLE keep a well-tagged stack well tagged. */
  lemma BuildKeepsTags(s: seq<Node>, n: nat)
    requires |s| >= n && StackTagged(s)
    ensures StackTagged(BuildList(s, n)) && StackTagged(BuildSet(s, n))
    ensures BuildTuple(s, n).Ok? ==> StackTagged(BuildTuple(s, n).value)
  {
    var items := TopItems(s, n);
    ContainerKeepsTags(s, n, List(items, Load));
    ContainerKeepsTags(s, n, Set(items, Load));
    if AnyClosure(items) {
      TaggedParts(s, n);
    } else {
      ContainerKeepsTags(s, n, Tuple(items, Load));
    }
  }

  /**
   * BUILD_MAP n: reads n entries from the front of the feed and pushes the
   * dictionary of their keys and values, in the order read; the result also
   * gives the feed left after the last entry's STORE_MAP.  On success the
   * feed starts with n entry blocks, each followed by a STORE_MAP, and the
   * dictionary holds the value and key each block decompiles to.  An entry whose
   * STORE_MAP never comes raises IndexError, one whose block does not
   * decompile into a value and a key raises AssertionError.
   */
  function BuildMap(s: seq<Node>, feed: seq<Instr>, n: nat, decompile: seq<Instr> -> seq<Node>): (r: Result<(seq<Node>, seq<Instr>)>)
    ensures r.Ok? <==> MapEntries(feed, 0, n, decompile).Ok?
    ensures r.Fail? ==> r.error == IndexError || r.error == AssertionError
    ensures r.Ok? ==> |r.value.0| == |s| + 1 && Below(r.value.0, 1) == s
    ensures r.Ok? ==> var dict := Peek(r.value.0, 0);
      dict.Dict? && |dict.keys| == n && |dict.values| == n
    ensures r.Ok? ==> n + |r.value.1| <= |feed| && r.value.1 == feed[|feed| - |r.value.1|..]
    ensures r.Ok? ==> exists blocks: seq<seq<Instr>> |
      && |blocks| == n && EntryBlocks(blocks, decompile) && LaidOutAt(feed, 0, blocks) && LayoutSize(blocks) <= |feed|
      :: r.value == (s + [Dict(EntryKeys(blocks, decompile), EntryValues(blocks, decompile))], feed[LayoutSize(blocks)..])
  {
    match MapEntries(feed, 0, n, decompile)
    case Fail(e) => Fail(e)
    case Ok(e) =>
      MapEntriesLaidOut(feed, 0, n, decompile);
      Ok((s + [Dict(e.keys, e.values)], feed[e.next..]))
  }

  /**
   * BUILD_MAP over entries laid out as a compiler does pushes the dictionary
   * whose keys and values are those the entries' blocks decompile to, in
   * order, and leaves exactly the instructions after the last STORE_MAP.
   */
  lemma BuildMapOfLayout(s: seq<Node>, blocks: seq<seq<Instr>>, storeMaps: seq<Instr>, tail: seq<Instr>, decompile: seq<Instr> -> seq<Node>)
    requires |storeMaps| == |blocks| && AllStoreMaps(storeMaps) && EntryBlocks(blocks, decompile)
    ensures var r := BuildMap(s, MapLayout(blocks, storeMaps) + tail, |blocks|, decompile);
      r.Ok? && r.value == (s + [Dict(EntryKeys(blocks, decompile), EntryValues(blocks, decompile))], tail)
  {
    var layout := MapLayout(blocks, storeMaps);
    MapEntriesOfLayout(blocks, storeMaps, tail, decompile);
    assert (layout + tail)[|layout|..] == tail;
  }

  /** Pushing a dictionary of well-tagged keys and values keeps a well-tagged stack well tagged. */
  lemma DictPushTagged(s: seq<Node>, keys: seq<Node>, values: seq<Node>)
    requires StackTagged(s) && AllAre(keys, WellTagged) && AllAre(values, WellTagged)
    ensures StackTagged(s + [Dict(keys, values)])
  {
    var dict := Dict(keys, values);
    assert Kids(dict) == keys + values;
    assert forall i | 0 <= i < |keys + values| :: WellTagged((keys + values)[i]) by {
      forall i | 0 <= i < |keys + values|
        ensures WellTagged((keys + values)[i])
      {
        if i < |keys| { assert (keys + values)[i] == keys[i]; }
        else { assert (keys + values)[i] == values[i - |keys|]; }
      }
    }
    TaggedPush(s, [dict]);
  }

  /** BUILD_MAP keeps a well-tagged stack well tagged when the block decompiler does. */
  lemma BuildMapKeepsTags(s: seq<Node>, feed: seq<Instr>, n: nat, decompile: seq<Instr> -> seq<Node>)
    requires StackTagged(s) && DecompilesOnly(decompile, WellTagged) && BuildMap(s, feed, n, decompile).Ok?
    ensures StackTagged(BuildMap(s, feed, n, decompile).value.0)
  {
    var e := MapEntries(feed, 0, n, decompile).value;
    MapEntriesOnly(feed, 0, n, decompile, WellTagged);
    DictPushTagged(s, e.keys, e.values);
  }

  /** The store instructions UNPACK_SEQUENCE hands to STORE_NAME: they bind a name. */
  predicate IsNameStore(instr: Instr) {
    (instr.opname == "STORE_NAME" || instr.opname == "STORE_FAST") && instr.arg.StrArg?
  }

  /**
   * The target of one unpacked element, read at position `at` of the feed,
   * and the position after it: a name store binds the name, a nested
   * UNPACK_SEQUENCE binds a tuple of the targets that follow it; any other
   * instruction is outside this model, and a feed that has run out raises
   * IndexError.
   */
  function UnpackTarget(feed: seq<Instr>, at: nat): (r: Result<(Node, nat)>)
    requires at <= |feed|
    ensures r.Ok? ==> at < r.value.1 <= |feed|
    ensures r.Ok? ==> TargetTagged(r.value.0, Store)
    ensures r.Fail? ==> r.error == IndexError || r.error.Unsupported?
    decreases |feed| - at, 0
  {
    if at == |feed| then Fail(IndexError)
    else
      var instr := feed[at];
      if IsNameStore(instr) then Ok((Name(instr.arg.s, Store), at + 1))
      else if instr.opname == "UNPACK_SEQUENCE" then
        match UnpackTargets(feed, at + 1, instr.oparg)
        case Fail(e) => Fail(e)
        case Ok((inner, next)) => Ok((Tuple(inner, Store), next))
      else Fail(Unsupported(instr.opname))
  }

  /**
   * The targets of n unpacked elements, in order, read from position `at`,
   * and the position after the last of them.
   */
  function UnpackTargets(feed: seq<Instr>, at: nat, n: nat): (r: Result<(seq<Node>, nat)>)
    requires at <= |feed|
    ensures r.Ok? ==> |r.value.0| == n && at + n <= r.value.1 <= |feed|
    ensures r.Ok? ==> forall t | t in r.value.0 :: TargetTagged(t, Store)
    ensures r.Fail? ==> r.error == IndexError || r.error.Unsupported?
    decreases |feed| - at, 1
  {
    if n == 0 then Ok(([], at))
    else
      match UnpackTarget(feed, at)
      case Fail(e) => Fail(e)
      case Ok((target, next)) =>
        match UnpackTargets(feed, next, n - 1)
        case Fail(e) => Fail(e)
        case Ok((targets, next')) => Ok(([target] + targets, next'))
  }

  /** A successful first target followed by n - 1 successful others is a read of n targets. */
  lemma UnpackTargetsCons(feed: seq<Instr>, at: nat, n: nat)
    requires at <= |feed| && n > 0 && UnpackTarget(feed, at).Ok?
    requires UnpackTargets(feed, UnpackTarget(feed, at).value.1, n - 1).Ok?
    ensures var (target, next) := UnpackTarget(feed, at).value;
      var (more, next') := UnpackTargets(feed, next, n - 1).value;
      UnpackTargets(feed, at, n).Ok? && UnpackTargets(feed, at, n).value == ([target] + more, next')
  {
  }

  /**
   * One more target read after i successful ones goes at the end: the order
   * in which UNPACK_SEQUENCE's loop collects them.
   */
  lemma {:induction false} UnpackTargetsSnoc(feed: seq<Instr>, at: nat, i: nat)
    requires at <= |feed| && UnpackTargets(feed, at, i).Ok?
    requires UnpackTarget(feed, UnpackTargets(feed, at, i).value.1).Ok?
    ensures var (targets, next) := UnpackTargets(feed, at, i).value;
      var (target, next') := UnpackTarget(feed, next).value;
      UnpackTargets(feed, at, i + 1).Ok? && UnpackTargets(feed, at, i + 1).value == (targets + [target], next')
    decreases i
  {
    if i > 0 {
      var (first, next) := UnpackTarget(feed, at).value;
      UnpackTargetsSnoc(feed, next, i - 1);
      var (more, next') := UnpackTargets(feed, next, i - 1).value;
      var (target, next'') := UnpackTarget(feed, next').value;
      assert UnpackTargets(feed, next, i).value == (more + [target], next'');
      Associative([first], more, [target]);
    } else {
      var (target, next) := UnpackTarget(feed, at).value;
      assert UnpackTargets(feed, next, 0).value == ([], next);
      assert [target] + [] == [] + [target];
    }
  }

  /** A target that fails after i successful ones stops every longer read with its error. */
  lemma {:induction false} UnpackTargetsStop(feed: seq<Instr>, at: nat, i: nat, n: nat)
    requires at <= |feed| && i < n && UnpackTargets(feed, at, i).Ok?
    requires UnpackTarget(feed, UnpackTargets(feed, at, i).value.1).Fail?
    ensures UnpackTargets(feed, at, n).Fail?
    ensures UnpackTargets(feed, at, n).error == UnpackTarget(feed, UnpackTargets(feed, at, i).value.1).error
    decreases i
  {
    if i > 0 {
      UnpackTargetsStop(feed, UnpackTarget(feed, at).value.1, i - 1, n - 1);
    }
  }

  /**
   * What a name store does to the None placeholder UNPACK_SEQUENCE pushes
   * for it: the placeholder becomes `name = None`, whose single target is
   * the one the unpacking collects.
   */
  lemma StoreOfPlaceholder(s: seq<Node>, name: string)
    ensures StoreName(s + [NoneValue], name) == Ok(s + [Assign([Name(name, Store)], NoneValue)])
  {
    assert Below(s + [NoneValue], 1) == s;
  }

  /**
   * UNPACK_SEQUENCE n, the feed being read from position `at`: reads the
   * targets of n elements and turns the top entry into `(targets..) = top`;
   * the result also gives the position after the targets.
   */
  function UnpackSequence(s: seq<Node>, feed: seq<Instr>, at: nat, n: nat): (r: Result<(seq<Node>, nat)>)
    requires |s| >= 1 && at <= |feed|
    ensures r.Ok? <==> UnpackTargets(feed, at, n).Ok?
    ensures r.Fail? ==> r.error == UnpackTargets(feed, at, n).error
    ensures r.Ok? ==> var (targets, next) := UnpackTargets(feed, at, n).value;
      r.value == (Below(s, 1) + [Assign([Tuple(targets, Store)], Peek(s, 0))], next)
  {
    match UnpackTargets(feed, at, n)
    case Fail(e) => Fail(e)
    case Ok((targets, next)) =>
      var expr := Peek(s, 0);
      Ok((Below(s, 1) + [Assign([Tuple(targets, Store)], expr)], next))
  }

  /** UNPACK_SEQUENCE keeps a well-tagged stack well tagged: every target is tagged Store. */
  lemma UnpackSequenceKeepsTags(s: seq<Node>, feed: seq<Instr>, at: nat, n: nat)
    requires |s| >= 1 && at <= |feed| && StackTagged(s) && UnpackSequence(s, feed, at, n).Ok?
    ensures StackTagged(UnpackSequence(s, feed, at, n).value.0)
  {
    var targets := UnpackTargets(feed, at, n).value.0;
    var assign := Assign([Tuple(targets, Store)], Peek(s, 0));
    assert TargetTagged(Tuple(targets, Store), Store);
    TaggedParts(s, 1);
    assert Kids(assign) == [Peek(s, 0)];
    TaggedReplaceTop(s, 1, assign);
  }

  /** An unpacking pattern: a name, or a parenthesised group of patterns. */
  datatype Pattern = Var(name: string) | Group(parts: seq<Pattern>)

  /** The store instructions a compiler emits for a pattern. */
  function PatternCode(p: Pattern): seq<Instr>
    decreases p, 1
  {
    match p
    case Var(name) => [Instr("STORE_NAME", StrArg(name), 0, 0)]
    case Group(parts) => [Instr("UNPACK_SEQUENCE", NoArg, |parts|, 0)] + PatternsCode(parts)
  }

  function PatternsCode(ps: seq<Pattern>): seq<Instr>
    decreases ps, 0
  {
    if |ps| == 0 then [] else PatternCode(ps[0]) + PatternsCode(ps[1..])
  }

  /** The assignment target a pattern stands for. */
  function PatternTarget(p: Pattern): Node
    decreases p, 1
  {
    match p
    case Var(name) => Name(name, Store)
    case Group(parts) => Tuple(PatternTargets(parts), Store)
  }

  function PatternTargets(ps: seq<Pattern>): seq<Node>
    decreases ps, 0
  {
    if |ps| == 0 then [] else [PatternTarget(ps[0])] + PatternTargets(ps[1..])
  }

  /** Reading back the code of a pattern, laid out at position `at`, gives the pattern's target and the position after the code. */
  lemma {:induction false} UnpackReadsPattern(p: Pattern, feed: seq<Instr>, at: nat)
    requires at + |PatternCode(p)| <= |feed| && feed[at..at + |PatternCode(p)|] == PatternCode(p)
    ensures UnpackTarget(feed, at).Ok? && UnpackTarget(feed, at).value == (PatternTarget(p), at + |PatternCode(p)|)
    decreases p, 1
  {
    var code := PatternCode(p);
    SliceSplit(feed, at, [code[0]], code[1..]);
    match p
    case Var(name) =>
    case Group(parts) =>
      UnpackReadsPatterns(parts, feed, at + 1);
  }

  /** Reading back the code of several patterns, laid out at position `at`, gives their targets, in order. */
  lemma {:induction false} UnpackReadsPatterns(ps: seq<Pattern>, feed: seq<Instr>, at: nat)
    requires at + |PatternsCode(ps)| <= |feed| && feed[at..at + |PatternsCode(ps)|] == PatternsCode(ps)
    ensures UnpackTargets(feed, at, |ps|).Ok?
    ensures UnpackTargets(feed, at, |ps|).value == (PatternTargets(ps), at + |PatternsCode(ps)|)
    decreases ps, 0
  {
    if |ps| > 0 {
      var first, more := PatternCode(ps[0]), PatternsCode(ps[1..]);
      assert PatternsCode(ps) == first + more;
      SliceSplit(feed, at, first, more);
      UnpackReadsPattern(ps[0], feed, at);
      UnpackReadsPatterns(ps[1..], feed, at + |first|);
      assert |ps[1..]| == |ps| - 1;
      UnpackTargetsCons(feed, at, |ps|);
      assert PatternTargets(ps) == [PatternTarget(ps[0])] + PatternTargets(ps[1..]);
    }
  }

  /** A run of code laid out at position `at` splits into the runs it is made of. */
  lemma SliceSplit<T>(feed: seq<T>, at: nat, xs: seq<T>, ys: seq<T>)
    requires at + |xs| + |ys| <= |feed| && feed[at..at + |xs| + |ys|] == xs + ys
    ensures feed[at..at + |xs|] == xs && feed[at + |xs|..at + |xs| + |ys|] == ys
  {
    var whole, front, back := feed[at..at + |xs| + |ys|], feed[at..at + |xs|], feed[at + |xs|..at + |xs| + |ys|];
    assert forall j | 0 <= j < |xs| :: front[j] == whole[j];
    assert forall j | 0 <= j < |ys| :: back[j] == whole[|xs| + j];
  }
}
