/**
 * The context-tag invariant: every name-like node used as a value carries
 * Load, every assignment target carries Store and every deletion target Del,
 * all the way down the tree.  A downstream consumer learns which names a
 * block reads and writes by walking the tree for these tags.
 */
module Tags {
  import opened Wrappers
  import opened Ast

  /** An optional child as a sequence of zero or one children. */
  function Opt(o: Option<Node>): seq<Node> {
    if o.Some? then [o.value] else []
  }

  /** The values of a call's keyword arguments, in order. */
  function KwValues(ks: seq<Keyword>): (r: seq<Node>)
    ensures |r| == |ks| && forall i | 0 <= i < |ks| :: r[i] == ks[i].value
  {
    if |ks| == 0 then [] else [ks[0].value] + KwValues(ks[1..])
  }

  /** The children of n that stand in value position. */
  function Kids(n: Node): (r: seq<Node>)
    ensures forall k | k in r :: k < n
  {
    match n
    case Attribute(v, _, _) => [v]
    case Subscript(v, sl, _) => [v, sl]
    case Index(v) => [v]
    case Slice(lo, up, st) => Opt(lo) + Opt(up) + Opt(st)
    case ExtSlice(ds) => ds
    case BinOp(l, _, r) => [l, r]
    case UnaryOp(_, e) => [e]
    case Compare(l, _, cs) => [l] + cs
    case Call(f, xs, ks, st, kw) =>
      assert forall k | k in KwValues(ks) :: k < n by {
        forall k | k in KwValues(ks) ensures k < n {
          var i :| 0 <= i < |ks| && KwValues(ks)[i] == k;
          assert ks[i] in ks;
        }
      }
      [f] + xs + KwValues(ks) + Opt(st) + Opt(kw)
    case IfExp(t, a, b) => [t, a, b]
    case If(t, a, b) => [t] + a + b
    case List(es, _) => es
    case Tuple(es, _) => es
    case Set(es, _) => es
    case Dict(ks, vs) => ks + vs
    case Yield(v) => [v]
    case Assign(_, v) => [v]
    case AugAssign(_, _, v) => [v]
    case Expr(v) => [v]
    case Return(v) => [v]
    case Print(d, vs, _) => Opt(d) + vs
    case Raise(t, i, tb) => Opt(t) + Opt(i) + Opt(tb)
    case FunctionDef(_, body, ds) => body + ds
    case ClassDef(_, bs, body, ds) => bs + body + ds
    case _ => []
  }

  /**
   * `n` is well tagged in a value (or statement) position: a name-like node
   * reads (Load), the targets of an assignment are Store targets and those of
   * a deletion Del targets, and every value-position child is well tagged.
   */
  predicate WellTagged(n: Node)
    decreases n, 1
  {
    && (HasCtx(n) ==> n.ctx == Load)
    && (n.Assign? ==> forall t | t in n.targets :: TargetTagged(t, Store))
    && (n.AugAssign? ==> TargetTagged(n.target, Store))
    && (n.Delete? ==> forall t | t in n.targets :: TargetTagged(t, Del))
    && forall k | k in Kids(n) :: WellTagged(k)
  }

  /**
   * `n` is well tagged as the target of an assignment (c == Store) or a
   * deletion (c == Del): a name-like node tagged c whose own operands are
   * values, or a tuple or list of such targets.
   */
  predicate TargetTagged(n: Node, c: Ctx)
    decreases n, 0
  {
    match n
    case Name(_, k) => k == c
    case Attribute(v, _, k) => k == c && WellTagged(v)
    case Subscript(v, sl, k) => k == c && WellTagged(v) && WellTagged(sl)
    case Tuple(es, k) => k == c && forall e | e in es :: TargetTagged(e, c)
    case List(es, k) => k == c && forall e | e in es :: TargetTagged(e, c)
    case _ => false
  }

  /** Every entry of an operand stack is well tagged. */
  predicate StackTagged(s: seq<Node>) {
    forall i | 0 <= i < |s| :: WellTagged(s[i])
  }

  /** The node kinds an augmented assignment can store into. */
  predicate Assignable(n: Node) {
    n.Name? || n.Attribute? || n.Subscript?
  }
}
