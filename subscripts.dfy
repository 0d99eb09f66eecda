/**
 * Subscripts and slices: the normalisation of an index into one of the
 * three slice forms (format_slice), BINARY_SUBSCR, STORE_SUBSCR and
 * DELETE_SUBSCR, the three families SLICE_n, STORE_SLICE_n and
 * DELETE_SLICE_n (n = 0..3: bit 0 says a lower bound was pushed, bit 1 an
 * upper bound) and BUILD_SLICE.
 */
module Subscripts {
  import opened Wrappers
  import opened Ast
  import opened Tags
  import opened Tables
  import opened Stacks
  import opened Operators

  /** One dimension of an extended slice: a slice stays as it is, anything else becomes an index. */
  function IndexDim(dim: Node): Node {
    if dim.Slice? then dim else Index(dim)
  }

  /** The dimensions of an extended slice built from the elements of a tuple index. */
  function Dims(elts: seq<Node>): (dims: seq<Node>)
    ensures |dims| == |elts| && forall i | 0 <= i < |elts| :: dims[i] == IndexDim(elts[i])
  {
    seq(|elts|, i requires 0 <= i < |elts| => IndexDim(elts[i]))
  }

  /** Some element of the tuple is a slice. */
  predicate HasSlice(elts: seq<Node>) {
    exists i | 0 <= i < |elts| :: elts[i].Slice?
  }

  /** A slice form as a subscript node holds it: an index, a simple slice, or an extended slice of those. */
  predicate SliceForm(n: Node) {
    || (n.Index? && !n.value.Slice? && !(n.value.Tuple? && HasSlice(n.value.elts)))
    || n.Slice?
    || (n.ExtSlice? && forall d | d in n.dims :: d.Slice? || (d.Index? && !d.value.Slice?))
  }

  /**
   * The index of a subscript in slice form: a tuple holding a slice becomes
   * an extended slice whose other dimensions are indexes, a slice stays a
   * slice, and everything else -- a tuple without slices included -- is
   * wrapped as a plain index.
   */
  function FormattedIndex(index: Node): (r: Node)
    ensures r.ExtSlice? <==> index.Tuple? && HasSlice(index.elts)
    ensures r.ExtSlice? ==> |r.dims| == |index.elts|
    ensures r.ExtSlice? ==>
      forall i | 0 <= i < |index.elts| :: r.dims[i] == (if index.elts[i].Slice? then index.elts[i] else Index(index.elts[i]))
    ensures r.Slice? <==> index.Slice?
    ensures index.Slice? ==> r == index
    ensures !index.Slice? && !(index.Tuple? && HasSlice(index.elts)) ==> r == Index(index)
    ensures SliceForm(r)
  {
    if index.Tuple? then
      if HasSlice(index.elts) then ExtSlice(Dims(index.elts)) else Index(index)
    else if !index.Slice? then Index(index)
    else index
  }

  /** format_slice, with the loop over the tuple's elements that collects the dimensions. */
  method FormatSlice(index: Node) returns (r: Node)
    ensures r == FormattedIndex(index)
  {
    r := index;
    if index.Tuple? {
      var dims: seq<Node> := [];
      var haveSlice := false;
      var i := 0;
      while i < |index.elts|
        invariant 0 <= i <= |index.elts|
        invariant |dims| == i && forall j | 0 <= j < i :: dims[j] == IndexDim(index.elts[j])
        invariant haveSlice <==> exists j | 0 <= j < i :: index.elts[j].Slice?
      {
        var dim := index.elts[i];
        if !dim.Slice? {
          dim := Index(dim);
        } else {
          haveSlice := true;
        }
        dims := dims + [dim];
        i := i + 1;
      }
      if haveSlice {
        assert dims == Dims(index.elts);
        r := ExtSlice(dims);
      } else {
        r := Index(index);
      }
    } else if !index.Slice? {
      r := Index(index);
    }
  }

  /** A dimension made from a well-tagged element is well tagged. */
  lemma IndexDimTagged(dim: Node)
    requires WellTagged(dim)
    ensures WellTagged(IndexDim(dim))
  {
    if !dim.Slice? {
      assert Kids(Index(dim)) == [dim];
    }
  }

  /** The dimensions made from well-tagged elements are well tagged. */
  lemma DimsTagged(elts: seq<Node>)
    requires forall e | e in elts :: WellTagged(e)
    ensures forall d | d in Dims(elts) :: WellTagged(d)
  {
    forall d | d in Dims(elts) ensures WellTagged(d) {
      var i :| 0 <= i < |elts| && Dims(elts)[i] == d;
      IndexDimTagged(elts[i]);
    }
  }

  /** Formatting a well-tagged index keeps it well tagged. */
  lemma FormattedIndexKeepsTags(index: Node)
    requires WellTagged(index)
    ensures WellTagged(FormattedIndex(index))
  {
    if index.Tuple? && HasSlice(index.elts) {
      assert Kids(index) == index.elts;
      DimsTagged(index.elts);
      assert Kids(ExtSlice(Dims(index.elts))) == Dims(index.elts);
    } else if !index.Slice? {
      assert Kids(Index(index)) == [index];
    }
  }

  /** BINARY_SUBSCR: pops the index, then the object, and pushes `object[index]`, read. */
  function BinarySubscr(s: seq<Node>): (r: seq<Node>)
    requires |s| >= 2
    ensures |r| == |s| - 1 && Below(r, 1) == Below(s, 2)
    ensures Peek(r, 0) == Subscript(Peek(s, 1), FormattedIndex(Peek(s, 0)), Load)
  {
    var index, s1 := Peek(s, 0), Below(s, 1);
    var value, s2 := Peek(s1, 0), Below(s1, 1);
    s2 + [Subscript(value, FormattedIndex(index), Load)]
  }

  /**
   * STORE_SUBSCR: pops the index, the object and the value; an augmented
   * assignment `object[index] op= v` is already complete and is pushed back,
   * any other value becomes `object[index] = value`.
   */
  function StoreSubscr(s: seq<Node>): (r: seq<Node>)
    requires |s| >= 3
    ensures |r| == |s| - 2 && Below(r, 1) == Below(s, 3)
    ensures Peek(s, 2).AugAssign? ==> Peek(r, 0) == Peek(s, 2)
    ensures !Peek(s, 2).AugAssign? ==>
      Peek(r, 0) == Assign([Subscript(Peek(s, 1), FormattedIndex(Peek(s, 0)), Store)], Peek(s, 2))
  {
    var index, value, expr := Peek(s, 0), Peek(s, 1), Peek(s, 2);
    if expr.AugAssign? then Below(s, 3) + [expr]
    else Below(s, 3) + [Assign([Subscript(value, FormattedIndex(index), Store)], expr)]
  }

  /** DELETE_SUBSCR: pops the index, then the object, and pushes `del object[index]`. */
  function DeleteSubscr(s: seq<Node>): (r: seq<Node>)
    requires |s| >= 2
    ensures |r| == |s| - 1 && Below(r, 1) == Below(s, 2)
    ensures Peek(r, 0) == Delete([Subscript(Peek(s, 1), FormattedIndex(Peek(s, 0)), Del)])
  {
    var index, value := Peek(s, 0), Peek(s, 1);
    Below(s, 2) + [Delete([Subscript(value, FormattedIndex(index), Del)])]
  }

  /**
   * The three subscript handlers build the same subscript from the same
   * object and index; only its context tag differs.
   */
  lemma SubscriptFormsAgree(s: seq<Node>)
    requires |s| >= 3 && !Peek(s, 2).AugAssign?
    ensures var load := Peek(BinarySubscr(s), 0);
      && load.ctx == Load
      && Peek(StoreSubscr(s), 0).targets == [Retag(load, Store)]
      && Peek(DeleteSubscr(s), 0).targets == [Retag(load, Del)]
  {
  }

  /** BINARY_SUBSCR keeps a well-tagged stack well tagged. */
  lemma BinarySubscrKeepsTags(s: seq<Node>)
    requires |s| >= 2 && StackTagged(s)
    ensures StackTagged(BinarySubscr(s))
  {
    TaggedParts(s, 2);
    FormattedIndexKeepsTags(Peek(s, 0));
    var sub := Subscript(Peek(s, 1), FormattedIndex(Peek(s, 0)), Load);
    assert Kids(sub) == [Peek(s, 1), FormattedIndex(Peek(s, 0))];
    TaggedReplaceTop(s, 2, sub);
  }

  /** STORE_SUBSCR keeps a well-tagged stack well tagged: the subscript is tagged Store. */
  lemma StoreSubscrKeepsTags(s: seq<Node>)
    requires |s| >= 3 && StackTagged(s)
    ensures StackTagged(StoreSubscr(s))
  {
    TaggedParts(s, 3);
    if Peek(s, 2).AugAssign? {
      TaggedReplaceTop(s, 3, Peek(s, 2));
    } else {
      FormattedIndexKeepsTags(Peek(s, 0));
      var target := Subscript(Peek(s, 1), FormattedIndex(Peek(s, 0)), Store);
      assert TargetTagged(target, Store);
      var assign := Assign([target], Peek(s, 2));
      assert Kids(assign) == [Peek(s, 2)];
      TaggedReplaceTop(s, 3, assign);
    }
  }

  /** DELETE_SUBSCR keeps a well-tagged stack well tagged: the subscript is tagged Del. */
  lemma DeleteSubscrKeepsTags(s: seq<Node>)
    requires |s| >= 2 && StackTagged(s)
    ensures StackTagged(DeleteSubscr(s))
  {
    TaggedParts(s, 2);
    FormattedIndexKeepsTags(Peek(s, 0));
    var target := Subscript(Peek(s, 1), FormattedIndex(Peek(s, 0)), Del);
    assert TargetTagged(target, Del);
    var del := Delete([target]);
    assert Kids(del) == [];
    TaggedReplaceTop(s, 2, del);
  }

  /** How many bounds SLICE_n, STORE_SLICE_n and DELETE_SLICE_n pop: one for each bit of n. */
  function BoundCount(n: nat): nat
    requires n <= 3
  {
    n % 2 + n / 2
  }

  /**
   * The simple slice of SLICE_n and its relatives: the upper bound, present
   * for n = 2 and 3, is the top entry; the lower bound, present for n = 1 and
   * 3, is the entry below the upper one; there is never a step.
   */
  function PoppedSlice(s: seq<Node>, n: nat): (sl: Node)
    requires n <= 3 && |s| >= BoundCount(n)
    ensures sl.Slice? && sl.step.None?
    ensures sl.lower.Some? <==> n == 1 || n == 3
    ensures sl.upper.Some? <==> n == 2 || n == 3
    ensures sl.upper.Some? ==> sl.upper.value == Peek(s, 0)
    ensures sl.lower.Some? ==> sl.lower.value == Peek(s, n / 2)
  {
    Slice(if n % 2 == 1 then Some(Peek(s, BoundCount(n) - 1)) else None,
          if n >= 2 then Some(Peek(s, 0)) else None,
          None)
  }

  /** SLICE_n: pops the bounds, then the object, and pushes `object[lower:upper]`, read. */
  function SliceLoad(s: seq<Node>, n: nat): (r: seq<Node>)
    requires n <= 3 && |s| >= BoundCount(n) + 1
    ensures |r| == |s| - BoundCount(n) && Below(r, 1) == Below(s, BoundCount(n) + 1)
    ensures Peek(r, 0) == Subscript(Peek(s, BoundCount(n)), PoppedSlice(s, n), Load)
  {
    var k := BoundCount(n);
    Below(s, k + 1) + [Subscript(Peek(s, k), PoppedSlice(s, n), Load)]
  }

  /**
   * STORE_SLICE_n as written: pops the bounds, the object and the value, and
   * pushes `object[lower:upper] = value`, whatever the value is.  For an
   * augmented slice assignment the value is the finished AugAssign, which
   * then ends up as the right-hand side of an assignment.
   */
  function StoreSliceAsWritten(s: seq<Node>, n: nat): (r: seq<Node>)
    requires n <= 3 && |s| >= BoundCount(n) + 2
    ensures |r| == |s| - BoundCount(n) - 1 && Below(r, 1) == Below(s, BoundCount(n) + 2)
    ensures Peek(r, 0) == Assign([Subscript(Peek(s, BoundCount(n)), PoppedSlice(s, n), Store)], Peek(s, BoundCount(n) + 1))
  {
    var k := BoundCount(n);
    Below(s, k + 2) + [Assign([Subscript(Peek(s, k), PoppedSlice(s, n), Store)], Peek(s, k + 1))]
  }

  /**
   * STORE_SLICE_n as intended, in the way STORE_SUBSCR does it: a value that
   * is an augmented assignment already stores into the slice and is pushed
   * back unchanged; any other value becomes `object[lower:upper] = value`.
   */
  function StoreSlice(s: seq<Node>, n: nat): (r: seq<Node>)
    requires n <= 3 && |s| >= BoundCount(n) + 2
    ensures |r| == |s| - BoundCount(n) - 1 && Below(r, 1) == Below(s, BoundCount(n) + 2)
    ensures Peek(s, BoundCount(n) + 1).AugAssign? ==> Peek(r, 0) == Peek(s, BoundCount(n) + 1)
    ensures !Peek(s, BoundCount(n) + 1).AugAssign? ==>
      Peek(r, 0) == Assign([Subscript(Peek(s, BoundCount(n)), PoppedSlice(s, n), Store)], Peek(s, BoundCount(n) + 1))
    ensures !(Peek(r, 0).Assign? && |Peek(r, 0).targets| == 1 && Peek(r, 0).value.AugAssign?)
  {
    var k := BoundCount(n);
    var expr := Peek(s, k + 1);
    if expr.AugAssign? then Below(s, k + 2) + [expr]
    else Below(s, k + 2) + [Assign([Subscript(Peek(s, k), PoppedSlice(s, n), Store)], expr)]
  }

  /** The two versions of STORE_SLICE_n differ exactly when the value is an augmented assignment. */
  lemma StoreSliceAgrees(s: seq<Node>, n: nat)
    requires n <= 3 && |s| >= BoundCount(n) + 2
    ensures StoreSlice(s, n) == StoreSliceAsWritten(s, n) <==> !Peek(s, BoundCount(n) + 1).AugAssign?
  {
    if Peek(s, BoundCount(n) + 1).AugAssign? {
      assert Peek(StoreSlice(s, n), 0) != Peek(StoreSliceAsWritten(s, n), 0);
    }
  }

  /** DELETE_SLICE_n: pops the bounds, then the object, and pushes `del object[lower:upper]`. */
  function DeleteSlice(s: seq<Node>, n: nat): (r: seq<Node>)
    requires n <= 3 && |s| >= BoundCount(n) + 1
    ensures |r| == |s| - BoundCount(n) && Below(r, 1) == Below(s, BoundCount(n) + 1)
    ensures Peek(r, 0) == Delete([Subscript(Peek(s, BoundCount(n)), PoppedSlice(s, n), Del)])
  {
    var k := BoundCount(n);
    Below(s, k + 1) + [Delete([Subscript(Peek(s, k), PoppedSlice(s, n), Del)])]
  }

  /**
   * The three slice families build the same subscript from the same object
   * and bounds; only its context tag differs.
   */
  lemma SliceFormsAgree(s: seq<Node>, n: nat)
    requires n <= 3 && |s| >= BoundCount(n) + 2 && !Peek(s, BoundCount(n) + 1).AugAssign?
    ensures var load := Peek(SliceLoad(s, n), 0);
      && load.ctx == Load
      && Peek(StoreSlice(s, n), 0).targets == [Retag(load, Store)]
      && Peek(DeleteSlice(s, n), 0).targets == [Retag(load, Del)]
  {
  }

  /** The simple slice popped from a well-tagged stack is well tagged. */
  lemma PoppedSliceTagged(s: seq<Node>, n: nat)
    requires n <= 3 && |s| >= BoundCount(n) && StackTagged(s)
    ensures WellTagged(PoppedSlice(s, n))
  {
    TaggedParts(s, BoundCount(n));
    var sl := PoppedSlice(s, n);
    assert Kids(sl) == Opt(sl.lower) + Opt(sl.upper);
  }

  /** SLICE_n keeps a well-tagged stack well tagged. */
  lemma SliceLoadKeepsTags(s: seq<Node>, n: nat)
    requires n <= 3 && |s| >= BoundCount(n) + 1 && StackTagged(s)
    ensures StackTagged(SliceLoad(s, n))
  {
    var k := BoundCount(n);
    TaggedParts(s, k + 1);
    PoppedSliceTagged(s, n);
    var sub := Subscript(Peek(s, k), PoppedSlice(s, n), Load);
    assert Kids(sub) == [Peek(s, k), PoppedSlice(s, n)];
    TaggedReplaceTop(s, k + 1, sub);
  }

  /** STORE_SLICE_n keeps a well-tagged stack well tagged: the subscript is tagged Store. */
  lemma StoreSliceKeepsTags(s: seq<Node>, n: nat)
    requires n <= 3 && |s| >= BoundCount(n) + 2 && StackTagged(s)
    ensures StackTagged(StoreSlice(s, n))
  {
    var k := BoundCount(n);
    TaggedParts(s, k + 2);
    if Peek(s, k + 1).AugAssign? {
      TaggedReplaceTop(s, k + 2, Peek(s, k + 1));
    } else {
      PoppedSliceTagged(s, n);
      var target := Subscript(Peek(s, k), PoppedSlice(s, n), Store);
      assert TargetTagged(target, Store);
      var assign := Assign([target], Peek(s, k + 1));
      assert Kids(assign) == [Peek(s, k + 1)];
      TaggedReplaceTop(s, k + 2, assign);
    }
  }

  /** DELETE_SLICE_n keeps a well-tagged stack well tagged: the subscript is tagged Del. */
  lemma DeleteSliceKeepsTags(s: seq<Node>, n: nat)
    requires n <= 3 && |s| >= BoundCount(n) + 1 && StackTagged(s)
    ensures StackTagged(DeleteSlice(s, n))
  {
    var k := BoundCount(n);
    TaggedParts(s, k + 1);
    PoppedSliceTagged(s, n);
    var target := Subscript(Peek(s, k), PoppedSlice(s, n), Del);
    assert TargetTagged(target, Del);
    var del := Delete([target]);
    assert Kids(del) == [];
    TaggedReplaceTop(s, k + 1, del);
  }

  /** How many entries BUILD_SLICE pops: the argument, but never more than lower, upper and step. */
  function SlicePops(oparg: nat): nat {
    if oparg > 3 then 3 else oparg
  }

  /**
   * BUILD_SLICE: pops the step (argument above 2), the upper bound (above 1)
   * and the lower bound (above 0) and pushes the slice; a bound that stands
   * for None is dropped, the step is kept as popped.
   */
  function BuildSlice(s: seq<Node>, oparg: nat): (r: seq<Node>)
    requires |s| >= SlicePops(oparg)
    ensures |r| == |s| - SlicePops(oparg) + 1 && Below(r, 1) == Below(s, SlicePops(oparg))
    ensures Peek(r, 0).Slice?
    ensures Peek(r, 0).step == (if oparg > 2 then Some(Peek(s, 0)) else None)
    ensures Peek(r, 0).upper == (if oparg > 1 then DropNone(Some(Peek(s, SlicePops(oparg) - 2))) else None)
    ensures Peek(r, 0).lower == (if oparg > 0 then DropNone(Some(Peek(s, SlicePops(oparg) - 1))) else None)
    ensures var sl := Peek(r, 0);
      (sl.lower.Some? ==> !IsNone(sl.lower.value)) && (sl.upper.Some? ==> !IsNone(sl.upper.value))
  {
    var k := SlicePops(oparg);
    var step := if oparg > 2 then Some(Peek(s, 0)) else None;
    var upper := if oparg > 1 then Some(Peek(s, k - 2)) else None;
    var lower := if oparg > 0 then Some(Peek(s, k - 1)) else None;
    Below(s, k) + [Slice(DropNone(lower), DropNone(upper), step)]
  }

  /**
   * `object[lower:upper]` read through BUILD_SLICE 2 and BINARY_SUBSCR is
   * the subscript SLICE_3 builds, as long as neither bound stands for None.
   */
  lemma BuildSliceAgreesWithSlice(s: seq<Node>)
    requires |s| >= 3 && !IsNone(Peek(s, 0)) && !IsNone(Peek(s, 1))
    ensures BinarySubscr(BuildSlice(s, 2)) == SliceLoad(s, 3)
  {
    var a, b := BinarySubscr(BuildSlice(s, 2)), SliceLoad(s, 3);
    assert Peek(a, 0) == Peek(b, 0);
    assert a == Below(a, 1) + [Peek(a, 0)] && b == Below(b, 1) + [Peek(b, 0)];
  }

  /** BUILD_SLICE keeps a well-tagged stack well tagged. */
  lemma BuildSliceKeepsTags(s: seq<Node>, oparg: nat)
    requires |s| >= SlicePops(oparg) && StackTagged(s)
    ensures StackTagged(BuildSlice(s, oparg))
  {
    TaggedParts(s, SlicePops(oparg));
    var sl := Peek(BuildSlice(s, oparg), 0);
    assert Kids(sl) == Opt(sl.lower) + Opt(sl.upper) + Opt(sl.step);
    TaggedReplaceTop(s, SlicePops(oparg), sl);
  }
}
