/**
 * The operand stack as a value (the last element is the top), the
 * vocabulary the handler contracts are written in, and the handlers that
 * only shuffle entries: ROT_TWO, ROT_THREE, DUP_TOP and DUP_TOPX.
 */
module Stacks {
  import opened Ast
  import opened Tags

  /** The entry k places below the top (Peek(s, 0) is the top). */
  function Peek(s: seq<Node>, k: nat): Node
    requires k < |s|
  {
    s[|s| - 1 - k]
  }

  /** The stack without its top k entries. */
  function Below(s: seq<Node>, k: nat): seq<Node>
    requires k <= |s|
  {
    s[..|s| - k]
  }

  /** The top k entries, bottom-most first (the order in which they were pushed). */
  function TopItems(s: seq<Node>, k: nat): seq<Node>
    requires k <= |s|
  {
    s[|s| - k..]
  }

  /** Every entry of a well-tagged stack, and every part of it, is well tagged. */
  lemma TaggedParts(s: seq<Node>, k: nat)
    requires StackTagged(s) && k <= |s|
    ensures StackTagged(Below(s, k)) && StackTagged(TopItems(s, k))
    ensures forall i | 0 <= i < k :: WellTagged(Peek(s, i))
  {
  }

  /** Pushing well-tagged entries onto a well-tagged stack keeps it well tagged. */
  lemma TaggedPush(s: seq<Node>, top: seq<Node>)
    requires StackTagged(s) && forall n | n in top :: WellTagged(n)
    ensures StackTagged(s + top)
  {
    forall i | 0 <= i < |s + top| ensures WellTagged((s + top)[i]) {
      if i >= |s| {
        assert (s + top)[i] == top[i - |s|];
      }
    }
  }

  /** Replacing the top k entries of a well-tagged stack by one well-tagged node keeps it well tagged. */
  lemma TaggedReplaceTop(s: seq<Node>, k: nat, n: Node)
    requires StackTagged(s) && k <= |s| && WellTagged(n)
    ensures StackTagged(Below(s, k) + [n])
  {
    TaggedParts(s, k);
    TaggedPush(Below(s, k), [n]);
  }

  /** ROT_TWO: pop one, pop two, push one, push two -- the top two entries change places. */
  function RotTwo(s: seq<Node>): (r: seq<Node>)
    requires |s| >= 2
    ensures |r| == |s| && Below(r, 2) == Below(s, 2)
    ensures Peek(r, 0) == Peek(s, 1) && Peek(r, 1) == Peek(s, 0)
  {
    var one, s1 := Peek(s, 0), Below(s, 1);
    var two, s2 := Peek(s1, 0), Below(s1, 1);
    assert s == s2 + [two, one];
    s2 + [one] + [two]
  }

  /** ROT_THREE: `[.., a, b, c]` becomes `[.., c, a, b]` -- the top sinks two places. */
  function RotThree(s: seq<Node>): (r: seq<Node>)
    requires |s| >= 3
    ensures |r| == |s| && Below(r, 3) == Below(s, 3)
    ensures Peek(r, 2) == Peek(s, 0) && Peek(r, 1) == Peek(s, 2) && Peek(r, 0) == Peek(s, 1)
  {
    var expr1, s1 := Peek(s, 0), Below(s, 1);
    var expr2, s2 := Peek(s1, 0), Below(s1, 1);
    var expr3, s3 := Peek(s2, 0), Below(s2, 1);
    assert s == s3 + [expr3, expr2, expr1];
    s3 + [expr1] + [expr3] + [expr2]
  }

  /** DUP_TOP: the top entry is pushed a second time. */
  function DupTop(s: seq<Node>): (r: seq<Node>)
    requires |s| >= 1
    ensures |r| == |s| + 1 && Below(r, 1) == s
    ensures Peek(r, 0) == Peek(s, 0)
  {
    var expr := Peek(s, 0);
    Below(s, 1) + [expr] + [expr]
  }

  /** DUP_TOPX n: the top n entries are pushed again, in the same order. */
  function DupTopX(s: seq<Node>, n: nat): (r: seq<Node>)
    requires |s| >= n
    ensures |r| == |s| + n && Below(r, n) == s
    ensures TopItems(r, n) == TopItems(s, n)
  {
    var exprs := TopItems(s, n);
    assert s == Below(s, n) + exprs;
    Below(s, n) + exprs + exprs
  }

  /** Applying ROT_THREE three times restores the stack. */
  lemma RotThreeCycles(s: seq<Node>)
    requires |s| >= 3
    ensures RotThree(RotThree(RotThree(s))) == s
  {
    var a := RotThree(s);
    var b := RotThree(a);
    var c := RotThree(b);
    assert Peek(c, 0) == Peek(s, 0) && Peek(c, 1) == Peek(s, 1) && Peek(c, 2) == Peek(s, 2);
    assert Below(c, 3) == Below(s, 3);
    assert c == Below(c, 3) + [Peek(c, 2), Peek(c, 1), Peek(c, 0)];
    assert s == Below(s, 3) + [Peek(s, 2), Peek(s, 1), Peek(s, 0)];
  }

  /** Applying ROT_TWO twice restores the stack. */
  lemma RotTwoInvolution(s: seq<Node>)
    requires |s| >= 2
    ensures RotTwo(RotTwo(s)) == s
  {
    var r := RotTwo(RotTwo(s));
    assert r == Below(r, 2) + [Peek(r, 1), Peek(r, 0)];
    assert s == Below(s, 2) + [Peek(s, 1), Peek(s, 0)];
  }

  /** ROT_TWO moves entries but never retags them, so a well-tagged stack stays well tagged. */
  lemma RotTwoKeepsTags(s: seq<Node>)
    requires |s| >= 2 && StackTagged(s)
    ensures StackTagged(RotTwo(s))
  {
    TaggedParts(s, 2);
    TaggedPush(Below(s, 2), [Peek(s, 0), Peek(s, 1)]);
    assert RotTwo(s) == Below(s, 2) + [Peek(s, 0), Peek(s, 1)];
  }

  /** ROT_THREE keeps a well-tagged stack well tagged. */
  lemma RotThreeKeepsTags(s: seq<Node>)
    requires |s| >= 3 && StackTagged(s)
    ensures StackTagged(RotThree(s))
  {
    TaggedParts(s, 3);
    TaggedPush(Below(s, 3), [Peek(s, 0), Peek(s, 2), Peek(s, 1)]);
    assert RotThree(s) == Below(s, 3) + [Peek(s, 0), Peek(s, 2), Peek(s, 1)];
  }

  /** DUP_TOP and DUP_TOPX keep a well-tagged stack well tagged. */
  lemma DupKeepsTags(s: seq<Node>, n: nat)
    requires |s| >= n && StackTagged(s)
    ensures |s| >= 1 ==> StackTagged(DupTop(s))
    ensures StackTagged(DupTopX(s, n))
  {
    if |s| >= 1 {
      TaggedPush(s, [Peek(s, 0)]);
    }
    TaggedParts(s, n);
    TaggedPush(s, TopItems(s, n));
  }
}
