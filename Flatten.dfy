/**
 * `DistributiveNode`: a union, intersection or hull absorbs the children of
 * every child of a kind it collapses, as long as that child still carries
 * its default label. The source does this in one pass over a work stack
 * popped from the end; `Leaves` is the same result stated structurally.
 */
module Flatten {
  import opened Wrappers
  import opened Nodes

  /** `__collapsable`: the kind is collapsed and the label was not changed from the kind. */
  predicate Collapsible(c: Node, toCollapse: set<string>)
  {
    c.kind in toCollapse && ("_label" in c.kwargs ==> c.kwargs["_label"] == Str(c.kind))
  }

  /**
   * The kept children: the list is processed from its last element down,
   * a collapsible node contributing its own kept children and any other
   * node itself.
   */
  function Leaves(s: seq<Node>, toCollapse: set<string>): seq<Node>
    decreases SizeSeq(s)
  {
    if s == [] then []
    else
      var c := s[|s| - 1];
      SizeSeqLast(s);
      (if Collapsible(c, toCollapse) then Leaves(c.children, toCollapse) else [c])
        + Leaves(s[..|s| - 1], toCollapse)
  }

  /** What the last node of a list contributes. */
  lemma LeavesLast(s: seq<Node>, toCollapse: set<string>, c: Node, init: seq<Node>)
    requires s == init + [c]
    ensures SizeSeq(c.children) < SizeSeq(s)
    ensures Leaves(s, toCollapse)
      == (if Collapsible(c, toCollapse) then Leaves(c.children, toCollapse) else [c]) + Leaves(init, toCollapse)
  {
    assert s[|s| - 1] == c && s[..|s| - 1] == init;
    SizeSeqLast(s);
  }

  /** Kept children of a concatenation: first those of the later part. */
  lemma {:induction false} LeavesAppend(a: seq<Node>, b: seq<Node>, toCollapse: set<string>)
    ensures Leaves(a + b, toCollapse) == Leaves(b, toCollapse) + Leaves(a, toCollapse)
    decreases |b|
  {
    if b == [] {
      assert a + b == a;
    } else {
      var c, init := b[|b| - 1], b[..|b| - 1];
      assert a + b == (a + init) + [c];
      LeavesLast(a + b, toCollapse, c, a + init);
      LeavesLast(b, toCollapse, c, init);
      LeavesAppend(a, init, toCollapse);
      var head := if Collapsible(c, toCollapse) then Leaves(c.children, toCollapse) else [c];
      AppendAssoc(head, Leaves(init, toCollapse), Leaves(a, toCollapse));
    }
  }

  /** No kept child is itself collapsible. */
  lemma {:induction false} LeavesNotCollapsible(s: seq<Node>, toCollapse: set<string>)
    ensures forall c :: c in Leaves(s, toCollapse) ==> !Collapsible(c, toCollapse)
    decreases SizeSeq(s)
  {
    if s != [] {
      var c := s[|s| - 1];
      SizeSeqLast(s);
      LeavesNotCollapsible(s[..|s| - 1], toCollapse);
      if Collapsible(c, toCollapse) {
        LeavesNotCollapsible(c.children, toCollapse);
      }
    }
  }

  function Reversed(s: seq<Node>): (r: seq<Node>)
    ensures |r| == |s|
    ensures forall i :: 0 <= i < |s| ==> r[i] == s[|s| - 1 - i]
  {
    if s == [] then [] else [s[|s| - 1]] + Reversed(s[..|s| - 1])
  }

  /** When nothing collapses, the children come out in reverse order. */
  lemma {:induction false} LeavesReversed(s: seq<Node>, toCollapse: set<string>)
    requires forall c :: c in s ==> !Collapsible(c, toCollapse)
    ensures Leaves(s, toCollapse) == Reversed(s)
    decreases |s|
  {
    if s != [] {
      var init := s[..|s| - 1];
      assert forall c :: c in init ==> c in s;
      LeavesReversed(init, toCollapse);
    }
  }

  /** A node that is not collapsed is never lost. */
  lemma {:induction false} LeavesKeep(s: seq<Node>, toCollapse: set<string>, x: Node)
    requires x in s && !Collapsible(x, toCollapse)
    ensures x in Leaves(s, toCollapse)
    decreases |s|
  {
    var init := s[..|s| - 1];
    SizeSeqLast(s);
    if x != s[|s| - 1] {
      assert x in init by {
        var i :| 0 <= i < |s| && s[i] == x;
        assert init[i] == x;
      }
      LeavesKeep(init, toCollapse, x);
    }
  }

  lemma LeavesKeepAll(s: seq<Node>, toCollapse: set<string>)
    ensures forall x :: x in s && !Collapsible(x, toCollapse) ==> x in Leaves(s, toCollapse)
  {
    forall x | x in s && !Collapsible(x, toCollapse)
      ensures x in Leaves(s, toCollapse)
    {
      LeavesKeep(s, toCollapse, x);
    }
  }

  /** The children of a collapsed node are kept as that node's own kept children. */
  lemma LeavesAbsorb(s: seq<Node>, i: int, toCollapse: set<string>)
    requires 0 <= i < |s| && Collapsible(s[i], toCollapse)
    ensures Leaves(s, toCollapse)
      == Leaves(s[i + 1..], toCollapse) + Leaves(s[i].children, toCollapse) + Leaves(s[..i], toCollapse)
  {
    assert s == s[..i] + [s[i]] + s[i + 1..];
    LeavesAppend(s[..i] + [s[i]], s[i + 1..], toCollapse);
    LeavesAppend(s[..i], [s[i]], toCollapse);
    assert [s[i]][..0] == [];
  }

  /** `to_collapse` defaults to the node's own kind. */
  function CollapseSet(kind: string, toCollapse: Option<set<string>>): (r: set<string>)
    ensures toCollapse.None? ==> r == {kind}
    ensures toCollapse.Some? ==> r == toCollapse.value
  {
    if toCollapse.None? then {kind} else toCollapse.value
  }

  /** `DistributiveNode(kind, children, *args, to_collapse=..., **kwargs)`. */
  function DistributiveNew(kind: string, children: seq<Node>, args: seq<Arg>, kwargs: map<string, Arg>,
                           toCollapse: Option<set<string>>): (n: Node)
    ensures n.cls == Distributive && n.kind == kind && n.args == args
    ensures n.children == Leaves(children, CollapseSet(kind, toCollapse))
    ensures forall c :: c in n.children ==> !Collapsible(c, CollapseSet(kind, toCollapse))
    ensures n == Init(Distributive, kind, Many(n.children), args, kwargs)
  {
    LeavesNotCollapsible(children, CollapseSet(kind, toCollapse));
    Init(Distributive, kind, Many(Leaves(children, CollapseSet(kind, toCollapse))), args, kwargs)
  }

  /** `DistributiveNode.__init__`: the work-stack loop. */
  method DistributiveInit(kind: string, children: seq<Node>, args: seq<Arg>, kwargs: map<string, Arg>,
                          toCollapse: Option<set<string>>) returns (n: Node)
    ensures n == DistributiveNew(kind, children, args, kwargs, toCollapse)
  {
    var collapse := if toCollapse.None? then {kind} else toCollapse.value;
    var flat: seq<Node> := [];
    var stack := children;
    while stack != []
      invariant flat + Leaves(stack, collapse) == Leaves(children, collapse)
      decreases SizeSeq(stack)
    {
      SizeSeqLast(stack);
      var child := stack[|stack| - 1];
      var rest := stack[..|stack| - 1];
      assert Leaves(stack, collapse)
        == (if Collapsible(child, collapse) then Leaves(child.children, collapse) else [child])
           + Leaves(rest, collapse);
      stack := rest;
      if Collapsible(child, collapse) {
        LeavesAppend(stack, child.children, collapse);
        SizeSeqAppend(stack, child.children);
        stack := stack + child.children;
      } else {
        flat := flat + [child];
      }
    }
    n := Init(Distributive, kind, Many(flat), args, kwargs);
  }
}
