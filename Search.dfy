/**
 * The two traversals of `yaost/base.py`: the label search, a stack loop
 * that collects every node carrying the label and returns the first, and
 * `traverse_children_deep_first`, which yields the subtrees of the deepest
 * children first and the node itself last.
 */
module Search {
  import opened Wrappers
  import opened Nodes

  /** `x` is `t` or a node somewhere below it. */
  predicate Within(x: Node, t: Node)
  {
    x == t || exists i :: 0 <= i < |t.children| && Within(x, t.children[i])
  }

  /**
   * The order in which the label search pops nodes off a stack holding
   * `s`: the top node, then the whole subtree under it (its last child
   * first), then the rest of the stack.
   */
  function Visit(s: seq<Node>): seq<Node>
    decreases SizeSeq(s)
  {
    if s == [] then []
    else
      var c := s[|s| - 1];
      SizeSeqLast(s);
      [c] + Visit(c.children) + Visit(s[..|s| - 1])
  }

  lemma VisitLast(s: seq<Node>, c: Node, init: seq<Node>)
    requires s == init + [c]
    ensures SizeSeq(c.children) < SizeSeq(s) && SizeSeq(init) < SizeSeq(s)
    ensures Visit(s) == [c] + Visit(c.children) + Visit(init)
  {
    assert s[|s| - 1] == c && s[..|s| - 1] == init;
    SizeSeqLast(s);
  }

  /** Pushing more nodes visits them, and everything under them, first. */
  lemma {:induction false} VisitAppend(a: seq<Node>, b: seq<Node>)
    ensures Visit(a + b) == Visit(b) + Visit(a)
    decreases |b|
  {
    if b == [] {
      assert a + b == a;
    } else {
      var c, init := b[|b| - 1], b[..|b| - 1];
      assert a + b == (a + init) + [c];
      VisitLast(a + b, c, a + init);
      VisitLast(b, c, init);
      VisitAppend(a, init);
      AppendAssoc([c] + Visit(c.children), Visit(init), Visit(a));
    }
  }

  /** The search reaches exactly the nodes within the trees on the stack. */
  lemma VisitReaches(s: seq<Node>, x: Node)
    ensures x in Visit(s) <==> exists i :: 0 <= i < |s| && Within(x, s[i])
  {
    if x in Visit(s) {
      VisitOnlyWithin(s, x);
    }
    if exists i :: 0 <= i < |s| && Within(x, s[i]) {
      var i :| 0 <= i < |s| && Within(x, s[i]);
      VisitAllWithin(s, i, x);
    }
  }

  /** Only nodes within the trees on the stack are visited. */
  lemma {:induction false} VisitOnlyWithin(s: seq<Node>, x: Node)
    requires x in Visit(s)
    ensures exists i :: 0 <= i < |s| && Within(x, s[i])
    decreases SizeSeq(s)
  {
    var c, init := s[|s| - 1], s[..|s| - 1];
    assert s == init + [c];
    VisitLast(s, c, init);
    if x == c {
      assert Within(x, s[|s| - 1]);
    } else if x in Visit(c.children) {
      VisitOnlyWithin(c.children, x);
      var j :| 0 <= j < |c.children| && Within(x, c.children[j]);
      assert Within(x, s[|s| - 1]);
    } else {
      VisitOnlyWithin(init, x);
      var j :| 0 <= j < |init| && Within(x, init[j]);
      assert Within(x, s[j]);
    }
  }

  /** Every node within a tree on the stack is visited. */
  lemma {:induction false} VisitAllWithin(s: seq<Node>, i: int, x: Node)
    requires 0 <= i < |s| && Within(x, s[i])
    ensures x in Visit(s)
    decreases SizeSeq(s)
  {
    var c, init := s[|s| - 1], s[..|s| - 1];
    assert s == init + [c];
    VisitLast(s, c, init);
    if i < |init| {
      assert Within(x, init[i]);
      VisitAllWithin(init, i, x);
    } else if x != c {
      var j :| 0 <= j < |c.children| && Within(x, c.children[j]);
      VisitAllWithin(c.children, j, x);
    }
  }

  /** Every node is visited once: the visit is as long as the trees are large. */
  lemma {:induction false} VisitSize(s: seq<Node>)
    ensures |Visit(s)| == SizeSeq(s)
    decreases SizeSeq(s)
  {
    if s != [] {
      var c, init := s[|s| - 1], s[..|s| - 1];
      assert s == init + [c];
      VisitLast(s, c, init);
      VisitSize(c.children);
      VisitSize(init);
      SizeSeqLast(s);
    }
  }

  /** The nodes of `s` that carry the label, in order. */
  function Matches(s: seq<Node>, labelName: string): seq<Node>
  {
    if s == [] then []
    else (if HasLabel(s[0], labelName) then [s[0]] else []) + Matches(s[1..], labelName)
  }

  lemma {:induction false} MatchesMembers(s: seq<Node>, labelName: string)
    ensures forall x :: x in Matches(s, labelName) <==> x in s && HasLabel(x, labelName)
  {
    if s != [] {
      MatchesMembers(s[1..], labelName);
      assert forall x :: x in s <==> x == s[0] || x in s[1..];
    }
  }

  /** The message `get_child_by_label` raises. */
  function NotFound(labelName: string): string
  {
    "No resulsts found for label `" + labelName + "`"
  }

  /** The label test on the first node of a list. */
  lemma MatchesCons(x: Node, t: seq<Node>, labelName: string)
    ensures Matches([x] + t, labelName) == (if HasLabel(x, labelName) then [x] else []) + Matches(t, labelName)
  {
    assert ([x] + t)[0] == x && ([x] + t)[1..] == t;
  }

  /** One pop of the search: the top node is matched, then its children are pushed. */
  lemma SearchStep(stack: seq<Node>, labelName: string)
    requires stack != []
    ensures var node, init := stack[|stack| - 1], stack[..|stack| - 1];
      SizeSeq(init + node.children) < SizeSeq(stack)
      && Matches(Visit(stack), labelName)
         == (if HasLabel(node, labelName) then [node] else []) + Matches(Visit(init + node.children), labelName)
  {
    var node, init := stack[|stack| - 1], stack[..|stack| - 1];
    assert stack == init + [node];
    VisitLast(stack, node, init);
    VisitAppend(init, node.children);
    MatchesSplit(node, Visit(node.children), Visit(init), labelName);
    SizeSeqAppend(init, node.children);
    SizeSeqLast(stack);
  }

  lemma MatchesSplit(node: Node, a: seq<Node>, b: seq<Node>, labelName: string)
    ensures Matches([node] + a + b, labelName)
      == (if HasLabel(node, labelName) then [node] else []) + Matches(a + b, labelName)
  {
    assert [node] + a + b == [node] + (a + b);
    MatchesCons(node, a + b, labelName);
  }

  /** The search from a root starts at the root and reaches exactly the nodes within it. */
  lemma VisitRoot(root: Node, labelName: string)
    ensures var m := Matches(Visit([root]), labelName);
      && (m != [] <==> exists x :: Within(x, root) && HasLabel(x, labelName))
      && (m != [] ==> HasLabel(m[0], labelName) && Within(m[0], root))
      && (HasLabel(root, labelName) ==> m != [] && m[0] == root)
  {
    assert [root] == [] + [root];
    VisitLast([root], root, []);
    var v := Visit([root]);
    assert v == [root] + Visit(root.children) + [];
    forall x
      ensures x in v <==> Within(x, root)
    {
      VisitReaches([root], x);
    }
    var m := Matches(v, labelName);
    MatchesMembers(v, labelName);
    assert v[0] == root;
    if m != [] {
      assert m[0] in m;
    }
  }

  /**
   * `get_child_by_label`: the first labelled node in search order, the
   * root itself when it carries the label, and an error when no node
   * within the root does.
   */
  method GetChildByLabel(root: Node, labelName: string) returns (r: Result<Node, string>)
    ensures r.Ok? <==> exists x :: Within(x, root) && HasLabel(x, labelName)
    ensures r.Err? ==> r.error == NotFound(labelName)
    ensures r.Ok? ==> HasLabel(r.value, labelName) && Within(r.value, root)
    ensures r.Ok? ==> Matches(Visit([root]), labelName) != [] && r.value == Matches(Visit([root]), labelName)[0]
    ensures HasLabel(root, labelName) ==> r == Ok(root)
  {
    var result := CollectLabelled(root, labelName);
    VisitRoot(root, labelName);
    if result == [] {
      r := Err(NotFound(labelName));
    } else {
      r := Ok(result[0]);
    }
  }

  /** The search loop of `get_child_by_label`: every labelled node, in the order the stack pops them. */
  method CollectLabelled(root: Node, labelName: string) returns (result: seq<Node>)
    ensures result == Matches(Visit([root]), labelName)
  {
    var stack := [root];
    result := [];
    while stack != []
      invariant result + Matches(Visit(stack), labelName) == Matches(Visit([root]), labelName)
      decreases SizeSeq(stack)
    {
      SearchStep(stack, labelName);
      var node := stack[|stack| - 1];
      ghost var rest := Matches(Visit(stack[..|stack| - 1] + node.children), labelName);
      stack := stack[..|stack| - 1];
      if HasLabel(node, labelName) {
        assert result + ([node] + rest) == (result + [node]) + rest;
        result := result + [node];
      } else {
        assert [] + rest == rest;
      }
      stack := stack + node.children;
    }
    assert Visit([]) == [] && Matches([], labelName) == [];
  }

  // ---------------------------------------------------------------------
  // traverse_children_deep_first
  // ---------------------------------------------------------------------

  /** Places `x` before the first node of `t` that is not deeper than it. */
  function InsertByDepth(x: Node, t: seq<Node>): (r: seq<Node>)
    ensures SizeSeq(r) == Size(x) + SizeSeq(t)
  {
    if t == [] || Depth(t[0]) <= Depth(x) then [x] + t
    else
      var rest := InsertByDepth(x, t[1..]);
      assert t == [t[0]] + t[1..];
      [t[0]] + rest
  }

  lemma {:induction false} InsertPermutes(x: Node, t: seq<Node>)
    ensures multiset(InsertByDepth(x, t)) == multiset(t) + multiset{x}
  {
    if t != [] && Depth(t[0]) > Depth(x) {
      InsertPermutes(x, t[1..]);
      assert t == [t[0]] + t[1..];
    }
  }

  predicate DeepestFirst(s: seq<Node>)
  {
    forall i, j :: 0 <= i < j < |s| ==> Depth(s[i]) >= Depth(s[j])
  }

  /** A node followed by a sorted list no deeper than it is sorted. */
  lemma PrependSorted(y: Node, rest: seq<Node>)
    requires DeepestFirst(rest)
    requires forall z :: z in rest ==> Depth(z) <= Depth(y)
    ensures DeepestFirst([y] + rest)
  {
    var r := [y] + rest;
    assert r[0] == y;
    assert forall k :: 0 <= k < |rest| ==> r[k + 1] == rest[k];
    forall i, j | 0 <= i < j < |r|
      ensures Depth(r[i]) >= Depth(r[j])
    {
      var z := rest[j - 1];
      if i == 0 {
        assert z in rest;
      }
    }
  }

  lemma {:induction false} InsertKeepsOrder(x: Node, t: seq<Node>)
    requires DeepestFirst(t)
    ensures DeepestFirst(InsertByDepth(x, t))
  {
    if t == [] || Depth(t[0]) <= Depth(x) {
      HeadIsDeepest(t, Depth(x));
      PrependSorted(x, t);
    } else {
      var tail := t[1..];
      TailSorted(t);
      InsertKeepsOrder(x, tail);
      InsertBelowHead(x, t);
      PrependSorted(t[0], InsertByDepth(x, tail));
    }
  }

  /** In a deepest-first list, a bound on the head bounds every element. */
  lemma HeadIsDeepest(t: seq<Node>, d: int)
    requires DeepestFirst(t) && (t == [] || Depth(t[0]) <= d)
    ensures forall z :: z in t ==> Depth(z) <= d
  {
    forall z | z in t
      ensures Depth(z) <= d
    {
      var k :| 0 <= k < |t| && t[k] == z;
      assert Depth(t[0]) >= Depth(t[k]) || k == 0;
    }
  }

  lemma TailSorted(t: seq<Node>)
    requires t != [] && DeepestFirst(t)
    ensures DeepestFirst(t[1..])
  {
    var tail := t[1..];
    forall i, j | 0 <= i < j < |tail|
      ensures Depth(tail[i]) >= Depth(tail[j])
    {
      assert tail[i] == t[i + 1] && tail[j] == t[j + 1];
    }
  }

  /** Inserting a shallower node into the tail keeps everything below the head. */
  lemma InsertBelowHead(x: Node, t: seq<Node>)
    requires t != [] && DeepestFirst(t) && Depth(t[0]) > Depth(x)
    ensures forall z :: z in InsertByDepth(x, t[1..]) ==> Depth(z) <= Depth(t[0])
  {
    var tail := t[1..];
    InsertPermutes(x, tail);
    var rest := InsertByDepth(x, tail);
    forall z | z in rest
      ensures Depth(z) <= Depth(t[0])
    {
      assert z in multiset(rest);
      if z != x {
        assert z in multiset(tail);
        var k :| 0 <= k < |tail| && tail[k] == z;
        assert t[k + 1] == z;
      }
    }
  }

  /** `sorted(children, key=lambda c: -c.depth)`, by stable insertion. */
  function SortByDepth(s: seq<Node>): (r: seq<Node>)
    ensures SizeSeq(r) == SizeSeq(s)
  {
    if s == [] then []
    else
      assert s == [s[0]] + s[1..];
      InsertByDepth(s[0], SortByDepth(s[1..]))
  }

  /** The sorted children are the children, deepest first. */
  lemma SortByDepthSorts(s: seq<Node>)
    ensures multiset(SortByDepth(s)) == multiset(s)
    ensures DeepestFirst(SortByDepth(s))
  {
    SortPermutes(s);
    SortOrders(s);
  }

  lemma {:induction false} SortPermutes(s: seq<Node>)
    ensures multiset(SortByDepth(s)) == multiset(s)
  {
    if s != [] {
      var rest := SortByDepth(s[1..]);
      SortPermutes(s[1..]);
      InsertPermutes(s[0], rest);
      assert SortByDepth(s) == InsertByDepth(s[0], rest);
      assert s == [s[0]] + s[1..];
      assert multiset(s) == multiset{s[0]} + multiset(s[1..]);
    }
  }

  lemma {:induction false} SortOrders(s: seq<Node>)
    ensures DeepestFirst(SortByDepth(s))
  {
    if s != [] {
      var rest := SortByDepth(s[1..]);
      SortOrders(s[1..]);
      InsertKeepsOrder(s[0], rest);
      assert SortByDepth(s) == InsertByDepth(s[0], rest);
    }
  }

  /** `traverse_children_deep_first`: the subtrees of the deepest children first, the node last. */
  function DeepFirst(n: Node): (r: seq<Node>)
    ensures |r| == Size(n) && r[|r| - 1] == n
    decreases Size(n), 0
  {
    var sorted := SortByDepth(n.children);
    DeepFirstAll(sorted) + [n]
  }

  function DeepFirstAll(s: seq<Node>): (r: seq<Node>)
    ensures |r| == SizeSeq(s)
    decreases SizeSeq(s), 1
  {
    if s == [] then [] else DeepFirst(s[0]) + DeepFirstAll(s[1..])
  }

  /** Everything the deep-first traversal yields lies within the node. */
  lemma {:induction false} DeepFirstWithin(n: Node, x: Node)
    requires x in DeepFirst(n)
    ensures Within(x, n)
    decreases Size(n), 0
  {
    var sorted := SortByDepth(n.children);
    if x != n {
      assert x in DeepFirstAll(sorted);
      DeepFirstAllWithin(sorted, x);
      var i :| 0 <= i < |sorted| && Within(x, sorted[i]);
      SortByDepthSorts(n.children);
      assert sorted[i] in multiset(sorted);
      assert sorted[i] in multiset(n.children);
      var j :| 0 <= j < |n.children| && n.children[j] == sorted[i];
    }
  }

  lemma {:induction false} DeepFirstAllWithin(s: seq<Node>, x: Node)
    requires x in DeepFirstAll(s)
    ensures exists i :: 0 <= i < |s| && Within(x, s[i])
    decreases SizeSeq(s), 1
  {
    if x in DeepFirst(s[0]) {
      DeepFirstWithin(s[0], x);
    } else {
      DeepFirstAllWithin(s[1..], x);
      var i :| 0 <= i < |s[1..]| && Within(x, s[1..][i]);
      assert s[1..][i] == s[i + 1];
    }
  }

  /** Every node within the node is yielded by the deep-first traversal. */
  lemma {:induction false} WithinDeepFirst(n: Node, x: Node)
    requires Within(x, n)
    ensures x in DeepFirst(n)
    decreases Size(n), 0
  {
    var sorted := SortByDepth(n.children);
    if x != n {
      var j :| 0 <= j < |n.children| && Within(x, n.children[j]);
      SortPermutes(n.children);
      assert n.children[j] in multiset(n.children);
      assert n.children[j] in multiset(sorted);
      var i :| 0 <= i < |sorted| && sorted[i] == n.children[j];
      WithinDeepFirstAll(sorted, i, x);
    }
  }

  lemma {:induction false} WithinDeepFirstAll(s: seq<Node>, i: int, x: Node)
    requires 0 <= i < |s| && Within(x, s[i])
    ensures x in DeepFirstAll(s)
    decreases SizeSeq(s), 1
  {
    if i == 0 {
      WithinDeepFirst(s[0], x);
    } else {
      assert s[1..][i - 1] == s[i];
      WithinDeepFirstAll(s[1..], i - 1, x);
    }
  }

  /** The deep-first traversal yields exactly the nodes within the node. */
  lemma DeepFirstComplete(n: Node, x: Node)
    ensures x in DeepFirst(n) <==> Within(x, n)
  {
    if x in DeepFirst(n) {
      DeepFirstWithin(n, x);
    }
    if Within(x, n) {
      WithinDeepFirst(n, x);
    }
  }

  /** The traversal of a list is the traversal of any one element between those of its neighbours. */
  lemma {:induction false} DeepFirstAllSplit(s: seq<Node>, i: int)
    requires 0 <= i < |s|
    ensures DeepFirstAll(s) == DeepFirstAll(s[..i]) + DeepFirst(s[i]) + DeepFirstAll(s[i + 1..])
    decreases i
  {
    if i == 0 {
      assert s[..0] == [];
    } else {
      var t := s[1..];
      DeepFirstAllSplit(t, i - 1);
      assert t[..i - 1] == s[..i][1..];
      assert t[i - 1] == s[i];
      assert t[i..] == s[i + 1..];
      assert s[..i][0] == s[0];
      AppendAssoc(DeepFirst(s[0]), DeepFirstAll(t[..i - 1]) + DeepFirst(s[i]), DeepFirstAll(s[i + 1..]));
      AppendAssoc(DeepFirst(s[0]), DeepFirstAll(t[..i - 1]), DeepFirst(s[i]));
    }
  }

  /**
   * Deep-first order: the subtree of each child is yielded as one block.
   * The blocks of children at least as deep come before it, the blocks of
   * children at most as deep come after it, and the node itself comes last.
   */
  lemma DeepFirstBlocks(n: Node, i: int)
    requires 0 <= i < |n.children|
    ensures var sorted := SortByDepth(n.children);
      |sorted| == |n.children|
      && DeepFirst(n) == DeepFirstAll(sorted[..i]) + DeepFirst(sorted[i]) + DeepFirstAll(sorted[i + 1..]) + [n]
      && (forall j :: 0 <= j < i ==> Depth(sorted[j]) >= Depth(sorted[i]))
      && (forall j :: i < j < |sorted| ==> Depth(sorted[i]) >= Depth(sorted[j]))
  {
    var sorted := SortByDepth(n.children);
    SortByDepthSorts(n.children);
    assert |sorted| == |multiset(sorted)| == |multiset(n.children)| == |n.children|;
    DeepFirstAllSplit(sorted, i);
  }
}
