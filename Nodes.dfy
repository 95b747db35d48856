/**
 * The CSG node tree of `yaost/base.py`: a node is a kind, its children, its
 * positional arguments and its keyword arguments. The hidden `_label`
 * lives among the keyword arguments. The Python class of the node
 * (`Node`, `TransformationNode`, `DistributiveNode`) is kept as a tag,
 * because `is_2d` and `label` dispatch on it.
 */
module Nodes {

  /** The Python values a node argument can hold, as `to_string` tells them apart. */
  datatype Arg =
    | Str(s: string)
    | Bool(b: bool)
    | Int(i: int)
    | Float(x: real)
    | Iter(items: seq<Arg>)
    | Null
    | Opaque(typeName: string)

  datatype NodeClass = Plain | Transformation | Distributive

  datatype Node = Node(cls: NodeClass, kind: string, children: seq<Node>, args: seq<Arg>, kwargs: map<string, Arg>)

  /** The `children` argument of the constructor: `None`, a single node, or a list. */
  datatype Children = NoChildren | Single(node: Node) | Many(nodes: seq<Node>)

  /** The modifier kinds, written as a glyph in front of their subtree. */
  const Glyphs: set<string> := {"!", "#", "*", "%"}

  function ChildList(c: Children): (r: seq<Node>)
    ensures c.NoChildren? ==> r == []
    ensures c.Single? ==> r == [c.node]
    ensures c.Many? ==> r == c.nodes
  {
    match c
    case NoChildren => []
    case Single(n) => [n]
    case Many(ns) => ns
  }

  /** `Node.__init__`: normalizes the children, drops `clone`, and defaults `_label` to the kind. */
  function Init(cls: NodeClass, kind: string, children: Children, args: seq<Arg>, kwargs: map<string, Arg>): (n: Node)
    ensures n.cls == cls && n.kind == kind && n.children == ChildList(children) && n.args == args
    ensures "clone" !in n.kwargs
    ensures forall k :: k in kwargs && k != "clone" ==> k in n.kwargs && n.kwargs[k] == kwargs[k]
    ensures forall k :: k in n.kwargs && k != "_label" ==> k in kwargs
    ensures "_label" in n.kwargs <==> "_label" in kwargs || kind !in Glyphs
    ensures "_label" !in kwargs && kind !in Glyphs ==> n.kwargs["_label"] == Str(kind)
  {
    var kw := kwargs - {"clone"};
    var kw' := if "_label" !in kw && kind !in Glyphs then kw["_label" := Str(kind)] else kw;
    Node(cls, kind, ChildList(children), args, kw')
  }

  /** The number of nodes in a tree. */
  function Size(n: Node): (r: nat)
    ensures r >= 1
  {
    1 + SizeSeq(n.children)
  }

  function SizeSeq(s: seq<Node>): nat
  {
    if s == [] then 0 else Size(s[0]) + SizeSeq(s[1..])
  }

  lemma {:induction false} SizeSeqAppend(a: seq<Node>, b: seq<Node>)
    ensures SizeSeq(a + b) == SizeSeq(a) + SizeSeq(b)
  {
    if a != [] {
      assert (a + b)[1..] == a[1..] + b;
      SizeSeqAppend(a[1..], b);
    } else {
      assert a + b == b;
    }
  }

  /** Splitting off the last node, the way the work stacks pop. */
  lemma SizeSeqLast(s: seq<Node>)
    requires s != []
    ensures SizeSeq(s) == SizeSeq(s[..|s| - 1]) + Size(s[|s| - 1])
    ensures SizeSeq(s[..|s| - 1]) < SizeSeq(s)
    ensures SizeSeq(s[|s| - 1].children) < SizeSeq(s)
  {
    assert s == s[..|s| - 1] + [s[|s| - 1]];
    SizeSeqAppend(s[..|s| - 1], [s[|s| - 1]]);
  }

  lemma AppendAssoc(x: seq<Node>, y: seq<Node>, z: seq<Node>)
    ensures x + (y + z) == (x + y) + z
  {
  }

  // ---------------------------------------------------------------------
  // Structural queries
  // ---------------------------------------------------------------------

  /** `depth`: 0 for a leaf, else one more than the deepest child. */
  function Depth(n: Node): (d: nat)
    ensures n.children == [] ==> d == 0
    ensures forall c :: c in n.children ==> Depth(c) < d
  {
    if n.children == [] then 0 else 1 + MaxDepth(n.children)
  }

  /** The largest depth among a non-empty list of nodes. */
  function MaxDepth(s: seq<Node>): (m: nat)
    requires s != []
    ensures forall c :: c in s ==> Depth(c) <= m
  {
    if |s| == 1 then Depth(s[0])
    else
      var rest := MaxDepth(s[1..]);
      assert forall c :: c in s ==> c == s[0] || c in s[1..];
      if Depth(s[0]) >= rest then Depth(s[0]) else rest
  }

  /** The maximum is attained: some node of the list is that deep. */
  lemma {:induction false} MaxDepthAttained(s: seq<Node>)
    requires s != []
    ensures exists i :: 0 <= i < |s| && MaxDepth(s) == Depth(s[i])
  {
    if |s| > 1 {
      MaxDepthAttained(s[1..]);
      var j :| 0 <= j < |s[1..]| && MaxDepth(s[1..]) == Depth(s[1..][j]);
      assert s[1..][j] == s[j + 1];
      if Depth(s[0]) >= MaxDepth(s[1..]) {
        assert MaxDepth(s) == Depth(s[0]);
      } else {
        assert MaxDepth(s) == Depth(s[j + 1]);
      }
    } else {
      assert MaxDepth(s) == Depth(s[0]);
    }
  }

  /** A node with children is exactly one deeper than its deepest child. */
  lemma DepthAttained(n: Node)
    requires n.children != []
    ensures exists i :: 0 <= i < |n.children| && Depth(n) == Depth(n.children[i]) + 1
  {
    MaxDepthAttained(n.children);
  }

  /** The kinds `Node.is_2d` lists, with `'polyton'` exactly as the source spells it. */
  const FlatKindsAsWritten: set<string> := {"projection", "offset", "text", "polyton", "square", "circle"}

  /** The same list with the evidently intended `'polygon'`. */
  const FlatKinds: set<string> := {"projection", "offset", "text", "polygon", "square", "circle"}

  /** `Node.is_2d` as written: a `polygon` node is not recognised as flat. */
  predicate Is2DKindAsWritten(kind: string)
  {
    kind in FlatKindsAsWritten
  }

  /** The flat kinds of OpenSCAD; the rest of the model uses this one. */
  predicate Is2DKind(kind: string)
  {
    kind in FlatKinds
  }

  /** The typo shows on the polygon primitive and on no other kind. */
  lemma PolygonTypo(kind: string)
    ensures Is2DKind(kind) != Is2DKindAsWritten(kind) <==> kind == "polygon" || kind == "polyton"
    ensures Is2DKind("polygon") && !Is2DKindAsWritten("polygon")
  {
    assert "polygon" != "polyton" by {
      assert "polygon"[4] != "polyton"[4];
    }
  }

  /** With the corrected list, the flat primitives are flat and the solid ones are not. */
  lemma FlatPrimitives()
    ensures Is2DKind("polygon") && Is2DKind("square") && Is2DKind("circle") && Is2DKind("text")
    ensures !Is2DKind("cube") && !Is2DKind("cylinder") && !Is2DKind("sphere") && !Is2DKind("polyhedron")
  {
  }

  /**
   * `is_2d`: a plain or distributive node looks at its kind only; a
   * transformation is flat unless it extrudes, and then only when every
   * child is flat.
   */
  predicate Is2D(n: Node)
  {
    match n.cls
    case Transformation =>
      n.kind != "linear_extrude" && n.kind != "rotate_extrude" && AllIs2D(n.children)
    case _ => Is2DKind(n.kind)
  }

  predicate AllIs2D(s: seq<Node>)
  {
    if s == [] then true else Is2D(s[0]) && AllIs2D(s[1..])
  }

  lemma {:induction false} AllIs2DMeansEach(s: seq<Node>)
    ensures AllIs2D(s) <==> forall i :: 0 <= i < |s| ==> Is2D(s[i])
  {
    if s != [] {
      AllIs2DMeansEach(s[1..]);
      assert forall i :: 1 <= i < |s| ==> s[i] == s[1..][i - 1];
    }
  }

  /** A transformation is flat exactly when it does not extrude and all its children are flat. */
  lemma TransformationIs2D(n: Node)
    requires n.cls == Transformation
    ensures Is2D(n) <==> (n.kind != "linear_extrude" && n.kind != "rotate_extrude"
      && forall i :: 0 <= i < |n.children| ==> Is2D(n.children[i]))
    ensures n.kind == "linear_extrude" || n.kind == "rotate_extrude" ==> !Is2D(n)
  {
    AllIs2DMeansEach(n.children);
  }

  /** `kwargs.get('_label')`, as the label search compares it. */
  predicate HasLabel(n: Node, labelName: string)
  {
    "_label" in n.kwargs && n.kwargs["_label"] == Str(labelName)
  }
}
