/**
 * The builders of `yaost/base.py` that wrap a node in a new one: the
 * transformations `t`, `r`, `s`, `m` and their axis shorthands, clone
 * mode, the set operations, the modifiers, and relabelling.
 *
 * Centre of mass is not computed here: it is a parameter `com` giving
 * the centre of any node, read only when an axis is the `'c'`/`'com'`
 * sentinel.
 */
module Transform {
  import opened Wrappers
  import opened Strings
  import opened Geometry
  import opened Nodes
  import opened Flatten
  import opened NodeText

  // ---------------------------------------------------------------------
  // Python values as the builders compare them
  // ---------------------------------------------------------------------

  /** Python `a == 0`: integer zero, float zero and `False`. */
  predicate IsZero(a: Arg)
  {
    a == Int(0) || a == Float(0.0) || a == Bool(false)
  }

  /** `x == y == z == 0`, which holds exactly when all three equal zero. */
  predicate AllZero(x: Arg, y: Arg, z: Arg)
  {
    IsZero(x) && IsZero(y) && IsZero(z)
  }

  /** Python truthiness, as `clone=` is tested. */
  predicate Truthy(a: Arg)
  {
    match a
    case Str(s) => s != ""
    case Bool(b) => b
    case Int(i) => i != 0
    case Float(x) => x != 0.0
    case Iter(items) => items != []
    case Null => false
    case Opaque(_) => true
  }

  /** The values unary minus accepts. */
  predicate Numeric(a: Arg)
  {
    a.Int? || a.Float? || a.Bool?
  }

  /** Python unary minus; `-True` is the integer `-1`. */
  function Negate(a: Arg): (r: Arg)
    requires Numeric(a)
    ensures IsZero(r) <==> IsZero(a)
    ensures r.Int? || r.Float?
  {
    match a
    case Int(i) => Int(-i)
    case Float(x) => Float(-x)
    case Bool(b) => Int(if b then -1 else 0)
  }

  /** The translate axes `'c'` and `'com'` stand for the centre of mass. */
  predicate IsSentinel(a: Arg)
  {
    a == Str("c") || a == Str("com")
  }

  /** A keyword argument binding a named parameter, or the parameter's default. */
  function Param(kwargs: map<string, Arg>, key: string, default: Arg): (r: Arg)
    ensures key !in kwargs ==> r == default
  {
    if key in kwargs then kwargs[key] else default
  }

  /** `clone=` was given and is true. */
  predicate Cloning(kwargs: map<string, Arg>)
  {
    "clone" in kwargs && Truthy(kwargs["clone"])
  }

  // ---------------------------------------------------------------------
  // TransformationNode
  // ---------------------------------------------------------------------

  /**
   * `TransformationNode(kind, children, *args, **kwargs)`: with a true
   * `clone`, the union of the node's own children and the transformed node.
   */
  function TransformationNew(kind: string, children: Children, args: seq<Arg>, kwargs: map<string, Arg>): (n: Node)
    ensures !Cloning(kwargs) ==> n == Init(Transformation, kind, children, args, kwargs)
    ensures Cloning(kwargs) ==> n.cls == Distributive && n.kind == "union"
    ensures Cloning(kwargs) ==>
      var clone := Init(Transformation, kind, children, args, kwargs - {"clone"});
      n.children == Leaves(ChildList(children) + [clone], {"union"})
  {
    if Cloning(kwargs) then
      var clone := Init(Transformation, kind, children, args, kwargs - {"clone"});
      DistributiveNew("union", clone.children + [clone], [], map[], None)
    else Init(Transformation, kind, children, args, kwargs)
  }

  /**
   * In clone mode over a single node that does not itself collapse into
   * the union, the result holds the transformed node and then the original.
   */
  lemma CloneKeepsOriginal(kind: string, n: Node, args: seq<Arg>, kwargs: map<string, Arg>)
    requires Cloning(kwargs) && kind != "union" && !Collapsible(n, {"union"})
    ensures var clone := Init(Transformation, kind, Single(n), args, kwargs - {"clone"});
      TransformationNew(kind, Single(n), args, kwargs).children == [clone, n]
      && clone.kind == kind && clone.children == [n] && "clone" !in clone.kwargs
  {
    var clone := Init(Transformation, kind, Single(n), args, kwargs - {"clone"});
    assert !Collapsible(clone, {"union"});
    assert [n] + [clone] == [n, clone];
    LeavesReversed([n, clone], {"union"});
    assert Reversed([n, clone]) == [clone, n];
  }

  /** Without clone mode a transformation has its construction arguments and its one child. */
  lemma TransformationShape(kind: string, n: Node, args: seq<Arg>, kwargs: map<string, Arg>)
    requires !Cloning(kwargs)
    ensures var r := TransformationNew(kind, Single(n), args, kwargs);
      r.cls == Transformation && r.kind == kind && r.children == [n] && r.args == args
      && Depth(r) == Depth(n) + 1
  {
    var r := TransformationNew(kind, Single(n), args, kwargs);
    assert MaxDepth(r.children) == Depth(n);
  }

  // ---------------------------------------------------------------------
  // t, r, s, m
  // ---------------------------------------------------------------------

  /** The value a translate axis ends up with. */
  function Axis(a: Arg, centre: real): (r: Arg)
    ensures IsSentinel(a) ==> r == Float(-centre)
    ensures !IsSentinel(a) ==> r == a
  {
    if IsSentinel(a) then Float(-centre) else a
  }

  /**
   * `t(x, y, z, **kwargs)`: the translate of `n`, or `n` itself when
   * every offset is zero. A list offset raises in the sentinel test.
   */
  function T(n: Node, x: Arg, y: Arg, z: Arg, kwargs: map<string, Arg>, com: Node -> Vector): (r: Node)
    requires !x.Iter? && !y.Iter? && !z.Iter?
    ensures AllZero(x, y, z) ==> r == n
    ensures !AllZero(x, y, z) ==> Depth(r) > Depth(n)
  {
    if AllZero(x, y, z) then n
    else
      var c := com(n);
      var args := [Iter([Axis(x, c.x), Axis(y, c.y), Axis(z, c.z)])];
      ContainsDeeper("translate", n, args, kwargs);
      TransformationNew("translate", Single(n), args, kwargs)
  }

  /** `t(v)` with a vector: its three components; only the zero vector returns the node. */
  function TVec(n: Node, v: Vector, kwargs: map<string, Arg>, com: Node -> Vector): (r: Node)
    ensures r == n <==> v.x == 0.0 && v.y == 0.0 && v.z == 0.0
  {
    T(n, Float(v.x), Float(v.y), Float(v.z), kwargs, com)
  }

  /** A translate is elided exactly when all three offsets are zero. */
  lemma TranslateElision(n: Node, x: Arg, y: Arg, z: Arg, kwargs: map<string, Arg>, com: Node -> Vector)
    requires !x.Iter? && !y.Iter? && !z.Iter?
    ensures T(n, x, y, z, kwargs, com) == n <==> AllZero(x, y, z)
  {
  }

  /**
   * A translate that is not elided moves `n` by the offsets given, each
   * sentinel axis by the negated centre of mass on that axis only.
   */
  lemma TranslateAxes(n: Node, x: Arg, y: Arg, z: Arg, kwargs: map<string, Arg>, com: Node -> Vector)
    requires !x.Iter? && !y.Iter? && !z.Iter?
    requires !AllZero(x, y, z) && !Cloning(kwargs)
    ensures var r := T(n, x, y, z, kwargs, com);
      r.cls == Transformation && r.kind == "translate" && r.children == [n] && |r.args| == 1
      && r.args[0].Iter? && |r.args[0].items| == 3
      && r.args[0].items[0] == (if IsSentinel(x) then Float(-com(n).x) else x)
      && r.args[0].items[1] == (if IsSentinel(y) then Float(-com(n).y) else y)
      && r.args[0].items[2] == (if IsSentinel(z) then Float(-com(n).z) else z)
      && Depth(r) == Depth(n) + 1
  {
    var c := com(n);
    TransformationShape("translate", n, [Iter([Axis(x, c.x), Axis(y, c.y), Axis(z, c.z)])], kwargs);
  }

  /**
   * `r(x, y, z, xc, yc, zc, **kwargs)`: `n` itself for zero angles; a
   * rotate; or, about a pivot that is not the origin, the translate back
   * of the rotate of the translate of `n` to the origin.
   */
  function R(n: Node, x: Arg, y: Arg, z: Arg, xc: Arg, yc: Arg, zc: Arg,
             kwargs: map<string, Arg>, com: Node -> Vector): (r: Node)
    requires !AllZero(x, y, z) ==> Numeric(xc) && Numeric(yc) && Numeric(zc)
    ensures AllZero(x, y, z) ==> r == n
    ensures !AllZero(x, y, z) ==> Depth(r) > Depth(n)
  {
    if AllZero(x, y, z) then n
    else Pivoted("rotate", n, x, y, z, xc, yc, zc, kwargs, com)
  }

  /** `m(x, y, z, xc, yc, zc, **kwargs)`: a mirror, pivoted like a rotate but never elided. */
  function M(n: Node, x: Arg, y: Arg, z: Arg, xc: Arg, yc: Arg, zc: Arg,
             kwargs: map<string, Arg>, com: Node -> Vector): (r: Node)
    requires Numeric(xc) && Numeric(yc) && Numeric(zc)
    ensures Depth(r) > Depth(n)
  {
    Pivoted("mirror", n, x, y, z, xc, yc, zc, kwargs, com)
  }

  /** The pivot sandwich shared by `r` and `m`: pivoted or not, it lies above the node. */
  function Pivoted(kind: string, n: Node, x: Arg, y: Arg, z: Arg, xc: Arg, yc: Arg, zc: Arg,
                   kwargs: map<string, Arg>, com: Node -> Vector): (r: Node)
    requires kind == "rotate" || kind == "mirror"
    requires Numeric(xc) && Numeric(yc) && Numeric(zc)
    ensures Depth(r) > Depth(n)
  {
    if !AllZero(xc, yc, zc) then
      var there := T(n, Negate(xc), Negate(yc), Negate(zc), map[], com);
      ContainsDeeper(kind, there, [Iter([x, y, z])], kwargs);
      var op := TransformationNew(kind, Single(there), [Iter([x, y, z])], kwargs);
      T(op, xc, yc, zc, map[], com)
    else
      ContainsDeeper(kind, n, [Iter([x, y, z])], kwargs);
      TransformationNew(kind, Single(n), [Iter([x, y, z])], kwargs)
  }

  /** `s(x, y, z, **kwargs)`: a scale, never elided, even by (1, 1, 1). */
  function S(n: Node, x: Arg, y: Arg, z: Arg, kwargs: map<string, Arg>): (r: Node)
    ensures Depth(r) > Depth(n)
  {
    ContainsDeeper("scale", n, [Iter([x, y, z])], kwargs);
    TransformationNew("scale", Single(n), [Iter([x, y, z])], kwargs)
  }

  /** Without clone mode a scale is one node over `n` with the three factors as its argument. */
  lemma ScaleShape(n: Node, x: Arg, y: Arg, z: Arg, kwargs: map<string, Arg>)
    requires !Cloning(kwargs)
    ensures var r := S(n, x, y, z, kwargs);
      r.cls == Transformation && r.kind == "scale" && r.children == [n] && r.args == [Iter([x, y, z])]
      && Depth(r) == Depth(n) + 1 && r != n
  {
    TransformationShape("scale", n, [Iter([x, y, z])], kwargs);
  }


  /** A transformation, cloned or not, is deeper than the node it wraps. */
  lemma ContainsDeeper(kind: string, n: Node, args: seq<Arg>, kwargs: map<string, Arg>)
    requires kind != "union"
    ensures Depth(TransformationNew(kind, Single(n), args, kwargs)) > Depth(n)
  {
    var r := TransformationNew(kind, Single(n), args, kwargs);
    if Cloning(kwargs) {
      var clone := Init(Transformation, kind, Single(n), args, kwargs - {"clone"});
      assert n in clone.children;
      assert !Collapsible(clone, {"union"});
      LeavesKeep([n, clone], {"union"}, clone);
      assert [n] + [clone] == [n, clone];
      assert clone in r.children;
    } else {
      assert n in r.children;
    }
  }

  /** A cloned transformation is the union of the node with its transformed copy. */
  lemma CloneIsUnion(kind: string, n: Node, args: seq<Arg>, kwargs: map<string, Arg>)
    requires Cloning(kwargs)
    ensures TransformationNew(kind, Single(n), args, kwargs)
      == Union(n, [TransformationNew(kind, Single(n), args, kwargs - {"clone"})])
  {
    assert !Cloning(kwargs - {"clone"});
  }

  /** A rotate is elided exactly when all three angles are zero. */
  lemma RotateElision(n: Node, x: Arg, y: Arg, z: Arg, xc: Arg, yc: Arg, zc: Arg,
                      kwargs: map<string, Arg>, com: Node -> Vector)
    requires !AllZero(x, y, z) ==> Numeric(xc) && Numeric(yc) && Numeric(zc)
    ensures R(n, x, y, z, xc, yc, zc, kwargs, com) == n <==> AllZero(x, y, z)
  {
  }

  /** With zero angles `r` never reads its pivot: any pivot, numeric or not, returns the node. */
  lemma ZeroRotateIgnoresPivot(n: Node, xc: Arg, yc: Arg, zc: Arg, kwargs: map<string, Arg>, com: Node -> Vector)
    ensures R(n, Int(0), Float(0.0), Bool(false), xc, yc, zc, kwargs, com) == n
    ensures R(n, Int(0), Int(0), Int(0), Str("c"), Null, Iter([]), kwargs, com) == n
  {
  }

  /** A mirror is never elided, even for a zero normal. */
  lemma MirrorNeverElided(n: Node, x: Arg, y: Arg, z: Arg, xc: Arg, yc: Arg, zc: Arg,
                          kwargs: map<string, Arg>, com: Node -> Vector)
    requires Numeric(xc) && Numeric(yc) && Numeric(zc)
    ensures M(n, x, y, z, xc, yc, zc, kwargs, com) != n
  {
  }

  /** A translate by numbers is the translate node with those three offsets. */
  lemma TranslateNumeric(n: Node, x: Arg, y: Arg, z: Arg, com: Node -> Vector)
    requires Numeric(x) && Numeric(y) && Numeric(z) && !AllZero(x, y, z)
    ensures T(n, x, y, z, map[], com) == Init(Transformation, "translate", Single(n), [Iter([x, y, z])], map[])
    ensures Depth(T(n, x, y, z, map[], com)) == Depth(n) + 1
  {
    var c := com(n);
    assert Axis(x, c.x) == x && Axis(y, c.y) == y && Axis(z, c.z) == z;
    TransformationShape("translate", n, [Iter([x, y, z])], map[]);
  }

  /** Through the origin and without clone mode, a rotate or mirror is one node above `n`. */
  lemma UnpivotedShape(kind: string, n: Node, x: Arg, y: Arg, z: Arg, xc: Arg, yc: Arg, zc: Arg,
                       kwargs: map<string, Arg>, com: Node -> Vector)
    requires (kind == "rotate" || kind == "mirror") && Numeric(xc) && Numeric(yc) && Numeric(zc)
    requires AllZero(xc, yc, zc) && !Cloning(kwargs)
    ensures var r := Pivoted(kind, n, x, y, z, xc, yc, zc, kwargs, com);
      r.cls == Transformation && r.kind == kind && r.children == [n] && r.args == [Iter([x, y, z])]
      && Depth(r) == Depth(n) + 1
  {
    TransformationShape(kind, n, [Iter([x, y, z])], kwargs);
  }

  /**
   * About a pivot that is not the origin and without clone mode, a rotate
   * or mirror is a translate back, over the operation, over a translate of
   * `n` by the negated pivot: three levels above `n`.
   */
  lemma PivotedShape(kind: string, n: Node, x: Arg, y: Arg, z: Arg, xc: Arg, yc: Arg, zc: Arg,
                     kwargs: map<string, Arg>, com: Node -> Vector)
    requires (kind == "rotate" || kind == "mirror") && Numeric(xc) && Numeric(yc) && Numeric(zc)
    requires !AllZero(xc, yc, zc) && !Cloning(kwargs)
    ensures var r := Pivoted(kind, n, x, y, z, xc, yc, zc, kwargs, com);
      r.kind == "translate" && r.args == [Iter([xc, yc, zc])] && |r.children| == 1
      && r.children[0].kind == kind && r.children[0].args == [Iter([x, y, z])]
      && |r.children[0].children| == 1
      && r.children[0].children[0].kind == "translate"
      && r.children[0].children[0].args == [Iter([Negate(xc), Negate(yc), Negate(zc)])]
      && r.children[0].children[0].children == [n]
      && Depth(r) == Depth(n) + 3
  {
    var there := T(n, Negate(xc), Negate(yc), Negate(zc), map[], com);
    var op := TransformationNew(kind, Single(there), [Iter([x, y, z])], kwargs);
    PivotedUnfold(kind, n, x, y, z, xc, yc, zc, kwargs, com);
    SandwichShape(kind, n, x, y, z, xc, yc, zc, kwargs, com);
  }

  /** The three levels of the pivot sandwich, one translate at a time. */
  lemma SandwichShape(kind: string, n: Node, x: Arg, y: Arg, z: Arg, xc: Arg, yc: Arg, zc: Arg,
                      kwargs: map<string, Arg>, com: Node -> Vector)
    requires Numeric(xc) && Numeric(yc) && Numeric(zc) && !AllZero(xc, yc, zc) && !Cloning(kwargs)
    ensures var there := T(n, Negate(xc), Negate(yc), Negate(zc), map[], com);
      var op := TransformationNew(kind, Single(there), [Iter([x, y, z])], kwargs);
      var r := T(op, xc, yc, zc, map[], com);
      r.kind == "translate" && r.args == [Iter([xc, yc, zc])] && r.children == [op]
      && op.kind == kind && op.args == [Iter([x, y, z])] && op.children == [there]
      && there.kind == "translate" && there.args == [Iter([Negate(xc), Negate(yc), Negate(zc)])]
      && there.children == [n]
      && Depth(r) == Depth(n) + 3
  {
    var there := T(n, Negate(xc), Negate(yc), Negate(zc), map[], com);
    var op := TransformationNew(kind, Single(there), [Iter([x, y, z])], kwargs);
    TranslateNumeric(n, Negate(xc), Negate(yc), Negate(zc), com);
    TransformationShape(kind, there, [Iter([x, y, z])], kwargs);
    TranslateNumeric(op, xc, yc, zc, com);
  }

  lemma PivotedUnfold(kind: string, n: Node, x: Arg, y: Arg, z: Arg, xc: Arg, yc: Arg, zc: Arg,
                      kwargs: map<string, Arg>, com: Node -> Vector)
    requires (kind == "rotate" || kind == "mirror") && Numeric(xc) && Numeric(yc) && Numeric(zc)
    requires !AllZero(xc, yc, zc)
    ensures Pivoted(kind, n, x, y, z, xc, yc, zc, kwargs, com)
      == T(TransformationNew(kind, Single(T(n, Negate(xc), Negate(yc), Negate(zc), map[], com)), [Iter([x, y, z])], kwargs),
           xc, yc, zc, map[], com)
  {
  }

  /** Without clone mode a translate is flat exactly when the node is. */
  lemma TranslateIs2D(n: Node, x: Arg, y: Arg, z: Arg, kwargs: map<string, Arg>, com: Node -> Vector)
    requires !x.Iter? && !y.Iter? && !z.Iter? && !Cloning(kwargs)
    ensures Is2D(T(n, x, y, z, kwargs, com)) <==> Is2D(n)
  {
    if !AllZero(x, y, z) {
      TranslateAxes(n, x, y, z, kwargs, com);
      TransformationIs2D(T(n, x, y, z, kwargs, com));
    }
  }

  /** Clone mode makes a union, which `is_2d` never counts as flat. */
  lemma CloneNot2D(kind: string, children: Children, args: seq<Arg>, kwargs: map<string, Arg>)
    requires Cloning(kwargs)
    ensures !Is2D(TransformationNew(kind, children, args, kwargs))
  {
  }

  // ---------------------------------------------------------------------
  // Axis shorthands: `tx(x, **kwargs)` is `t(x=x, **kwargs)`, and so on
  // ---------------------------------------------------------------------

  /** What the builder binds to `x`, `y`, `z` and the rest it forwards. */
  predicate PlainAxes(kw: map<string, Arg>)
  {
    !Param(kw, "x", Int(0)).Iter? && !Param(kw, "y", Int(0)).Iter? && !Param(kw, "z", Int(0)).Iter?
  }

  predicate NumericPivots(kw: map<string, Arg>)
  {
    Numeric(Param(kw, "xc", Int(0))) && Numeric(Param(kw, "yc", Int(0))) && Numeric(Param(kw, "zc", Int(0)))
  }

  /** `r` reads its pivot only when some angle is not zero. */
  predicate RotatePivots(kw: map<string, Arg>)
  {
    !AllZero(Param(kw, "x", Int(0)), Param(kw, "y", Int(0)), Param(kw, "z", Int(0))) ==> NumericPivots(kw)
  }

  /** `t(**kw)`: keyword arguments bound to the parameters or forwarded. */
  function TKw(n: Node, kw: map<string, Arg>, com: Node -> Vector): (r: Node)
    requires PlainAxes(kw)
    ensures AllZero(Param(kw, "x", Int(0)), Param(kw, "y", Int(0)), Param(kw, "z", Int(0))) ==> r == n
    ensures !AllZero(Param(kw, "x", Int(0)), Param(kw, "y", Int(0)), Param(kw, "z", Int(0))) ==> Depth(r) > Depth(n)
  {
    T(n, Param(kw, "x", Int(0)), Param(kw, "y", Int(0)), Param(kw, "z", Int(0)), kw - {"x", "y", "z"}, com)
  }

  /** `r(**kw)`. */
  function RKw(n: Node, kw: map<string, Arg>, com: Node -> Vector): (r: Node)
    requires RotatePivots(kw)
    ensures AllZero(Param(kw, "x", Int(0)), Param(kw, "y", Int(0)), Param(kw, "z", Int(0))) ==> r == n
    ensures !AllZero(Param(kw, "x", Int(0)), Param(kw, "y", Int(0)), Param(kw, "z", Int(0))) ==> Depth(r) > Depth(n)
  {
    R(n, Param(kw, "x", Int(0)), Param(kw, "y", Int(0)), Param(kw, "z", Int(0)),
      Param(kw, "xc", Int(0)), Param(kw, "yc", Int(0)), Param(kw, "zc", Int(0)),
      kw - {"x", "y", "z", "xc", "yc", "zc"}, com)
  }

  /** `m(**kw)`. */
  function MKw(n: Node, kw: map<string, Arg>, com: Node -> Vector): (r: Node)
    requires NumericPivots(kw)
    ensures Depth(r) > Depth(n)
  {
    M(n, Param(kw, "x", Int(0)), Param(kw, "y", Int(0)), Param(kw, "z", Int(0)),
      Param(kw, "xc", Int(0)), Param(kw, "yc", Int(0)), Param(kw, "zc", Int(0)),
      kw - {"x", "y", "z", "xc", "yc", "zc"}, com)
  }

  /**
   * A keyword given twice is a `TypeError`; the shorthands require it is
   * not. A shorthand moves or turns the node when its own value is not
   * zero, and returns the node when that value is zero and no other axis
   * was forwarded.
   */
  function Tx(n: Node, x: Arg, kw: map<string, Arg>, com: Node -> Vector): (r: Node)
    requires "x" !in kw && PlainAxes(kw["x" := x])
    ensures !IsZero(x) ==> Depth(r) > Depth(n)
    ensures IsZero(x) && "y" !in kw && "z" !in kw ==> r == n
  {
    TKw(n, kw["x" := x], com)
  }

  function Ty(n: Node, y: Arg, kw: map<string, Arg>, com: Node -> Vector): (r: Node)
    requires "y" !in kw && PlainAxes(kw["y" := y])
    ensures !IsZero(y) ==> Depth(r) > Depth(n)
    ensures IsZero(y) && "x" !in kw && "z" !in kw ==> r == n
  {
    TKw(n, kw["y" := y], com)
  }

  function Tz(n: Node, z: Arg, kw: map<string, Arg>, com: Node -> Vector): (r: Node)
    requires "z" !in kw && PlainAxes(kw["z" := z])
    ensures !IsZero(z) ==> Depth(r) > Depth(n)
    ensures IsZero(z) && "x" !in kw && "y" !in kw ==> r == n
  {
    TKw(n, kw["z" := z], com)
  }

  function Rx(n: Node, x: Arg, kw: map<string, Arg>, com: Node -> Vector): (r: Node)
    requires "x" !in kw && RotatePivots(kw["x" := x])
    ensures !IsZero(x) ==> Depth(r) > Depth(n)
    ensures IsZero(x) && "y" !in kw && "z" !in kw ==> r == n
  {
    RKw(n, kw["x" := x], com)
  }

  function Ry(n: Node, y: Arg, kw: map<string, Arg>, com: Node -> Vector): (r: Node)
    requires "y" !in kw && RotatePivots(kw["y" := y])
    ensures !IsZero(y) ==> Depth(r) > Depth(n)
    ensures IsZero(y) && "x" !in kw && "z" !in kw ==> r == n
  {
    RKw(n, kw["y" := y], com)
  }

  function Rz(n: Node, z: Arg, kw: map<string, Arg>, com: Node -> Vector): (r: Node)
    requires "z" !in kw && RotatePivots(kw["z" := z])
    ensures !IsZero(z) ==> Depth(r) > Depth(n)
    ensures IsZero(z) && "x" !in kw && "y" !in kw ==> r == n
  {
    RKw(n, kw["z" := z], com)
  }

  /** `mx(center)`: the mirror in the plane `x = center`, never elided. */
  function Mx(n: Node, center: Arg, kw: map<string, Arg>, com: Node -> Vector): (r: Node)
    requires "x" !in kw && "xc" !in kw && NumericPivots(kw["xc" := center])
    ensures Depth(r) > Depth(n)
  {
    MKw(n, kw["x" := Int(1)]["xc" := center], com)
  }

  function My(n: Node, center: Arg, kw: map<string, Arg>, com: Node -> Vector): (r: Node)
    requires "y" !in kw && "yc" !in kw && NumericPivots(kw["yc" := center])
    ensures Depth(r) > Depth(n)
  {
    MKw(n, kw["y" := Int(1)]["yc" := center], com)
  }

  function Mz(n: Node, center: Arg, kw: map<string, Arg>, com: Node -> Vector): (r: Node)
    requires "z" !in kw && "zc" !in kw && NumericPivots(kw["zc" := center])
    ensures Depth(r) > Depth(n)
  {
    MKw(n, kw["z" := Int(1)]["zc" := center], com)
  }

  /** `tx`, `ty`, `tz` move along one axis only, and a zero move is no move. */
  lemma TranslateShorthands(n: Node, v: Arg, com: Node -> Vector)
    requires !v.Iter?
    ensures IsZero(v) ==> Tx(n, v, map[], com) == n && Ty(n, v, map[], com) == n && Tz(n, v, map[], com) == n
    ensures !IsZero(v) ==>
      var c := com(n);
      Tx(n, v, map[], com) == Init(Transformation, "translate", Single(n), [Iter([Axis(v, c.x), Int(0), Int(0)])], map[])
      && Ty(n, v, map[], com) == Init(Transformation, "translate", Single(n), [Iter([Int(0), Axis(v, c.y), Int(0)])], map[])
      && Tz(n, v, map[], com) == Init(Transformation, "translate", Single(n), [Iter([Int(0), Int(0), Axis(v, c.z)])], map[])
  {
    var e: map<string, Arg> := map[];
    assert e["x" := v] - {"x", "y", "z"} == e;
    assert e["y" := v] - {"x", "y", "z"} == e;
    assert e["z" := v] - {"x", "y", "z"} == e;
  }

  /** `rx`, `ry`, `rz` rotate about one axis through the origin. */
  lemma RotateShorthands(n: Node, a: Arg, com: Node -> Vector)
    requires !IsZero(a)
    ensures Rx(n, a, map[], com) == Init(Transformation, "rotate", Single(n), [Iter([a, Int(0), Int(0)])], map[])
    ensures Ry(n, a, map[], com) == Init(Transformation, "rotate", Single(n), [Iter([Int(0), a, Int(0)])], map[])
    ensures Rz(n, a, map[], com) == Init(Transformation, "rotate", Single(n), [Iter([Int(0), Int(0), a])], map[])
  {
    var e: map<string, Arg> := map[];
    assert e["x" := a] - {"x", "y", "z", "xc", "yc", "zc"} == e;
    assert e["y" := a] - {"x", "y", "z", "xc", "yc", "zc"} == e;
    assert e["z" := a] - {"x", "y", "z", "xc", "yc", "zc"} == e;
  }

  /** `mx(0)`: through the origin, a single mirror with normal (1, 0, 0). */
  lemma MirrorThroughOrigin(n: Node, center: Arg, com: Node -> Vector)
    requires Numeric(center) && IsZero(center)
    ensures Mx(n, center, map[], com) == Init(Transformation, "mirror", Single(n), [Iter([Int(1), Int(0), Int(0)])], map[])
  {
    MirrorUnfold(n, center, com);
    var e: map<string, Arg> := map[];
    assert !Cloning(e);
  }

  /** `mx(center)` for another centre: the mirror sandwiched between translates by -center and center. */
  lemma MirrorAboutCenter(n: Node, center: Arg, com: Node -> Vector)
    requires Numeric(center) && !IsZero(center)
    ensures var there := T(n, Negate(center), Int(0), Int(0), map[], com);
      Mx(n, center, map[], com)
        == T(Init(Transformation, "mirror", Single(there), [Iter([Int(1), Int(0), Int(0)])], map[]), center, Int(0), Int(0), map[], com)
  {
    MirrorUnfold(n, center, com);
    var e: map<string, Arg> := map[];
    assert !Cloning(e);
    PivotedUnfold("mirror", n, Int(1), Int(0), Int(0), center, Int(0), Int(0), e, com);
  }

  /** `mx(center)` with no other keywords is the pivoted mirror with normal (1, 0, 0). */
  lemma MirrorUnfold(n: Node, center: Arg, com: Node -> Vector)
    requires Numeric(center)
    ensures Mx(n, center, map[], com) == Pivoted("mirror", n, Int(1), Int(0), Int(0), center, Int(0), Int(0), map[], com)
  {
    var e: map<string, Arg> := map[];
    var kw := e["x" := Int(1)]["xc" := center];
    assert kw.Keys == {"x", "xc"};
    assert Param(kw, "x", Int(0)) == Int(1) && Param(kw, "xc", Int(0)) == center;
    assert Param(kw, "y", Int(0)) == Int(0) && Param(kw, "z", Int(0)) == Int(0);
    assert Param(kw, "yc", Int(0)) == Int(0) && Param(kw, "zc", Int(0)) == Int(0);
    assert kw - {"x", "y", "z", "xc", "yc", "zc"} == e;
  }

  /** `ty(10, clone=True)` is the union of the node with `ty(10)`. */
  lemma ClonedShorthand(n: Node, y: Arg, com: Node -> Vector)
    requires y == Int(10)
    ensures Ty(n, y, map["clone" := Bool(true)], com) == Union(n, [Ty(n, y, map[], com)])
  {
    var e: map<string, Arg> := map[];
    var kw := e["clone" := Bool(true)];
    assert "x" != "clone" && "y" != "clone" && "z" != "clone" by {
      assert |"x"| != |"clone"|;
    }
    var args := [Iter([Int(0), y, Int(0)])];
    AlongY(n, y, kw, com);
    AlongY(n, y, e, com);
    assert kw - {"clone"} == e;
    CloneIsUnion("translate", n, args, kw);
  }

  /** `ty(y, **kw)` for a plain number `y` and keywords other than the axes. */
  lemma AlongY(n: Node, y: Arg, kw: map<string, Arg>, com: Node -> Vector)
    requires "x" !in kw && "y" !in kw && "z" !in kw
    requires Numeric(y) && !IsZero(y)
    ensures PlainAxes(kw["y" := y])
    ensures Ty(n, y, kw, com) == TransformationNew("translate", Single(n), [Iter([Int(0), y, Int(0)])], kw)
  {
    assert kw["y" := y] - {"x", "y", "z"} == kw;
    assert Param(kw["y" := y], "x", Int(0)) == Int(0) && Param(kw["y" := y], "z", Int(0)) == Int(0);
  }

  // ---------------------------------------------------------------------
  // Extrusion
  // ---------------------------------------------------------------------

  /** An extrusion is never flat, cloned or not, and lies above the node it extrudes. */
  function LinearExtrude(n: Node, args: seq<Arg>, kwargs: map<string, Arg>): (r: Node)
    ensures !Is2D(r) && Depth(r) > Depth(n)
  {
    Extrusion("linear_extrude", n, args, kwargs);
    TransformationNew("linear_extrude", Single(n), args, kwargs)
  }

  /** `extrude` is another name for `linear_extrude`. */
  function Extrude(n: Node, args: seq<Arg>, kwargs: map<string, Arg>): (r: Node)
    ensures !Is2D(r) && Depth(r) > Depth(n)
  {
    LinearExtrude(n, args, kwargs)
  }

  function RotateExtrude(n: Node, args: seq<Arg>, kwargs: map<string, Arg>): (r: Node)
    ensures !Is2D(r) && Depth(r) > Depth(n)
  {
    Extrusion("rotate_extrude", n, args, kwargs);
    TransformationNew("rotate_extrude", Single(n), args, kwargs)
  }

  lemma Extrusion(kind: string, n: Node, args: seq<Arg>, kwargs: map<string, Arg>)
    requires kind == "linear_extrude" || kind == "rotate_extrude"
    ensures var r := TransformationNew(kind, Single(n), args, kwargs);
      !Is2D(r) && Depth(r) > Depth(n)
  {
    ContainsDeeper(kind, n, args, kwargs);
    assert !Is2DKind("union");
  }

  // ---------------------------------------------------------------------
  // Set operations
  // ---------------------------------------------------------------------

  /** A difference lies above both operands and is not flat, even of flat operands. */
  function Difference(a: Node, b: Node): (r: Node)
    ensures Depth(r) > Depth(a) && Depth(r) > Depth(b) && !Is2D(r)
  {
    NotFlatKinds();
    var r := Init(Plain, "difference", Many([a, b]), [], map[]);
    assert a in r.children && b in r.children;
    r
  }

  /** The kinds of the set operations and the wrappers that `is_2d` does not list. */
  lemma NotFlatKinds()
    ensures !Is2DKind("difference") && !Is2DKind("union") && !Is2DKind("color") && !Is2DKind("render")
    ensures !Is2DKind("if")
  {
    assert "difference"[0] != "projection"[0];
    assert "render"[0] != "offset"[0] && "render"[0] != "square"[0] && "render"[0] != "circle"[0];
  }

  /**
   * A union keeps every operand that does not collapse into it, and none
   * of its children is a union still carrying its default label.
   */
  function Union(a: Node, others: seq<Node>): (r: Node)
    ensures r.cls == Distributive && r.kind == "union"
    ensures forall c :: c in r.children ==> !Collapsible(c, {"union"})
    ensures forall c :: c in [a] + others && !Collapsible(c, {"union"}) ==> c in r.children
  {
    LeavesKeepAll([a] + others, {"union"});
    DistributiveNew("union", [a] + others, [], map[], None)
  }

  function Intersection(a: Node, others: seq<Node>): (r: Node)
    ensures r.cls == Distributive && r.kind == "intersection"
    ensures forall c :: c in r.children ==> !Collapsible(c, {"intersection"})
    ensures forall c :: c in [a] + others && !Collapsible(c, {"intersection"}) ==> c in r.children
  {
    LeavesKeepAll([a] + others, {"intersection"});
    DistributiveNew("intersection", [a] + others, [], map[], None)
  }

  /** A hull also absorbs the unions below it. */
  function Hull(a: Node, others: seq<Node>): (r: Node)
    ensures r.cls == Distributive && r.kind == "hull"
    ensures forall c :: c in r.children ==> !Collapsible(c, {"union", "hull"})
    ensures forall c :: c in [a] + others && !Collapsible(c, {"union", "hull"}) ==> c in r.children
  {
    LeavesKeepAll([a] + others, {"union", "hull"});
    DistributiveNew("hull", [a] + others, [], map[], Some({"union", "hull"}))
  }

  /** A difference keeps its operands in order, one level above both. */
  lemma DifferenceShape(a: Node, b: Node)
    ensures var d := Difference(a, b);
      d.children == [a, b] && HasLabel(d, "difference")
      && Depth(d) > Depth(a) && Depth(d) > Depth(b)
      && (Depth(d) == Depth(a) + 1 || Depth(d) == Depth(b) + 1)
  {
    DepthAttained(Difference(a, b));
  }

  /** A union of operands none of which collapses lists them last first. */
  lemma UnionOrder(a: Node, others: seq<Node>)
    requires forall c :: c in [a] + others ==> !Collapsible(c, {"union"})
    ensures Union(a, others).children == Reversed([a] + others)
  {
    LeavesReversed([a] + others, {"union"});
  }

  /** Two operands, the first collapsed and the second kept. */
  lemma AbsorbFirst(u: Node, c: Node, toCollapse: set<string>)
    requires Collapsible(u, toCollapse) && !Collapsible(c, toCollapse)
    ensures Leaves([u, c], toCollapse) == [c] + Leaves(u.children, toCollapse)
  {
    LeavesLast([u, c], toCollapse, c, [u]);
    LeavesLast([u], toCollapse, u, []);
  }

  /** The children of a union of two operands that do not collapse. */
  lemma PairUnion(a: Node, b: Node)
    requires !Collapsible(a, {"union"}) && !Collapsible(b, {"union"})
    ensures Union(a, [b]).children == [b, a]
  {
    assert [a] + [b] == [a, b];
    LeavesReversed([a, b], {"union"});
  }

  /** A union of a plain union is one flat union. */
  lemma UnionOfUnion(a: Node, b: Node, c: Node)
    requires !Collapsible(a, {"union"}) && !Collapsible(b, {"union"}) && !Collapsible(c, {"union"})
    ensures Union(Union(a, [b]), [c]).children == [c, a, b]
  {
    var u := Union(a, [b]);
    PairUnion(a, b);
    assert Collapsible(u, {"union"});
    assert [u] + [c] == [u, c];
    AbsorbFirst(u, c, {"union"});
    LeavesReversed([b, a], {"union"});
  }

  /** A union that was relabelled is kept whole inside another union. */
  lemma LabelledUnionKept(a: Node, b: Node, c: Node, labelName: string)
    requires labelName != "union" && !Collapsible(c, {"union"})
    ensures var u := Label(Union(a, [b]), labelName);
      Union(u, [c]).children == [c, u]
  {
    var u := Label(Union(a, [b]), labelName);
    assert !Collapsible(u, {"union"});
    assert [u] + [c] == [u, c];
    LeavesReversed([u, c], {"union"});
  }

  /** A hull absorbs unions as well as hulls. */
  lemma HullAbsorbsUnion(a: Node, b: Node, c: Node)
    requires !Collapsible(a, {"union", "hull"}) && !Collapsible(b, {"union", "hull"})
    requires !Collapsible(c, {"union", "hull"})
    ensures Hull(Union(a, [b]), [c]).children == [c, a, b]
  {
    var u := Union(a, [b]);
    assert !Collapsible(a, {"union"}) && !Collapsible(b, {"union"});
    PairUnion(a, b);
    assert Collapsible(u, {"union", "hull"});
    assert [u] + [c] == [u, c];
    AbsorbFirst(u, c, {"union", "hull"});
    LeavesReversed([b, a], {"union", "hull"});
  }

  /** An intersection absorbs only intersections: a union stays whole. */
  lemma IntersectionKeepsUnion(a: Node, b: Node, c: Node)
    requires !Collapsible(c, {"intersection"})
    ensures var u := Union(a, [b]);
      Intersection(u, [c]).children == [c, u]
  {
    var u := Union(a, [b]);
    assert !Collapsible(u, {"intersection"});
    assert [u] + [c] == [u, c];
    LeavesReversed([u, c], {"intersection"});
  }

  // ---------------------------------------------------------------------
  // Modifiers and wrappers
  // ---------------------------------------------------------------------

  /**
   * `offset`, `projection`, `color`, `render`: a plain node one level over
   * `n`, flat exactly when its kind is, whatever its child.
   */
  function Wrap(kind: string, n: Node, args: seq<Arg>, kwargs: map<string, Arg>): (r: Node)
    ensures r.children == [n] && Depth(r) == Depth(n) + 1
    ensures Is2D(r) <==> Is2DKind(kind)
  {
    Init(Plain, kind, Many([n]), args, kwargs)
  }

  /** `offset` and `projection` are flat whatever they wrap. */
  function Offset(n: Node, args: seq<Arg>, kwargs: map<string, Arg>): (r: Node)
    ensures Is2D(r) && Depth(r) == Depth(n) + 1
  {
    Wrap("offset", n, args, kwargs)
  }

  function Projection(n: Node, args: seq<Arg>, kwargs: map<string, Arg>): (r: Node)
    ensures Is2D(r) && Depth(r) == Depth(n) + 1
  {
    Wrap("projection", n, args, kwargs)
  }

  /** Colouring or rendering a flat node does not count as flat. */
  function Color(n: Node, args: seq<Arg>, kwargs: map<string, Arg>): (r: Node)
    ensures !Is2D(r) && Depth(r) == Depth(n) + 1
  {
    NotFlatKinds();
    Wrap("color", n, args, kwargs)
  }

  function Render(n: Node, args: seq<Arg>, kwargs: map<string, Arg>): (r: Node)
    ensures !Is2D(r) && Depth(r) == Depth(n) + 1
  {
    NotFlatKinds();
    Wrap("render", n, args, kwargs)
  }

  /** `preview`: an `if($preview)` over `n`, never flat. */
  function Preview(n: Node): (r: Node)
    ensures !Is2D(r) && Depth(r) == Depth(n) + 1
  {
    NotFlatKinds();
    Init(Plain, "if", Many([n]), [Str("$preview")], map[])
  }

  /** `debug`, `root`, `disable`, `background`: their arguments are ignored, and they carry no label. */
  function Modifier(glyph: string, n: Node): (r: Node)
    ensures r.children == [n] && Depth(r) == Depth(n) + 1
    ensures glyph in Glyphs ==> "_label" !in r.kwargs && !Is2D(r)
  {
    Init(Plain, glyph, Many([n]), [], map[])
  }

  function Debug(n: Node): (r: Node)
    ensures r.kind == "#" && "_label" !in r.kwargs && Depth(r) == Depth(n) + 1
  {
    Modifier("#", n)
  }

  function Root(n: Node): (r: Node)
    ensures r.kind == "!" && "_label" !in r.kwargs && Depth(r) == Depth(n) + 1
  {
    Modifier("!", n)
  }

  function Disable(n: Node): (r: Node)
    ensures r.kind == "*" && "_label" !in r.kwargs && Depth(r) == Depth(n) + 1
  {
    Modifier("*", n)
  }

  function Background(n: Node): (r: Node)
    ensures r.kind == "%" && "_label" !in r.kwargs && Depth(r) == Depth(n) + 1
  {
    Modifier("%", n)
  }

  /** A modifier writes its glyph in front of its subtree, with no label and no brackets. */
  lemma ModifierText(glyph: string, n: Node)
    requires glyph in Glyphs && WellFormed(n)
    ensures "_label" !in Modifier(glyph, n).kwargs
    ensures ToString(n).Ok? && ToString(Modifier(glyph, n)) == Ok(glyph + ToString(n).value)
  {
    var m := Modifier(glyph, n);
    assert m.kwargs == map[];
    assert WellFormed(m);
    Shape(m);
    assert HeadText(m) == Ok(glyph);
  }

  /** `preview` writes its child inside `if($preview)`. */
  lemma PreviewText(n: Node)
    requires WellFormed(n)
    ensures ToString(n).Ok? && ToString(Preview(n)) == Ok("if($preview)" + ToString(n).value)
  {
    var p := Preview(n);
    PreviewFields(n);
    PreviewHead(p);
    assert AllWellFormed(p.children) by {
      assert p.children[0] == n;
    }
    Shape(p);
  }

  lemma PreviewFields(n: Node)
    ensures var p := Preview(n);
      p.kind == "if" && p.args == [Str("$preview")] && p.kwargs == map["_label" := Str("if")]
      && p.children == [n]
  {
    assert "if" !in Glyphs;
  }

  /** A node whose one keyword argument is its label writes no keyword arguments. */
  lemma OnlyLabel(kw: map<string, Arg>, labelName: string)
    requires kw == map["_label" := Str(labelName)]
    ensures VisibleKeys(kw) == [] && KwargsSerializable(kw)
  {
    var sk := SortedKeys(kw.Keys);
    assert kw.Keys == {"_label"};
    assert |sk| == 1 && sk[0] in sk;
    assert sk == ["_label"];
    assert !Visible("_label") by {
      assert "_label"[0] == '_';
    }
    assert sk[1..] == [];
    assert VisibleKeys(kw) == FilterKeys(sk[1..], Visible);
  }

  lemma PreviewHead(p: Node)
    requires p.kind == "if" && p.args == [Str("$preview")] && p.kwargs == map["_label" := Str("if")]
    ensures WellFormed(p) <==> AllWellFormed(p.children)
    ensures HeadText(p) == Ok("if($preview)")
  {
    OnlyLabel(p.kwargs, "if");
    assert KwargTexts([], p.kwargs) == Ok([]);
    assert ArgText(Str("$preview")) == Ok("$preview");
    assert p.args[1..] == [] && ArgTexts([]) == Ok([]);
    assert ArgTexts(p.args) == Ok(["$preview"] + []);
    assert ["$preview"] + [] == ["$preview"];
    assert KwargsSerializable(p.kwargs);
    assert AllSerializable(p.args) by {
      assert p.args[0] == Str("$preview");
    }
    IfPreview();
  }

  lemma IfPreview()
    ensures Head("if", ["$preview"]) == "if($preview)"
  {
    assert Join(",", ["$preview"]) == "$preview";
    assert "if" !in Glyphs;
    assert "if" + "(" + "$preview" + ")" == "if($preview)";
  }

  // ---------------------------------------------------------------------
  // label
  // ---------------------------------------------------------------------

  /**
   * `label(l)`: the same class rebuilt over the same children with `_label`
   * set. On any node built by the constructors (which never keep `clone`)
   * the label search then finds it under `l`, with its kind and class kept.
   */
  function Label(n: Node, labelName: string): (r: Node)
    ensures "clone" !in n.kwargs ==> HasLabel(r, labelName) && r.kind == n.kind && r.cls == n.cls
  {
    var kw := n.kwargs["_label" := Str(labelName)];
    match n.cls
    case Distributive => DistributiveNew(n.kind, n.children, n.args, kw, None)
    case Transformation => TransformationNew(n.kind, Many(n.children), n.args, kw)
    case Plain => Init(Plain, n.kind, Many(n.children), n.args, kw)
  }

  /** A plain node or a transformation only changes its label. */
  lemma LabelKeeps(n: Node, labelName: string)
    requires "clone" !in n.kwargs && n.cls != Distributive
    ensures Label(n, labelName) == n.(kwargs := n.kwargs["_label" := Str(labelName)])
  {
    var kw := n.kwargs["_label" := Str(labelName)];
    assert kw - {"clone"} == kw;
  }

  /** Relabelling does not change the OpenSCAD text, so not the id either. */
  lemma LabelText(n: Node, labelName: string, digest: string -> string)
    requires "clone" !in n.kwargs && n.cls != Distributive
    ensures ToString(Label(n, labelName)) == ToString(n)
    ensures Id(Label(n, labelName), digest) == Id(n, digest)
  {
    LabelKeeps(n, labelName);
    HiddenKey(n, "_label", Str(labelName));
  }

  /**
   * A distributive node is rebuilt through its constructor, which pops
   * the children from the end: relabelling reverses their order.
   */
  lemma LabelReverses(n: Node, labelName: string)
    requires n.cls == Distributive && forall c :: c in n.children ==> !Collapsible(c, {n.kind})
    ensures Label(n, labelName).children == Reversed(n.children)
    ensures Label(n, labelName).kind == n.kind && Label(n, labelName).args == n.args
  {
    LeavesReversed(n.children, {n.kind});
  }

  /** A relabelled node collapses into a parent of its kind only under its own kind as label. */
  lemma LabelCollapse(n: Node, labelName: string)
    requires "clone" !in n.kwargs
    ensures Collapsible(Label(n, labelName), {n.kind}) <==> labelName == n.kind
  {
  }
}
