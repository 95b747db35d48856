/**
 * The primitive bodies: cubes, cylinders and the generic named bodies
 * (sphere, polygon, polyhedron, ...), each with an origin, a bounding box
 * and its OpenSCAD text.
 */
module Body {
  import opened Wrappers
  import opened Strings
  import opened Geometry
  import opened Util

  /** The parameters a cylinder is built from; `None` is a parameter that was not given. */
  datatype CylinderParams = CylinderParams(
    h: real,
    d: Option<real>, r: Option<real>,
    d1: Option<real>, d2: Option<real>,
    r1: Option<real>, r2: Option<real>,
    fn: Option<real>)

  datatype Body =
    | Cube(x: real, y: real, z: real)
    | Cylinder(p: CylinderParams, labelName: Option<string>)
    | Generic(name: string, args: seq<Value>, kwargs: map<string, Value>)
    | Group(child: Body, labelName: Option<string>)

  const Undefined := "All parameters are undefined"

  // ---------------------------------------------------------------------
  // Cylinder radius and diameter resolution
  // ---------------------------------------------------------------------

  /** The bottom radius: `r1`, else `d1 / 2`, else `r`, else `d / 2`. */
  function R1(p: CylinderParams): (res: Result<real, string>)
    ensures res.Ok? <==> (p.r1.Some? || p.d1.Some? || p.r.Some? || p.d.Some?)
  {
    if p.r1.Some? then Ok(p.r1.value)
    else if p.d1.Some? then Ok(p.d1.value / 2.0)
    else if p.r.Some? then Ok(p.r.value)
    else if p.d.Some? then Ok(p.d.value / 2.0)
    else Err(Undefined)
  }

  /** The top radius: the same chain over `r2` and `d2`. */
  function R2(p: CylinderParams): (res: Result<real, string>)
    ensures res.Ok? <==> (p.r2.Some? || p.d2.Some? || p.r.Some? || p.d.Some?)
  {
    if p.r2.Some? then Ok(p.r2.value)
    else if p.d2.Some? then Ok(p.d2.value / 2.0)
    else if p.r.Some? then Ok(p.r.value)
    else if p.d.Some? then Ok(p.d.value / 2.0)
    else Err(Undefined)
  }

  /** The bottom diameter: `d1`, else `r1 * 2`, else `r * 2`, else `d`. */
  function D1(p: CylinderParams): (res: Result<real, string>)
    ensures res.Ok? <==> R1(p).Ok?
  {
    if p.d1.Some? then Ok(p.d1.value)
    else if p.r1.Some? then Ok(p.r1.value * 2.0)
    else if p.r.Some? then Ok(p.r.value * 2.0)
    else if p.d.Some? then Ok(p.d.value)
    else Err(Undefined)
  }

  /** The top diameter: the same chain over `d2` and `r2`. */
  function D2(p: CylinderParams): (res: Result<real, string>)
    ensures res.Ok? <==> R2(p).Ok?
  {
    if p.d2.Some? then Ok(p.d2.value)
    else if p.r2.Some? then Ok(p.r2.value * 2.0)
    else if p.r.Some? then Ok(p.r.value * 2.0)
    else if p.d.Some? then Ok(p.d.value)
    else Err(Undefined)
  }

  /** Both radii resolve: the condition under which a cylinder can be built. */
  predicate Resolvable(p: CylinderParams)
  {
    R1(p).Ok? && R2(p).Ok?
  }

  function Max(a: real, b: real): (m: real)
    ensures m >= a && m >= b && (m == a || m == b)
  {
    if a >= b then a else b
  }

  function Min(a: real, b: real): (m: real)
    ensures m <= a && m <= b && (m == a || m == b)
  {
    if a <= b then a else b
  }

  /** `R`: the larger radius, the one the bounding box uses. */
  function BigRadius(p: CylinderParams): (v: real)
    requires Resolvable(p)
    ensures v >= R1(p).value && v >= R2(p).value
    ensures v == R1(p).value || v == R2(p).value
  {
    Max(R1(p).value, R2(p).value)
  }

  /** `r`: the smaller radius. */
  function SmallRadius(p: CylinderParams): (v: real)
    requires Resolvable(p)
    ensures v <= R1(p).value && v <= R2(p).value
    ensures v == R1(p).value || v == R2(p).value
  {
    Min(R1(p).value, R2(p).value)
  }

  /** `D`: the larger diameter. */
  function BigDiameter(p: CylinderParams): (v: real)
    requires Resolvable(p)
    ensures v >= D1(p).value && v >= D2(p).value
    ensures v == D1(p).value || v == D2(p).value
  {
    Max(D1(p).value, D2(p).value)
  }

  /** `d`: the smaller diameter. */
  function SmallDiameter(p: CylinderParams): (v: real)
    requires Resolvable(p)
    ensures v <= D1(p).value && v <= D2(p).value
    ensures v == D1(p).value || v == D2(p).value
  {
    Min(D1(p).value, D2(p).value)
  }

  /**
   * A resolved diameter is twice the resolved radius, except when both the
   * radius and the diameter of that end were given explicitly.
   */
  lemma DiameterIsTwiceRadius(p: CylinderParams)
    ensures R1(p).Ok? && !(p.r1.Some? && p.d1.Some?) ==> D1(p).value == 2.0 * R1(p).value
    ensures R2(p).Ok? && !(p.r2.Some? && p.d2.Some?) ==> D2(p).value == 2.0 * R2(p).value
  {
  }

  /** With no explicit radius-and-diameter clash, `D == 2 R` and `d == 2 r`. */
  lemma BigDiameterIsTwiceBigRadius(p: CylinderParams)
    requires Resolvable(p)
    requires !(p.r1.Some? && p.d1.Some?) && !(p.r2.Some? && p.d2.Some?)
    ensures BigDiameter(p) == 2.0 * BigRadius(p)
    ensures SmallDiameter(p) == 2.0 * SmallRadius(p)
  {
    DiameterIsTwiceRadius(p);
  }

  /** An end's own parameters win over the shared ones: `r1` over `d1` over `r` over `d`. */
  lemma RadiusPrecedence(p: CylinderParams)
    ensures p.r1.Some? ==> R1(p) == Ok(p.r1.value)
    ensures p.r1.None? && p.d1.Some? ==> R1(p) == Ok(p.d1.value / 2.0)
    ensures p.r1.None? && p.d1.None? && p.r.Some? ==> R1(p) == Ok(p.r.value)
    ensures p.r1.None? && p.d1.None? && p.r.None? && p.d.Some? ==> R1(p) == Ok(p.d.value / 2.0)
  {
  }

  // ---------------------------------------------------------------------
  // Constructors
  // ---------------------------------------------------------------------

  /** The default cylinder parameters: height 0, nothing else given. */
  const NoCylinderParams := CylinderParams(0.0, None, None, None, None, None, None, None)

  /**
   * `Cylinder(...)`: construction reads the larger radius for the bounding
   * box, so it fails exactly when one of the two radii does not resolve.
   */
  function MakeCylinder(p: CylinderParams, labelName: Option<string>): (res: Result<Body, string>)
    ensures res.Ok? <==> Resolvable(p)
    ensures res.Ok? ==> res.value == Cylinder(p, labelName)
    ensures res.Err? ==> res.error == Undefined
  {
    if R1(p).Err? then Err(R1(p).error)
    else if R2(p).Err? then Err(R2(p).error)
    else Ok(Cylinder(p, labelName))
  }

  /** `cylinder(...)`: builds the same cylinder; the chamfer options are accepted and ignored. */
  function CylinderBuilder(p: CylinderParams, chamferTop: Option<real>, chamferBottom: Option<real>,
                           labelName: Option<string>): (res: Result<Body, string>)
    ensures res.Ok? <==> Resolvable(p)
    ensures res.Ok? ==> res.value.Cylinder? && res.value.p == p && res.value.labelName == labelName
    ensures res.Err? ==> res.error == Undefined
  {
    MakeCylinder(p, labelName)
  }

  /** The chamfer options make no difference to the cylinder built. */
  lemma ChamfersIgnored(p: CylinderParams, top: Option<real>, bottom: Option<real>, labelName: Option<string>)
    ensures CylinderBuilder(p, top, bottom, labelName) == CylinderBuilder(p, None, None, labelName)
    ensures CylinderBuilder(p, top, bottom, labelName).Ok? <==> Resolvable(p)
  {
  }

  /** `cube(x, y, z)`: a zero (falsy) `y` or `z` becomes `x`. */
  function CubeOf(x: real, y: real, z: real): (b: Body)
    ensures b.Cube? && b.x == x
    ensures b.y == (if y == 0.0 then x else y)
    ensures b.z == (if z == 0.0 then x else z)
  {
    var y' := if y == 0.0 then x else y;
    var z' := if z == 0.0 then x else z;
    Cube(x, y', z')
  }

  /** `cube()` is the unit cube and `cube(a)` the cube of side `a`. */
  lemma CubeDefaults(a: real)
    ensures CubeOf(1.0, 0.0, 0.0) == Cube(1.0, 1.0, 1.0)
    ensures CubeOf(a, 0.0, 0.0) == Cube(a, a, a)
  {
  }

  /** `GenericBody(name, *args, label=None, **kwargs)`: the label is dropped. */
  function MakeGeneric(name: string, args: seq<Value>, kwargs: map<string, Value>): (b: Body)
    ensures b.Generic? && b.name == name && b.args == args
    ensures "label" !in b.kwargs
    ensures forall k :: k in kwargs && k != "label" ==> k in b.kwargs && b.kwargs[k] == kwargs[k]
    ensures forall k :: k in b.kwargs ==> k in kwargs
  {
    Generic(name, args, kwargs - {"label"})
  }

  /** `sphere(*args, **kwargs)`. */
  function Sphere(args: seq<Value>, kwargs: map<string, Value>): (b: Body)
    ensures b.Generic? && b.name == "sphere" && b.args == args
    ensures b.kwargs == kwargs - {"label"}
  {
    MakeGeneric("sphere", args, kwargs)
  }

  /** `circle(*args, **kwargs)`. */
  function Circle(args: seq<Value>, kwargs: map<string, Value>): (b: Body)
    ensures b.Generic? && b.name == "circle" && b.args == args
    ensures b.kwargs == kwargs - {"label"}
  {
    MakeGeneric("circle", args, kwargs)
  }

  /** `square(*args, **kwargs)`. */
  function Square(args: seq<Value>, kwargs: map<string, Value>): (b: Body)
    ensures b.Generic? && b.name == "square" && b.args == args
    ensures b.kwargs == kwargs - {"label"}
  {
    MakeGeneric("square", args, kwargs)
  }

  /** A point of a polygon as written: a vector becomes the 2-list `[x, y]`, anything else is kept. */
  function PolygonPoint(q: Value): (r: Value)
    ensures q.Vec? ==> r == List([Num(q.v.x), Num(q.v.y)])
    ensures !q.Vec? ==> r == q
  {
    if q.Vec? then List([Num(q.v.x), Num(q.v.y)]) else q
  }

  /** The points of a polygon as written, in order. */
  function PolygonPoints(points: seq<Value>): (r: seq<Value>)
    ensures |r| == |points|
    ensures forall i :: 0 <= i < |points| ==> r[i] == PolygonPoint(points[i])
  {
    if points == [] then []
    else
      var init := points[..|points| - 1];
      assert forall i :: 0 <= i < |init| ==> init[i] == points[i];
      PolygonPoints(init) + [PolygonPoint(points[|points| - 1])]
  }

  /**
   * The keyword arguments of a call with an optional named parameter:
   * the parameter is added only when it was given (is not `None`).
   */
  function WithOptional(kwargs: map<string, Value>, key: string, v: Value): (r: map<string, Value>)
    ensures v != Null ==> r == kwargs[key := v]
    ensures v == Null ==> r == kwargs
  {
    if v != Null then kwargs[key := v] else kwargs
  }

  /**
   * `polygon(points, paths=None, **kwargs)`. The keyword `paths` binds the
   * named parameter, so the remaining keyword arguments never hold it.
   */
  method Polygon(points: seq<Value>, paths: Value, kwargs: map<string, Value>) returns (b: Body)
    requires "paths" !in kwargs
    ensures b == MakeGeneric("polygon", [List(PolygonPoints(points))], WithOptional(kwargs, "paths", paths))
  {
    var kw := kwargs;
    if paths != Null {
      kw := kw["paths" := paths];
    }
    var tmp: seq<Value> := [];
    for i := 0 to |points|
      invariant tmp == PolygonPoints(points[..i])
    {
      assert points[..i + 1][..i] == points[..i];
      var q := points[i];
      if q.Vec? {
        tmp := tmp + [List([Num(q.v.x), Num(q.v.y)])];
      } else {
        tmp := tmp + [q];
      }
    }
    assert points[..|points|] == points;
    b := MakeGeneric("polygon", [List(tmp)], kw);
  }

  /** `polyhedron(points, faces=None, **kwargs)`. */
  function Polyhedron(points: Value, faces: Value, kwargs: map<string, Value>): (b: Body)
    requires "faces" !in kwargs
    ensures b.Generic? && b.name == "polyhedron" && b.args == [points]
    ensures "faces" in b.kwargs <==> faces != Null
    ensures faces != Null ==> b.kwargs["faces"] == faces
    ensures forall k :: k in kwargs && k != "label" ==> k in b.kwargs && b.kwargs[k] == kwargs[k]
    ensures "label" !in b.kwargs
    ensures b.kwargs == WithOptional(kwargs, "faces", faces) - {"label"}
  {
    MakeGeneric("polyhedron", [points], WithOptional(kwargs, "faces", faces))
  }

  /** `stl_model(filename, convexity=10)`: an `import` of the file. */
  function StlModel(filename: Value, convexity: Value): (b: Body)
    ensures b.Generic? && b.name == "import" && b.args == [filename]
    ensures b.kwargs == map["convexity" := convexity]
  {
    MakeGeneric("import", [filename], map["convexity" := convexity])
  }

  /** `text_model(txt, size=10, halign='left', valign='baseline', **kwargs)`. */
  function TextModel(txt: Value, size: Value, halign: Value, valign: Value, kwargs: map<string, Value>): (b: Body)
    requires "size" !in kwargs && "halign" !in kwargs && "valign" !in kwargs
    ensures b.Generic? && b.name == "text" && b.args == [txt] && "label" !in b.kwargs
    ensures b.kwargs.Keys == (kwargs.Keys - {"label"}) + {"size", "halign", "valign"}
    ensures b.kwargs["size"] == size && b.kwargs["halign"] == halign && b.kwargs["valign"] == valign
    ensures b.kwargs == (kwargs - {"label"})["size" := size]["halign" := halign]["valign" := valign]
  {
    MakeGeneric("text", [txt], kwargs["size" := size]["halign" := halign]["valign" := valign])
  }

  // ---------------------------------------------------------------------
  // Geometry of a body
  // ---------------------------------------------------------------------

  /** A body that construction accepts: every cylinder in it has resolvable radii. */
  predicate Valid(b: Body)
  {
    match b
    case Cylinder(p, _) => Resolvable(p)
    case Group(c, _) => Valid(c)
    case _ => true
  }

  /** The origin a body records at construction. */
  function OriginOf(b: Body): Vector
  {
    match b
    case Cube(x, y, z) => Vector(x / 2.0, y / 2.0, z / 2.0)
    case Cylinder(p, _) => Vector(0.0, 0.0, p.h / 2.0)
    case Generic(_, _, _) => Origin
    case Group(c, _) => OriginOf(c)
  }

  /** The bounding box a body records at construction. */
  function Bounds(b: Body): BBox
    requires Valid(b)
  {
    match b
    case Cube(x, y, z) => Box(Origin, Vector(x, y, z))
    case Cylinder(p, _) =>
      var big := BigRadius(p);
      Box(Vector(-big, -big, 0.0), Vector(big, big, p.h))
    case Generic(_, _, _) => Default
    case Group(c, _) => Bounds(c)
  }

  /** A cube's and a cylinder's origin is the centre of its bounding box. */
  lemma OriginIsCenter(b: Body)
    requires Valid(b) && (b.Cube? || b.Cylinder?)
    ensures Bounds(b).Box? && OriginOf(b) == Center(Bounds(b))
  {
  }

  /** With sizes that are not negative the box is well formed. */
  lemma BoundsOrdered(b: Body)
    requires Valid(b) && (b.Cube? || b.Cylinder?)
    requires b.Cube? ==> b.x >= 0.0 && b.y >= 0.0 && b.z >= 0.0
    requires b.Cylinder? ==> b.p.h >= 0.0 && BigRadius(b.p) >= 0.0
    ensures Bounds(b).Box? && Ordered(Bounds(b))
  {
  }

  /** The box of a cylinder holds both of its ends. */
  lemma CylinderBoundsHoldEnds(p: CylinderParams, labelName: Option<string>)
    requires Resolvable(p)
    ensures var bb := Bounds(Cylinder(p, labelName));
      bb.Box? && bb.hi.x >= R1(p).value && bb.hi.x >= R2(p).value
        && bb.lo.x <= -R1(p).value && bb.lo.x <= -R2(p).value
        && bb.lo.z == 0.0 && bb.hi.z == p.h
  {
  }

  /** A cylinder of diameter 10 and height 20 spans (-5,-5,0) to (5,5,20). */
  lemma CylinderExampleBounds()
    ensures var p := NoCylinderParams.(d := Some(10.0), h := 20.0);
      Resolvable(p) && Bounds(Cylinder(p, None)) == Box(Vector(-5.0, -5.0, 0.0), Vector(5.0, 5.0, 20.0))
  {
  }

  // ---------------------------------------------------------------------
  // OpenSCAD text
  // ---------------------------------------------------------------------

  function OptionValue(o: Option<real>): (v: Value)
    ensures o.None? <==> v == Null
  {
    if o.Some? then Num(o.value) else Null
  }

  /** The keyword arguments a cylinder writes, including those not given (as `None`). */
  function CylinderKwargs(p: CylinderParams): map<string, Value>
  {
    map["d" := OptionValue(p.d), "r" := OptionValue(p.r),
        "r1" := OptionValue(p.r1), "r2" := OptionValue(p.r2),
        "d1" := OptionValue(p.d1), "d2" := OptionValue(p.d2),
        "h" := Num(p.h), "$fn" := OptionValue(p.fn)]
  }

  /** What each key of a cylinder holds. */
  lemma CylinderKwargsAt(p: CylinderParams)
    ensures var kw := CylinderKwargs(p);
      kw["d"] == OptionValue(p.d) && kw["r"] == OptionValue(p.r)
      && kw["r1"] == OptionValue(p.r1) && kw["r2"] == OptionValue(p.r2)
      && kw["d1"] == OptionValue(p.d1) && kw["d2"] == OptionValue(p.d2)
      && kw["h"] == Num(p.h) && kw["$fn"] == OptionValue(p.fn)
  {
  }

  /** `to_scad()`. */
  function ToScad(b: Body): string
  {
    match b
    case Cube(x, y, z) => "cube(" + ArgumentsLine([List([Num(x), Num(y), Num(z)])], map[]) + ");"
    case Cylinder(p, _) => "cylinder(" + ArgumentsLine([], CylinderKwargs(p)) + ");"
    case Generic(name, args, kwargs) => name + "(" + ArgumentsLine(args, kwargs) + ");"
    case Group(c, _) => ToScad(c)
  }

  /** The order in which a cylinder's keyword arguments are written: `$fn` sorts first. */
  const CylinderKeys := ["$fn", "d", "d1", "d2", "h", "r", "r1", "r2"]

  lemma CylinderKeyOrder(p: CylinderParams)
    ensures SortedKeys(CylinderKwargs(p).Keys) == CylinderKeys
  {
    var ks := CylinderKeys;
    CylinderKeysSorted();
    SortedKeysOfSorted(ks);
    CylinderKeySet(p);
    CylinderKeysElements();
  }

  lemma CylinderKeySet(p: CylinderParams)
    ensures CylinderKwargs(p).Keys == {"$fn", "d", "d1", "d2", "h", "r", "r1", "r2"}
  {
  }

  lemma CylinderKeysElements()
    ensures (set k | k in CylinderKeys) == {"$fn", "d", "d1", "d2", "h", "r", "r1", "r2"}
  {
    CylinderKeysAt();
  }

  lemma CylinderKeysSorted()
    ensures StrictlySorted(CylinderKeys)
  {
    var ks := CylinderKeys;
    assert Less(ks[0], ks[1]) && Less(ks[1], ks[2]) && Less(ks[2], ks[3]) && Less(ks[3], ks[4]);
    assert Less(ks[4], ks[5]) && Less(ks[5], ks[6]) && Less(ks[6], ks[7]);
    StrictlySortedByNeighbours(ks);
  }

  /** Three serialized values joined by commas. */
  lemma JoinThree(a: string, b: string, c: string)
    ensures Join(",", [a, b, c]) == a + "," + b + "," + c
  {
    assert [a, b, c][1..] == [b, c];
    assert [b, c][1..] == [c];
    assert Join(",", [c]) == c;
    assert Join(",", [b, c]) == b + "," + c;
    assert a + "," + (b + "," + c) == a + "," + b + "," + c;
  }

  /** A list argument is its serialized elements, joined by commas, between brackets. */
  lemma ListText(items: seq<Value>, parts: seq<string>, joined: string)
    requires SerializeAll(items) == parts && Join(",", parts) == joined
    ensures SerializeArgument(List(items)) == "[" + joined + "]"
  {
  }

  lemma BracketThree(a: string, b: string, c: string)
    ensures "[" + (a + "," + b + "," + c) + "]" == "[" + a + "," + b + "," + c + "]"
  {
  }

  /** A three-element list is its serialized elements between brackets. */
  lemma ListOfThree(x: real, y: real, z: real)
    ensures SerializeArgument(List([Num(x), Num(y), Num(z)]))
      == "[" + NiceFloat(x) + "," + NiceFloat(y) + "," + NiceFloat(z) + "]"
  {
    var a, b, c := NiceFloat(x), NiceFloat(y), NiceFloat(z);
    NumberTriple(x, y, z);
    JoinThree(a, b, c);
    ListText([Num(x), Num(y), Num(z)], [a, b, c], a + "," + b + "," + c);
    BracketThree(a, b, c);
  }

  /** Three integral numbers form the list `[a,b,c]`. */
  lemma IntegralTriple(a: int, b: int, c: int)
    ensures SerializeArgument(List([Num(a as real), Num(b as real), Num(c as real)]))
      == "[" + IntToString(a) + "," + IntToString(b) + "," + IntToString(c) + "]"
  {
    ListOfThree(a as real, b as real, c as real);
    SerializeIntegral(a);
    SerializeIntegral(b);
    SerializeIntegral(c);
  }

  /** A single positional argument and no keywords: the line is that argument. */
  lemma SingleArgumentLine(v: Value)
    ensures ArgumentsLine([v], map[]) == SerializeArgument(v)
  {
    var outer := SerializeAll([v]);
    assert outer[0] == SerializeArgument(v);
    var none: map<string, Value> := map[];
    assert |SortedKeys(none.Keys)| == 0;
    assert ArgumentChunks([v], none) == outer;
  }

  /** A cube writes its three sides as one list argument: `cube([x,y,z]);`. */
  lemma CubeScad(x: real, y: real, z: real)
    ensures ToScad(Cube(x, y, z)) == "cube(" + SerializeArgument(List([Num(x), Num(y), Num(z)])) + ");"
  {
    CubeScadLine(x, y, z);
    SingleArgumentLine(List([Num(x), Num(y), Num(z)]));
  }

  lemma CubeScadLine(x: real, y: real, z: real)
    ensures ToScad(Cube(x, y, z)) == "cube(" + ArgumentsLine([List([Num(x), Num(y), Num(z)])], map[]) + ");"
  {
  }

  /** A cube with integral sides writes them as integers. */
  lemma CubeScadIntegral(a: int, b: int, c: int)
    ensures ToScad(Cube(a as real, b as real, c as real))
      == "cube(" + ("[" + IntToString(a) + "," + IntToString(b) + "," + IntToString(c) + "]") + ");"
  {
    CubeScad(a as real, b as real, c as real);
    IntegralTriple(a, b, c);
  }

  lemma SmallIntegers()
    ensures IntToString(1) == "1" && IntToString(2) == "2" && IntToString(3) == "3"
    ensures IntToString(10) == "10" && IntToString(20) == "20"
  {
  }

  lemma CubeText(p: string, q: string, r: string)
    requires p == "1" && q == "2" && r == "3"
    ensures "cube(" + ("[" + p + "," + q + "," + r + "]") + ");" == "cube([1,2,3]);"
  {
  }

  /** `Cube(1, 2, 3).to_scad()` is `cube([1,2,3]);`. */
  lemma CubeScadExample(x: real, y: real, z: real)
    requires x == 1.0 && y == 2.0 && z == 3.0
    ensures ToScad(Cube(x, y, z)) == "cube([1,2,3]);"
  {
    SmallIntegers();
    var a, b, c := 1, 2, 3;
    CubeScadIntegral(a, b, c);
    assert Cube(x, y, z) == Cube(a as real, b as real, c as real);
    CubeText(IntToString(a), IntToString(b), IntToString(c));
  }

  /** A cylinder writes its keyword arguments in the order of `CylinderKeys`. */
  lemma CylinderScadLine(p: CylinderParams, labelName: Option<string>)
    ensures ToScad(Cylinder(p, labelName))
      == "cylinder(" + Join(",", KwargChunks(CylinderKeys, CylinderKwargs(p))) + ");"
  {
    CylinderKeyOrder(p);
    KeywordLine(CylinderKwargs(p));
  }

  /** Of a cylinder given only a diameter and a height, only those two are written. */
  lemma DiameterHeightChunks(dv: real, hv: real)
    ensures var p := NoCylinderParams.(d := Some(dv), h := hv);
      KwargChunks(CylinderKeys, CylinderKwargs(p))
        == ["d" + "=" + SerializeArgument(Num(dv)), "h" + "=" + SerializeArgument(Num(hv))]
  {
    var p := NoCylinderParams.(d := Some(dv), h := hv);
    var kw := CylinderKwargs(p);
    CylinderKwargsAt(p);
    CylinderKeysAt();
    KeysOfDiameterHeight(CylinderKeys, kw, dv, hv,
      "d" + "=" + SerializeArgument(Num(dv)), "h" + "=" + SerializeArgument(Num(hv)));
  }

  /** The stepwise walk behind `DiameterHeightChunks`, over the lookups it needs. */
  lemma KeysOfDiameterHeight(ks: seq<string>, kw: map<string, Value>, dv: real, hv: real, cd: string, ch: string)
    requires ks == CylinderKeys && forall k :: k in ks ==> k in kw
    requires kw["$fn"] == Null && kw["d"] == Num(dv) && kw["d1"] == Null && kw["d2"] == Null
    requires kw["h"] == Num(hv) && kw["r"] == Null && kw["r1"] == Null && kw["r2"] == Null
    requires cd == "d" + "=" + SerializeArgument(Num(dv)) && ch == "h" + "=" + SerializeArgument(Num(hv))
    ensures KwargChunks(ks, kw) == [cd, ch]
  {
    CylinderKeysAt();
    FirstFourKeys(ks, kw, dv, cd);
    assert "h" != "fn" by { assert |"h"| != |"fn"|; }
    KeepStep(ks, 4, kw, [cd], "h", Num(hv), ch);
    assert [cd] + [ch] == [cd, ch];
    LastThreeKeys(ks, kw, [cd, ch]);
  }

  /** The positions of the cylinder's keys. */
  lemma CylinderKeysAt()
    ensures |CylinderKeys| == 8
    ensures CylinderKeys[0] == "$fn" && CylinderKeys[1] == "d" && CylinderKeys[2] == "d1" && CylinderKeys[3] == "d2"
    ensures CylinderKeys[4] == "h" && CylinderKeys[5] == "r" && CylinderKeys[6] == "r1" && CylinderKeys[7] == "r2"
  {
  }

  /** `$fn`, `d`, `d1`, `d2`: only `d` is written. */
  lemma FirstFourKeys(ks: seq<string>, kw: map<string, Value>, dv: real, cd: string)
    requires ks == CylinderKeys && forall k :: k in ks ==> k in kw
    requires kw["$fn"] == Null && kw["d"] == Num(dv) && kw["d1"] == Null && kw["d2"] == Null
    requires cd == "d" + "=" + SerializeArgument(Num(dv))
    ensures KwargChunks(ks[..4], kw) == [cd]
  {
    CylinderKeysAt();
    assert ks[..0] == [];
    SkipStep(ks, 0, kw, []);
    assert "d" != "fn" by { assert |"d"| != |"fn"|; }
    KeepStep(ks, 1, kw, [], "d", Num(dv), cd);
    assert [] + [cd] == [cd];
    SkipStep(ks, 2, kw, [cd]);
    SkipStep(ks, 3, kw, [cd]);
  }

  /** `r`, `r1`, `r2` are `None`: nothing more is written. */
  lemma LastThreeKeys(ks: seq<string>, kw: map<string, Value>, acc: seq<string>)
    requires ks == CylinderKeys && forall k :: k in ks ==> k in kw
    requires kw["r"] == Null && kw["r1"] == Null && kw["r2"] == Null
    requires KwargChunks(ks[..5], kw) == acc
    ensures KwargChunks(ks, kw) == acc
  {
    CylinderKeysAt();
    SkipStep(ks, 5, kw, acc);
    SkipStep(ks, 6, kw, acc);
    SkipStep(ks, 7, kw, acc);
    assert ks[..8] == ks;
  }

  lemma SkipStep(ks: seq<string>, i: int, kw: map<string, Value>, acc: seq<string>)
    requires 0 <= i < |ks| && forall k :: k in ks ==> k in kw
    requires KwargChunks(ks[..i], kw) == acc && kw[ks[i]] == Null
    ensures KwargChunks(ks[..i + 1], kw) == acc
  {
    KwargChunksStep(ks, i, kw);
  }

  lemma KeepStep(ks: seq<string>, i: int, kw: map<string, Value>, acc: seq<string>, k: string, v: Value, chunk: string)
    requires 0 <= i < |ks| && forall k :: k in ks ==> k in kw
    requires KwargChunks(ks[..i], kw) == acc && ks[i] == k && k != "fn" && kw[k] == v && v != Null
    requires chunk == k + "=" + SerializeArgument(v)
    ensures KwargChunks(ks[..i + 1], kw) == acc + [chunk]
  {
    KwargChunksStep(ks, i, kw);
  }

  lemma JoinTwo(a: string, b: string)
    ensures Join(",", [a, b]) == a + "," + b
  {
    assert [a, b][1..] == [b];
  }

  /** A cylinder given only a diameter and a height writes `cylinder(d=..,h=..);`. */
  lemma CylinderScadDiameterHeight(dv: real, hv: real)
    ensures ToScad(Cylinder(NoCylinderParams.(d := Some(dv), h := hv), None))
      == "cylinder(" + (("d" + "=" + NiceFloat(dv)) + "," + ("h" + "=" + NiceFloat(hv))) + ");"
  {
    CylinderScadLine(NoCylinderParams.(d := Some(dv), h := hv), None);
    DiameterHeightChunks(dv, hv);
    JoinTwo("d" + "=" + NiceFloat(dv), "h" + "=" + NiceFloat(hv));
  }

  lemma CylinderText(p: string, q: string)
    requires p == "10" && q == "20"
    ensures "cylinder(" + (("d" + "=" + p) + "," + ("h" + "=" + q)) + ");" == "cylinder(d=10,h=20);"
  {
  }

  /** `cylinder(d=10, h=20).to_scad()` is `cylinder(d=10,h=20);`. */
  lemma CylinderScadExample(dv: real, hv: real)
    requires dv == 10.0 && hv == 20.0
    ensures ToScad(Cylinder(NoCylinderParams.(d := Some(dv), h := hv), None)) == "cylinder(d=10,h=20);"
  {
    SmallIntegers();
    var a, b := 10, 20;
    SerializeIntegral(a);
    SerializeIntegral(b);
    CylinderScadDiameterHeight(dv, hv);
    CylinderText(NiceFloat(dv), NiceFloat(hv));
  }

  /** The only keyword `stl_model` passes is the convexity. */
  lemma ConvexityChunks(c: Value)
    requires c != Null
    ensures var kw := map["convexity" := c] - {"label"};
      KwargChunks(SortedKeys(kw.Keys), kw) == ["convexity" + "=" + SerializeArgument(c)]
  {
    var kw := map["convexity" := c] - {"label"};
    var ks := ["convexity"];
    assert kw.Keys == set k | k in ks;
    SortedKeysOfSorted(ks);
    assert ks[..0] == [];
    KeepStep(ks, 0, kw, [], "convexity", c, "convexity" + "=" + SerializeArgument(c));
    assert ks[..1] == ks;
  }

  /** A body with one positional and one keyword chunk writes them separated by a comma. */
  lemma OneAndOne(name: string, f: string, kw: map<string, Value>, chunk: string)
    requires KwargChunks(SortedKeys(kw.Keys), kw) == [chunk]
    ensures ToScad(Generic(name, [Str(f)], kw)) == name + "(" + (("\"" + f + "\"") + "," + chunk) + ");"
  {
    var text := "\"" + f + "\"";
    assert [Str(f)][..0] == [];
    assert SerializeAll([Str(f)]) == [text];
    assert ArgumentChunks([Str(f)], kw) == [text, chunk];
    JoinTwo(text, chunk);
  }

  /** `stl_model(f, convexity=c)` writes the quoted file name, then the convexity. */
  lemma StlScad(f: string, c: real)
    ensures ToScad(StlModel(Str(f), Num(c)))
      == "import" + "(" + (("\"" + f + "\"") + "," + ("convexity" + "=" + NiceFloat(c))) + ");"
  {
    var kw := map["convexity" := Num(c)] - {"label"};
    ConvexityChunks(Num(c));
    OneAndOne("import", f, kw, "convexity" + "=" + SerializeArgument(Num(c)));
  }

  lemma StlText(f: string, c: string)
    requires f == "part.stl" && c == "10"
    ensures "import" + "(" + (("\"" + f + "\"") + "," + ("convexity" + "=" + c)) + ");"
      == "import(\"part.stl\",convexity=10);"
  {
  }

  /** `stl_model('part.stl')` is `import("part.stl",convexity=10);`. */
  lemma StlScadExample(f: string, c: real)
    requires f == "part.stl" && c == 10.0
    ensures ToScad(StlModel(Str(f), Num(c))) == "import(\"part.stl\",convexity=10);"
  {
    SmallIntegers();
    var n := 10;
    SerializeIntegral(n);
    StlScad(f, c);
    StlText(f, NiceFloat(c));
  }
}
