# yaost core in Dafny

yaost builds solid models as a tree of CSG nodes and writes that tree as
OpenSCAD source. This project models three parts of it and proves what
each of them promises:

- **The node tree** (`yaost/base.py`): a `Node` is a kind, its children,
  its positional arguments and its keyword arguments, with the hidden
  `_label` kept among the keyword arguments. The model covers node
  construction, `to_string` with its number policy (integers as they are,
  floats with four decimals) and the structural queries `depth` and
  `is_2d`. It also covers the builders `t`, `r`, `s`, `m` and their axis
  shorthands, clone mode, the set operations and the modifiers, and
  relabelling. It models the flattening done by union, intersection and
  hull, and both traversals, the label search and
  `traverse_children_deep_first`.
- **The primitive bodies** (`yaost/body.py`): `cube` defaults, cube and
  cylinder origins and bounding boxes, and the cylinder's radius and
  diameter fallback chains, including the error when nothing is given.
  It also covers the generic bodies (`polygon`, `polyhedron`,
  `stl_model`, ...) and the `to_scad` text of each.
- **The argument-line serializer** (`yaost/util.py`): `nice_float`,
  `_serialize_argument` and `full_arguments_line`.

Modules:

- `Nodes`: the tree, construction, `depth` and `is_2d`.
- `NodeText`: `to_string` and `id`.
- `Flatten`: the `DistributiveNode` constructor.
- `Transform`: the builders.
- `Search`: the label search and the deep-first traversal.
- `Body`, `Util` and `Geometry`: `body.py`, `util.py`, and the small
  vector and box types the bodies need.
- `Strings` and `Decimal`: the Python built-ins the code relies on.
  These are `sorted()` on string keys, `'{}'.format` of an int, and
  `'{:.Nf}'` formatting, which is rounding to N places with ties to even.
- `Wrappers`: `Option` and `Result`.

Python values are immutable datatypes. The Python class of a node is
kept as a tag (`Plain`, `Transformation`, `Distributive`), because
`is_2d` and `label` dispatch on it. An exception becomes the `Err` case
of a `Result`.

The loops of the source are Dafny methods with loop invariants:

- the work-stack loop of `DistributiveNode.__init__` (`Flatten.DistributiveInit`);
- the stack loop of `get_child_by_label` (`Search.CollectLabelled`);
- the two loops of `full_arguments_line` (`Util.PositionalChunks`, `Util.AppendKeywordChunks`).

The `for` loop of `polygon` is one too (`Body.Polygon`). Each method is
proved equal to a recursive specification function, and the properties
are proved about those functions.

The centre of mass is not computed. The translate builder takes a
function `com` from nodes to vectors and reads it only for the `'c'` and
`'com'` sentinels. The md5 digest of `Node.id` is a function parameter
in the same way.

## Model

| member | source | states |
|---|---|---|
| Nodes.Init | yaost/base.py:35-48 | children are normalized: none gives no children and a single node gives a one-element list. `clone` is dropped. Every other given keyword is kept unchanged and no key is added except `_label`. `_label` is present exactly when it was given or the kind is not one of `! # * %`. When not given, it defaults to the kind. |
| Nodes.ChildList | yaost/base.py:36-39 | `None` gives no children, one node a one-element list, a list itself |
| Nodes.Depth | yaost/base.py:165-169 | a leaf has depth 0, and a node is strictly deeper than each of its children |
| Nodes.MaxDepth | yaost/base.py:169 | the maximum bounds the depth of every node in the list |
| Nodes.MaxDepthAttained | yaost/base.py:169 | the maximum is the depth of some node in the list |
| Nodes.DepthAttained | yaost/base.py:165-169 | a node with children is exactly one deeper than its deepest child |
| Nodes.PolygonTypo | yaost/base.py:147-156 | the kind list as written and the corrected one disagree exactly on `polygon` and `polyton`; as written, `polygon` is not flat |
| Nodes.FlatPrimitives | yaost/base.py:147-156 | with the corrected list, `polygon`, `square`, `circle` and `text` are flat; `cube`, `cylinder`, `sphere` and `polyhedron` are not |
| Nodes.Is2DKindAsWritten | yaost/base.py:147-156 | the kind test as written, with `polyton` (no contract of its own; see `PolygonTypo`) |
| Nodes.Is2DKind | yaost/base.py:147-156 | the kind test with the intended `polygon` (no contract of its own; see `FlatPrimitives`) |
| Nodes.AllIs2DMeansEach | yaost/base.py:379 | the all-children test holds exactly when every child is flat |
| Nodes.TransformationIs2D | yaost/base.py:375-379 | a transformation is flat exactly when it is not an extrusion and all its children are flat; an extrusion never is |
| Nodes.HasLabel | yaost/base.py:344 | `kwargs.get('_label') == label` (no contract of its own) |
| Nodes.Is2D | yaost/base.py:147-156 | `is_2d`: a plain or distributive node is flat exactly when its kind is one of the flat kinds; a transformation dispatches as `TransformationIs2D` states (no contract of its own) |
| NodeText.ArgTextFails | yaost/base.py:50-69 | an argument can be written exactly when neither it nor anything inside it is `None` or an unknown object; the error names one that cannot be written |
| NodeText.ArgTextsFail | yaost/base.py:66-67 | a list of arguments gives one text per argument, or the first failure |
| NodeText.ScalarText | yaost/base.py:51-61 | a string is quoted unless it is `$preview`, a bool is `true`/`false`, an integer has no point |
| NodeText.FloatText | yaost/base.py:63-64 | a float is written with exactly four decimals, and the text reads back as the value correctly rounded to four places |
| NodeText.MagicKey | yaost/base.py:71-74 | exactly `fa`, `fs`, `fn` are renamed, to `$` followed by the key |
| NodeText.VisibleKeys | yaost/base.py:94-98 | the written keys are exactly those not starting with `_`, in strictly increasing order |
| NodeText.KwargTextsAgree | yaost/base.py:94-98 | the keyword texts depend only on the values of the keys written |
| NodeText.KwargTextsFail | yaost/base.py:94-98 | the keyword texts exist exactly when every written value can be written |
| NodeText.VisibleKwargsFail | yaost/base.py:94-98 | a node's keyword texts fail exactly when a visible value cannot be written, and the error names one |
| NodeText.ArgText | yaost/base.py:50-69 | `__argument_to_string`: one argument's text, or the argument that cannot be written; its properties are in `ArgTextFails`, `ScalarText` and `FloatText` (no contract of its own) |
| NodeText.KwargTexts | yaost/base.py:94-98 | the `key=value` texts of the given keys in order, or the first value that cannot be written; see `KwargTextsFail` and `KwargTextsAgree` (no contract of its own) |
| NodeText.ChildrenText | yaost/base.py:100 | the children's texts joined in order, or the first failure; see `ChildrenTextFails` (no contract of its own) |
| NodeText.ToString | yaost/base.py:90-110 | `to_string`: the head with arguments and visible keywords, then the children; its properties are in `ToStringParts`, `ToStringFails`, `ToStringFrame` and `Shape` (no contract of its own) |
| NodeText.ToStringParts | yaost/base.py:93-110 | the text exists when the arguments, the keywords and the children all can be written, and otherwise carries the first failure in that order |
| NodeText.ToStringFails | yaost/base.py:90-110 | `to_string` succeeds exactly when every argument anywhere in the tree can be written |
| NodeText.ToStringError | yaost/base.py:69 | the error raised names an argument that indeed cannot be written |
| NodeText.ChildrenTextFails | yaost/base.py:100 | the children's text exists exactly when each child's does, and is empty exactly when there are no children |
| NodeText.ChildrenTextError | yaost/base.py:100 | a failing child text carries an argument that cannot be written |
| NodeText.ToStringNonEmpty | yaost/base.py:100-110 | a node's text is never empty |
| NodeText.ToStringFrame | yaost/base.py:100-110 | a well-formed text is the head, then the children (in braces when more than one), then `;` only when there are no children |
| NodeText.Shape | yaost/base.py:100-110 | a leaf ends in `;`, a single child follows the head directly, several children are wrapped in `{}` |
| NodeText.HiddenKey | yaost/base.py:97 | setting any key that starts with `_` does not change the text |
| NodeText.Id | yaost/base.py:158-163 | the id exists exactly when the text does |
| NodeText.SameTextSameId | yaost/base.py:158-163 | nodes with the same text have the same id |
| Flatten.CollapseSet | yaost/base.py:393-394 | the collapsed kinds default to the node's own kind |
| Flatten.Collapsible | yaost/base.py:384-389 | `__collapsable`: the child is of a collapsed kind and its label is absent or equal to its kind (no contract of its own) |
| Flatten.Leaves | yaost/base.py:396-402 | the children the work-stack loop keeps, as a function of the stack; its properties are in `LeavesAppend`, `LeavesKeep`, `LeavesAbsorb` and `LeavesNotCollapsible` (no contract of its own) |
| Flatten.LeavesKeepAll | yaost/base.py:399-402 | every operand that does not collapse is among the kept children |
| Flatten.LeavesAppend | yaost/base.py:396-402 | the kept children of a concatenation are those of the later part followed by those of the earlier part, as a stack popped from the end gives them |
| Flatten.LeavesNotCollapsible | yaost/base.py:384-402 | no kept child is of a collapsed kind while still carrying its default label |
| Flatten.LeavesReversed | yaost/base.py:396-402 | when nothing collapses, the children come out in reverse order |
| Flatten.LeavesKeep | yaost/base.py:399-402 | a child that does not collapse is never lost |
| Flatten.LeavesAbsorb | yaost/base.py:399-400 | a collapsing child is replaced, in its place, by its own kept children |
| Flatten.DistributiveNew | yaost/base.py:391-403 | a distributive node has the given kind and arguments, its children are the kept children, and none of them collapses |
| Flatten.DistributiveInit | yaost/base.py:391-403 | the work-stack loop builds exactly the node `DistributiveNew` describes |
| Transform.Negate | yaost/base.py:222 | unary minus yields a number that is zero exactly when its operand is |
| Transform.IsZero | yaost/base.py:193 | Python `a == 0`: the integer zero, the float zero and `False` (no contract of its own) |
| Transform.Cloning | yaost/base.py:360 | `clone` is given and truthy (no contract of its own) |
| Transform.TransformationNew | yaost/base.py:358-365 | without a true `clone` the node is built normally. With one, the result is a union whose children are the flattening of the node's children followed by the transformed copy, which was built without `clone`. |
| Transform.CloneKeepsOriginal | yaost/base.py:358-364 | cloning over one node that does not itself collapse gives the transformed copy, then the original |
| Transform.CloneIsUnion | yaost/base.py:358-364 | a cloned transformation equals the union of the node with the same transformation not cloned |
| Transform.TransformationShape | yaost/base.py:358-365 | without clone mode a transformation has its kind, its arguments, the one child, and is one deeper |
| Transform.ContainsDeeper | yaost/base.py:358-365 | a transformation is deeper than the node it wraps, cloned or not |
| Transform.T | yaost/base.py:185-206 | `t`: all-zero offsets return the node itself; any other offsets give a strictly deeper node |
| Transform.TVec | yaost/base.py:186-187 | `t(v)` returns the node itself exactly when every component of the vector is zero |
| Transform.Axis | yaost/base.py:196-201 | a `c`/`com` axis becomes the negated centre of mass on that axis; any other value is kept |
| Transform.TranslateElision | yaost/base.py:193-194 | `t` returns the node itself exactly when all three offsets are zero |
| Transform.TranslateAxes | yaost/base.py:196-206 | a translate that is not elided has the node as its only child. Each axis gets its offset, or the negated centre of mass on that axis for a sentinel. The translate is one deeper. |
| Transform.TranslateNumeric | yaost/base.py:193-202 | a translate by numbers that are not all zero is the translate node with those offsets |
| Transform.TranslateIs2D | yaost/base.py:375-379 | without clone mode a translate is flat exactly when the node is |
| Transform.R | yaost/base.py:208-233 | `r`: all-zero angles return the node itself whatever the pivots are; any other angles give a strictly deeper node. Numeric pivots are required only when some angle is not zero |
| Transform.ZeroRotateIgnoresPivot | yaost/base.py:209-210 | zero angles of any type return the node even with pivots that are not numbers |
| Transform.M | yaost/base.py:245-262 | `m`: the result is always strictly deeper than the node |
| Transform.Pivoted | yaost/base.py:220-226 | the rotate or mirror, pivoted or not, is strictly deeper than the node |
| Transform.PivotedUnfold | yaost/base.py:221-224 | with a non-zero pivot the result is the translate by the pivot of the operation over the translate by the negated pivot |
| Transform.SandwichShape | yaost/base.py:221-224 | those three nodes carry the pivot, the angles and the negated pivot as their arguments, each has the next as its only child, and the whole is three levels deeper |
| Transform.S | yaost/base.py:235-243 | `s`: the result is strictly deeper than the node |
| Transform.ScaleShape | yaost/base.py:235-243 | without clone mode, `s` is a scale node over the node with the three factors as its one argument, one deeper, and never the node itself |
| Transform.RotateElision | yaost/base.py:209-210 | `r` returns the node itself exactly when all three angles are zero |
| Transform.MirrorNeverElided | yaost/base.py:245-262 | `m` always builds a new node, even for a zero normal |
| Transform.UnpivotedShape | yaost/base.py:225-226 | through the origin a rotate or mirror is one node over the node, with the three angles as its argument |
| Transform.PivotedShape | yaost/base.py:221-224 | about a non-zero pivot, the result is a translate by the pivot, over the operation, over a translate by the negated pivot, over the node: three levels |
| Transform.CloneNot2D | yaost/base.py:363 | clone mode yields a union, which is never flat |
| Transform.TKw | yaost/base.py:185-206 | `t(**kw)` with axes taken from the keywords: no non-zero axis returns the node, any other gives a deeper node |
| Transform.RKw | yaost/base.py:208-233 | `r(**kw)` likewise: zero angles return the node, others a deeper node |
| Transform.MKw | yaost/base.py:245-262 | `m(**kw)` is always deeper than the node |
| Transform.Tx | yaost/base.py:273-274 | `tx(x)` by a non-zero amount is deeper; by zero, with no other axis given, it is the node |
| Transform.Ty | yaost/base.py:276-277 | as `Tx`, along y |
| Transform.Tz | yaost/base.py:279-280 | as `Tx`, along z |
| Transform.Rx | yaost/base.py:282-283 | `rx(x)` by a non-zero angle is deeper; by zero, with no other angle given, it is the node |
| Transform.Ry | yaost/base.py:285-286 | as `Rx`, about y |
| Transform.Rz | yaost/base.py:288-289 | as `Rx`, about z |
| Transform.Mx | yaost/base.py:291-292 | `mx(c)` is always deeper than the node |
| Transform.My | yaost/base.py:294-295 | `my(c)` is always deeper than the node |
| Transform.Mz | yaost/base.py:297-298 | `mz(c)` is always deeper than the node |
| Transform.TranslateShorthands | yaost/base.py:273-280 | `tx`, `ty`, `tz` move along their own axis only, and a zero move returns the node |
| Transform.RotateShorthands | yaost/base.py:282-289 | `rx`, `ry`, `rz` rotate about their own axis only, through the origin |
| Transform.MirrorThroughOrigin | yaost/base.py:291-292 | `mx(0)` is the single mirror with normal (1,0,0) over the node |
| Transform.MirrorAboutCenter | yaost/base.py:291-292 | `mx(c)` for a non-zero `c` is the mirror with normal (1,0,0), sandwiched between translates by `-c` and `c` |
| Transform.MirrorUnfold | yaost/base.py:291-292 | `mx(c)` is `m(x=1, xc=c)`: the pivoted mirror with normal (1,0,0) |
| Transform.AlongY | yaost/base.py:276-277 | `ty(y, **kw)` by a non-zero number is the translate by (0, y, 0) with the keywords forwarded |
| Transform.ClonedShorthand | examples/transformations.py:51 | `ty(10, clone=True)` is the union of the node with `ty(10)` |
| Transform.LinearExtrude | yaost/base.py:267-268 | `linear_extrude` is never flat and is deeper than the node |
| Transform.Extrude | yaost/base.py:264-265 | `extrude` is never flat and is deeper than the node |
| Transform.RotateExtrude | yaost/base.py:270-271 | `rotate_extrude` is never flat and is deeper than the node |
| Transform.Extrusion | yaost/base.py:264-271 | an extrusion transformation, cloned or not, is not flat and is deeper than the node |
| Transform.Difference | yaost/base.py:300-301 | a difference is deeper than each operand and is not flat |
| Transform.NotFlatKinds | yaost/base.py:147-156 | `difference`, `union`, `color`, `render` and `if` are not flat kinds |
| Transform.DifferenceShape | yaost/base.py:300-301 | a difference keeps its two operands in order, is labelled `difference`, and is one deeper than the deeper operand |
| Transform.Union | yaost/base.py:303-304 | a union is a distributive `union` node; no child collapses into it, and every operand that does not collapse is a child |
| Transform.Intersection | yaost/base.py:306-307 | the same for `intersection`, collapsing only nested intersections |
| Transform.Hull | yaost/base.py:309-310 | the same for `hull`, collapsing nested unions and hulls |
| Transform.UnionOrder | yaost/base.py:303-304 | a union of operands that do not collapse lists them last first |
| Transform.AbsorbFirst | yaost/base.py:396-402 | a collapsing first operand is replaced by its own children, after the second operand |
| Transform.PairUnion | yaost/base.py:303-304 | the union of two plain operands holds the second, then the first |
| Transform.UnionOfUnion | yaost/base.py:303-304 | a union of a union with a third operand is one flat union of all three |
| Transform.LabelledUnionKept | yaost/base.py:384-389 | a union relabelled with another name is kept whole inside another union |
| Transform.HullAbsorbsUnion | yaost/base.py:309-310 | a hull absorbs a nested union, which `union` and `intersection` alone would not |
| Transform.IntersectionKeepsUnion | yaost/base.py:306-307 | an intersection keeps a nested union whole |
| Transform.Wrap | yaost/base.py:312-316 | a node over one child has that child only, is one deeper, and is flat exactly when its kind is |
| Transform.Offset | yaost/base.py:312-313 | `offset` is flat whatever it wraps, and one deeper |
| Transform.Projection | yaost/base.py:315-316 | `projection` is flat whatever it wraps, and one deeper |
| Transform.Color | yaost/base.py:123-124 | `color` is not flat, even over a flat node, and is one deeper |
| Transform.Render | yaost/base.py:138-139 | `render` is not flat, even over a flat node, and is one deeper |
| Transform.Preview | yaost/base.py:120-121 | `preview` is not flat, even over a flat node, and is one deeper |
| Transform.Modifier | yaost/base.py:126-136 | a modifier wraps the node alone, is one deeper and, for a glyph, has no label and is not flat |
| Transform.Debug | yaost/base.py:126-127 | `debug` is a `#` node without a label, one deeper |
| Transform.Root | yaost/base.py:129-130 | `root` is a `!` node without a label, one deeper |
| Transform.Disable | yaost/base.py:132-133 | `disable` is a `*` node without a label, one deeper |
| Transform.Background | yaost/base.py:135-136 | `background` is a `%` node without a label, one deeper |
| Transform.ModifierText | yaost/base.py:126-136 | a modifier has no label and writes its glyph directly in front of its subtree |
| Transform.PreviewFields | yaost/base.py:120-121 | `preview` is an `if` node with the argument `$preview`, the label `if`, and the node as its only child |
| Transform.PreviewText | yaost/base.py:120-121 | `preview` writes `if($preview)` followed by the node's text |
| Transform.Label | yaost/base.py:115-118 | after `label(l)` on a node not in clone mode, the node carries the label `l` and keeps its kind and class |
| Transform.LabelKeeps | yaost/base.py:115-118 | relabelling a plain node or a transformation changes only its `_label` |
| Transform.LabelText | yaost/base.py:115-118 | relabelling a plain node or a transformation changes neither its text nor its id |
| Transform.LabelReverses | yaost/base.py:115-118 | relabelling a distributive node re-runs its constructor, which reverses its children, and keeps kind and arguments |
| Transform.LabelCollapse | yaost/base.py:384-389 | a relabelled node collapses into a parent of its kind exactly when the new label is the kind |
| Search.Visit | yaost/base.py:340-346 | the order in which the stack loop pops nodes, as a function of the stack; see `VisitAppend`, `VisitReaches` and `VisitSize` (no contract of its own) |
| Search.Matches | yaost/base.py:344-345 | the popped nodes that carry the label, in order; see `MatchesMembers` (no contract of its own) |
| Search.VisitAppend | yaost/base.py:342-346 | nodes pushed later are visited, with everything under them, before those below them on the stack |
| Search.VisitReaches | yaost/base.py:340-346 | the search visits exactly the nodes within the trees on the stack |
| Search.VisitSize | yaost/base.py:340-346 | the number of pops equals the number of nodes in those trees |
| Search.MatchesMembers | yaost/base.py:344-345 | the collected nodes are exactly the visited nodes that carry the label |
| Search.SearchStep | yaost/base.py:343-346 | one pop matches the top node, pushes its children, and makes the stack smaller |
| Search.VisitRoot | yaost/base.py:340-349 | from a root, some node is collected exactly when some node within the root carries the label. The first collected is such a node, and it is the root when the root carries the label. |
| Search.CollectLabelled | yaost/base.py:340-346 | the loop collects every labelled node, in the order the stack pops them |
| Search.GetChildByLabel | yaost/base.py:339-349 | succeeds exactly when some node within the root carries the label, with the first one in search order. The root itself wins when it matches. Otherwise the error message is returned. |
| Search.InsertByDepth | yaost/base.py:80 | insertion into a deepest-first list; the result holds as many nodes as the node and the list together |
| Search.InsertPermutes | yaost/base.py:80 | insertion adds exactly the one node |
| Search.InsertKeepsOrder | yaost/base.py:80 | insertion keeps a deepest-first list deepest first |
| Search.SortByDepth | yaost/base.py:80 | `sorted(..., key=-depth)` by insertion; the result holds as many nodes as the input |
| Search.SortByDepthSorts | yaost/base.py:80 | the sorted children are a permutation of the children, deepest first |
| Search.SortPermutes | yaost/base.py:80 | sorting is a permutation of the children |
| Search.SortOrders | yaost/base.py:80 | the sorted children are deepest first |
| Search.DeepFirst | yaost/base.py:76-83 | the traversal yields as many nodes as the tree has, and the node itself last |
| Search.DeepFirstComplete | yaost/base.py:76-83 | a node is yielded exactly when it lies within the tree |
| Search.WithinDeepFirst | yaost/base.py:76-83 | every node within the tree is yielded |
| Search.DeepFirstBlocks | yaost/base.py:78-83 | the traversal is the subtrees of the depth-sorted children one after the other, then the node; each child's block sits after those of children at least as deep and before those no deeper |
| Search.DeepFirstAllSplit | yaost/base.py:80-82 | the traversal of a list of children splits into the blocks before a child, that child's block, and the blocks after it |
| Search.DeepFirstWithin | yaost/base.py:76-83 | everything the traversal yields lies within the node |
| Search.Within | yaost/base.py:76-83 | a node is the tree itself or lies within one of its children (no contract of its own) |
| Util.NiceTrim | yaost/util.py:6 | `rstrip('0').rstrip('.')`; its properties are in `NiceTrimBounds` and `NiceTrimShape` (no contract of its own) |
| Util.NiceFloat | yaost/util.py:4-7 | six-decimal fixed point, then trimmed; see `NiceFloatShape` and `NiceFloatIntegral` (no contract of its own) |
| Util.NiceTrimBounds | yaost/util.py:6 | trimming keeps a prefix that does not end in `.`, and only `0`s and points are removed |
| Util.NiceTrimShape | yaost/util.py:6 | for `a.b` with `a` ending in a digit: an all-zero fraction leaves `a`; otherwise only the fraction's trailing zeros go |
| Util.NiceFloatShape | yaost/util.py:4-7 | the result is a non-empty prefix of the six-decimal form, never ends in `.`, and ends in `0` only when it has no point |
| Util.NiceFloatIntegral | yaost/util.py:4-7 | an integral value prints as the integer, with no point |
| Util.SerializeArgument | yaost/util.py:10-21 | the text is never empty, a bool is `true`/`false`, and any other value is wrapped in double quotes |
| Util.SerializeAll | yaost/util.py:18 | one text per element |
| Util.SerializeIntegral | yaost/util.py:13-14 | an integral number serializes as the integer |
| Util.NumberIsNotBool | yaost/util.py:11-14 | no number serializes as `true` or `false` |
| Util.VectorAsList | yaost/util.py:15-16 | a vector serializes as the list of its three components |
| Util.KeyText | yaost/util.py:34-36 | only the key `fn` is renamed, to `$fn` |
| Util.Chunk | yaost/util.py:34-37 | one `key=value` chunk (no contract of its own; see `KwargChunksKeys`) |
| Util.KwargChunks | yaost/util.py:30-37 | no more keyword chunks than keys |
| Util.PositionalChunks | yaost/util.py:26-28 | the first loop serializes every positional argument, in order |
| Util.AppendKeywordChunks | yaost/util.py:30-37 | the second loop appends one `key=value` chunk per key whose value is not `None`, in order |
| Util.ArgumentsLine | yaost/util.py:24-38 | the joined line; see `FullArgumentsLine`, `ChunkCount`, `KeywordLine` and `EmptyLine` (no contract of its own) |
| Util.FullArgumentsLine | yaost/util.py:24-38 | the line is the positional chunks then the sorted keyword chunks, joined by commas |
| Util.KwargChunksKeys | yaost/util.py:30-37 | the keyword chunks are, in order, the `key=value` chunks of exactly the keys whose value is not `None` |
| Util.ChunkCount | yaost/util.py:24-38 | a line has one chunk per positional argument plus one per keyword whose value is not `None` |
| Util.KeywordLine | yaost/util.py:24-38 | with no positional arguments the line is the keyword chunks alone |
| Util.EmptyLine | yaost/util.py:24-38 | no arguments at all give the empty line |
| Strings.MinKey | yaost/util.py:30 | every non-empty key set has a least key |
| Strings.SortedKeys | yaost/util.py:30 | `sorted()` of a key set holds each key once |
| Strings.SortedKeysSorted | yaost/util.py:30 | `sorted()` puts the keys in strictly increasing order |
| Strings.Join | yaost/util.py:38 | `','.join(...)` (no contract of its own) |
| Strings.StrictlySortedUnique | yaost/util.py:30 | a strictly sorted list is determined by its elements |
| Strings.FilterSortedKeys | yaost/base.py:96-97 | filtering the sorted keys equals sorting the filtered keys |
| Strings.IntToString | yaost/base.py:61 | an integer's text is non-empty and has no point |
| Strings.NatToStringRoundTrip | yaost/base.py:61 | a number's digits read back as the number, with no leading zero |
| Strings.CanonicalRoundTrip | yaost/base.py:61 | a digit string without leading zeros is the text of its value |
| Strings.RStrip | yaost/util.py:6 | `rstrip(c)` keeps a prefix, does not end in `c`, and removes only `c`s |
| Strings.RStripAppend | yaost/util.py:6 | stripping touches only a suffix made of `c` |
| Decimal.RoundHalfEven | yaost/util.py:5 | the nearest integer, ties to the even one |
| Decimal.RoundHalfEvenUnique | yaost/util.py:5 | no other integer satisfies that rounding rule |
| Decimal.FormatFixed | yaost/base.py:64 | `'{:.Nf}'.format(x)`: the sign, then the rounded units as digits with N after the point (no contract of its own; see `FormatFixedValue` and `FormatFixedParts`) |
| Decimal.RoundedUnits | yaost/base.py:64 | the units of the last place shown are the scaled value rounded half to even, with the value's sign |
| Decimal.FormatFixedValue | yaost/base.py:64 | the fixed-point text reads back as exactly those rounded units |
| Decimal.FormatFixedParts | yaost/util.py:5 | the text is a sign and integer digits, a point, and exactly the requested number of fraction digits |
| Decimal.FormatFixedIntegral | yaost/util.py:5 | an integral value is written as the integer, a point, and zeros |
| Geometry.T | tests/test_vector.py:16-17 | translation adds the offsets component-wise |
| Geometry.Tx | tests/test_vector.py:7-8 | `tx` is `t(d, 0, 0)` and leaves the other components unchanged |
| Geometry.Ty | tests/test_vector.py:10-11 | `ty` is `t(0, d, 0)` and leaves the other components unchanged |
| Geometry.Tz | tests/test_vector.py:13-14 | `tz` is `t(0, 0, d)` and leaves the other components unchanged |
| Geometry.TranslateCompose | tests/test_vector.py:4-17 | translations compose by adding offsets, and the zero offset is the identity |
| Geometry.TranslateExamples | tests/test_vector.py:4-17 | the translations of the origin that the vector test checks |
| Geometry.Center | yaost/body.py:55-56 | the centre is halfway between the corners on each axis |
| Body.R1 | yaost/body.py:110-120 | the bottom radius resolves exactly when one of `r1`, `d1`, `r`, `d` is given |
| Body.R2 | yaost/body.py:122-132 | the top radius resolves exactly when one of `r2`, `d2`, `r`, `d` is given |
| Body.D1 | yaost/body.py:134-144 | the bottom diameter resolves exactly when the bottom radius does |
| Body.D2 | yaost/body.py:146-156 | the top diameter resolves exactly when the top radius does |
| Body.Max | yaost/body.py:102-108 | the larger of two values |
| Body.Min | yaost/body.py:94-100 | the smaller of two values |
| Body.BigRadius | yaost/body.py:102-104 | `R` is the larger of the two resolved radii |
| Body.SmallRadius | yaost/body.py:94-96 | `r` is the smaller of the two resolved radii |
| Body.BigDiameter | yaost/body.py:106-108 | `D` is the larger of the two resolved diameters |
| Body.SmallDiameter | yaost/body.py:98-100 | `d` is the smaller of the two resolved diameters |
| Body.RadiusPrecedence | yaost/body.py:110-120 | an end's own parameters win over the shared ones, `r1` over `d1` over `r` over `d` |
| Body.DiameterIsTwiceRadius | yaost/body.py:110-156 | a resolved diameter is twice the resolved radius, unless both were given explicitly for that end |
| Body.BigDiameterIsTwiceBigRadius | yaost/body.py:94-108 | without such a clash `D == 2R` and `d == 2r` |
| Body.MakeCylinder | yaost/body.py:66-92 | construction succeeds exactly when both radii resolve, and otherwise fails with "All parameters are undefined" |
| Body.CylinderKwargs | yaost/body.py:166-175 | the eight keyword arguments a cylinder writes; what each holds is stated by `CylinderKwargsAt` (no contract of its own) |
| Body.CylinderKwargsAt | yaost/body.py:166-175 | each key holds its parameter, with a parameter not given as `None` |
| Body.CylinderKeySet | yaost/body.py:166-175 | a cylinder always has exactly the eight keys `$fn d d1 d2 h r r1 r2` |
| Body.CylinderBuilder | yaost/body.py:215-238 | `cylinder(...)` succeeds exactly when both radii resolve, with a cylinder of exactly the given parameters and label, and otherwise fails with the undefined-parameters error |
| Body.ChamfersIgnored | yaost/body.py:215-238 | the chamfer options make no difference to the cylinder built |
| Body.CubeOf | yaost/body.py:203-212 | a zero `y` or `z` becomes `x` |
| Body.CubeDefaults | yaost/body.py:203-212 | `cube()` is the unit cube and `cube(a)` is `Cube(a, a, a)` |
| Body.OriginOf | yaost/body.py:55-92 | the origin each body records (and `Vector()` for a generic body, line 193); see `OriginIsCenter` (no contract of its own) |
| Body.Bounds | yaost/body.py:56-92 | the bounding box each body records (and `BBox()` for a generic body, line 194); see `BoundsOrdered` and `CylinderBoundsHoldEnds` (no contract of its own) |
| Body.OriginIsCenter | yaost/body.py:55-56 | a cube's and a cylinder's origin is the centre of its bounding box |
| Body.BoundsOrdered | yaost/body.py:55-56 | with sizes that are not negative, the bounding box is well formed |
| Body.CylinderBoundsHoldEnds | yaost/body.py:88-92 | the cylinder's box holds both ends' radii and spans its height |
| Body.CylinderExampleBounds | yaost/body.py:88-92 | `d=10, h=20` gives the box (-5,-5,0)–(5,5,20) |
| Body.MakeGeneric | yaost/body.py:182-194 | a generic body keeps its name and arguments and every keyword except `label` |
| Body.Sphere | yaost/body.py:241-242 | `sphere` is a generic `sphere` body with the given arguments and every keyword but `label` |
| Body.Circle | yaost/body.py:264-265 | `circle` is a generic `circle` body with the given arguments and every keyword but `label` |
| Body.Square | yaost/body.py:268-269 | `square` is a generic `square` body with the given arguments and every keyword but `label` |
| Body.StlModel | yaost/body.py:309-310 | `stl_model` is an `import` of the file with the one keyword `convexity` |
| Body.TextModel | yaost/body.py:313-314 | `text_model` is a `text` body of the string; its keyword map is exactly the given one without `label`, with `size`, `halign` and `valign` set |
| Body.PolygonPoint | yaost/body.py:249-253 | a vector point becomes `[x, y]`, any other point is kept |
| Body.PolygonPoints | yaost/body.py:248-254 | every point is converted, in order |
| Body.WithOptional | yaost/body.py:246-247 | an optional parameter is added only when it is given |
| Body.Polygon | yaost/body.py:245-255 | the loop builds the polygon of the converted points, with `paths` added only when given |
| Body.Polyhedron | yaost/body.py:258-261 | the points are the one argument; the keywords are exactly the given ones plus `faces` when it is not None, with `label` dropped |
| Body.ToScad | yaost/body.py:58-200 | the three `to_scad` methods (lines 58-61, 162-177, 196-200); its text is stated by `CubeScad`, `CylinderScadLine` and `OneAndOne` (no contract of its own) |
| Body.CubeScad | yaost/body.py:58-61 | a cube writes its three sides as one list argument |
| Body.CubeScadIntegral | yaost/body.py:58-61 | integral sides are written as integers |
| Body.CubeScadExample | yaost/body.py:58-61 | `Cube(1, 2, 3)` writes `cube([1,2,3]);` |
| Body.ListOfThree | yaost/util.py:17-18 | a three-element list is its serialized elements between brackets |
| Body.IntegralTriple | yaost/util.py:13-18 | three integral numbers form the list `[a,b,c]` |
| Body.SingleArgumentLine | yaost/util.py:24-38 | one positional argument and no keywords give that argument's text |
| Body.CylinderKeyOrder | yaost/body.py:162-177 | a cylinder writes its keys in the order `$fn d d1 d2 h r r1 r2` |
| Body.CylinderScadLine | yaost/body.py:162-177 | the cylinder text is its keyword chunks in that order |
| Body.DiameterHeightChunks | yaost/body.py:162-177 | with only a diameter and a height given, only those two are written |
| Body.CylinderScadDiameterHeight | yaost/body.py:162-177 | such a cylinder writes `cylinder(d=..,h=..);` |
| Body.CylinderScadExample | yaost/body.py:162-177 | `cylinder(d=10, h=20)` writes `cylinder(d=10,h=20);` |
| Body.OneAndOne | yaost/body.py:196-200 | a generic body writes its name, then its positional and keyword chunks separated by commas |
| Body.ConvexityChunks | yaost/body.py:309-310 | `stl_model` writes one keyword, the convexity |
| Body.StlScad | yaost/body.py:309-310 | `stl_model(f, c)` writes the quoted file name, then `convexity=` |
| Body.StlScadExample | yaost/body.py:309-310 | `stl_model('part.stl')` writes `import("part.stl",convexity=10);` |

## Left out

- Floating point: numbers are exact reals. `'{:.4f}'` and `'{:.6f}'` are modelled as correct rounding of the exact value, with ties to even. That is what Python does for the exact value a double holds, but there are no IEEE doubles here.
- `Operation` and `_eval_variable`: `yaost/context.py` is not part of this model. Builder arguments are taken as already evaluated.
- `com` and `size`: they dispatch to `Vector.com_for_*`/`size_for_*` in `yaost/vector.py`, which is not part of this model. The centre of mass is a parameter of the translate builder. A `c`/`com` axis always becomes `Float` of the negated centre, so it is written with four decimals; the source writes `-self.com.x` in whatever numeric type `com` returns, so the texts agree only while `com` returns floats.
- `yaost/vector.py` is not part of this model. Only the component-wise translations the vector test shows are modelled, and vector components are taken as numbers.
- `BBox`: `yaost/bbox.py` is not part of this model. `BBox()` without arguments is an opaque `Default` box.
- The `.x`, `.y`, `.z`, `.xc`, `.yc`, `.zc` attributes the builders set on their result: they are Python attribute writes that nothing modelled reads.
- `same_moves`, `_apply_same_transformations_to` and the `_apply_transformations` flag they read: they replay transformations through code that copies Python objects.
- `DialectProxy`, `_ByLabelPorxy`/`by_label`, `__getattr__` forwarding, `__add__`/`__sub__` and `module_name`: Python dynamic dispatch and aliases of operations that are modelled.
- `copy.deepcopy` and `@lazy` memoization: values are immutable here, so copies and caches change nothing.
- The `cache` argument of `to_string`: no caller ever fills it.
- md5: `Node.id` takes the digest as a function parameter.
- `BaseBody` and `Group` are modelled without `BaseObject`, which the base module shown does not define.
- `yaost/project.py`, the examples and `setup.py`: orchestration, file and process I/O, packaging.
- The commented-out `sector`, which is not live code.
- `sphere`, `circle`, `square` and `text_model`: their arguments pass through unchecked, as in the source, and like every generic body they record the origin and the opaque default box, so no geometry of theirs is modelled.
- Transform.T: every iterable offset (the `Iter` value, standing for lists and tuples alike) is excluded by the requires, here and in TKw and Tx/Ty/Tz. In the source only an unhashable offset (a list) raises, in the sentinel test `x in {'c', 'com'}`; a tuple passes that test and is written into a translate, which the model does not cover.
- Transform.R: when some angle is not zero, a non-numeric pivot makes the source raise in unary minus; the model requires numeric pivots in that case only, and zero angles accept any pivot (`ZeroRotateIgnoresPivot`). `RKw` and `Rx`/`Ry`/`Rz` carry the same conditional requirement. `m` and `mx`/`my`/`mz` always read their pivot, and `M`, `MKw`, `Mx`/`My`/`Mz` require numeric pivots.
- Transform.Tx: passing an axis keyword that the shorthand also sets is a `TypeError` in Python. The model requires the keyword to be absent; the same holds for the other shorthands.
- Transform.TVec: `t(v)` with a vector is modelled as translating by the vector's three components. The source does this only when `y == z == 0`, and otherwise compares the vector as an ordinary value.
- Search.DeepFirst: "each node once" is stated as the length (one entry per node) together with completeness (`DeepFirstComplete`); equal subtrees are equal values here, so they cannot be told apart by membership.
- Search.SortByDepthSorts: the stability of Python's `sorted` (ties keep input order) is not proved; the model states only the permutation and the deepest-first order.
- Nodes.Is2D: the flatness tests use the corrected kind `polygon` in place of the source's `polyton` (see Findings); `Nodes.Is2DKindAsWritten` is the list as written.
- Body.MakeCylinder: `h` is always a number; `h=None` is not modelled.

## Findings

| source | as written | input that shows it | evidently intended | confidence | as-written member | corrected member |
|---|---|---|---|---|---|---|
| yaost/base.py:147-156 | `is_2d` lists the kind `'polyton'` | a node of kind `polygon`: `is_2d` is false | `'polygon'`, the OpenSCAD 2-D primitive that `polygon()` in `yaost/body.py` builds | high, not executed | Nodes.PolygonTypo | Nodes.FlatPrimitives |

`Nodes.Is2DKindAsWritten` is the test as written. `Nodes.PolygonTypo`
shows that it rejects `polygon`. `Nodes.Is2DKind` is the corrected test,
and `Nodes.Is2D` uses it.
