/**
 * `Node.to_string`: the OpenSCAD text of a node tree. Arguments are
 * written with the node's own policy (integers as they are, floats with
 * four decimals), keyword arguments whose key starts with `_` are never
 * written, and an argument of an unknown type makes the whole text fail;
 * the error carries the offending argument.
 */
module NodeText {
  import opened Wrappers
  import opened Strings
  import opened Decimal
  import opened Nodes

  /** The argument types `to_string` knows how to write; `None` and other objects raise. */
  predicate Serializable(a: Arg)
  {
    match a
    case Iter(items) => AllSerializable(items)
    case Null => false
    case Opaque(_) => false
    case _ => true
  }

  /** `__argument_to_string`. */
  function ArgText(a: Arg): (r: Result<string, Arg>)
  {
    match a
    case Str(s) => Ok(if s == "$preview" then s else "\"" + s + "\"")
    case Bool(b) => Ok(if b then "true" else "false")
    case Int(i) => Ok(IntToString(i))
    case Float(x) => Ok(FormatFixed(x, 4))
    case Iter(items) =>
      var parts := ArgTexts(items);
      if parts.Err? then Err(parts.error) else Ok("[" + Join(",", parts.value) + "]")
    case _ => Err(a)
  }

  /** The texts of several arguments, failing on the first that cannot be written. */
  function ArgTexts(items: seq<Arg>): (r: Result<seq<string>, Arg>)
  {
    if items == [] then Ok([])
    else
      var head := ArgText(items[0]);
      if head.Err? then Err(head.error)
      else
        var rest := ArgTexts(items[1..]);
        if rest.Err? then Err(rest.error) else Ok([head.value] + rest.value)
  }

  /** Writing an argument fails exactly on `None` and unknown objects, wherever they sit. */
  lemma {:induction false} ArgTextFails(a: Arg)
    ensures ArgText(a).Ok? <==> Serializable(a)
    ensures ArgText(a).Err? ==> !Serializable(ArgText(a).error)
  {
    if a.Iter? {
      ArgTextsFail(a.items);
    }
  }

  lemma {:induction false} ArgTextsFail(items: seq<Arg>)
    ensures ArgTexts(items).Ok? <==> AllSerializable(items)
    ensures ArgTexts(items).Ok? ==> |ArgTexts(items).value| == |items|
    ensures ArgTexts(items).Err? ==> !Serializable(ArgTexts(items).error)
    decreases items, 1
  {
    if items != [] {
      ArgTextFails(items[0]);
      ArgTextsFail(items[1..]);
      assert forall i :: 1 <= i < |items| ==> items[i] == items[1..][i - 1];
    }
  }

  /** The scalar cases: a string is quoted unless it is `$preview`, a bool is a word, an integer has no point. */
  lemma ScalarText(a: Arg)
    ensures a.Str? && a.s != "$preview" ==> ArgText(a) == Ok("\"" + a.s + "\"")
    ensures a == Str("$preview") ==> ArgText(a) == Ok("$preview")
    ensures a.Bool? ==> ArgText(a) == Ok(if a.b then "true" else "false")
    ensures a.Int? ==> ArgText(a).Ok? && '.' !in ArgText(a).value && |ArgText(a).value| > 0
  {
  }

  /** A float is written with exactly four decimals, correctly rounded. */
  lemma FloatText(x: real)
    ensures ArgText(Float(x)).Ok?
    ensures ArgText(Float(x)).value == IntegerPart(x, 4) + "." + FractionPart(x, 4)
    ensures |FractionPart(x, 4)| == 4 && '.' !in IntegerPart(x, 4)
    ensures ParseFixed(ArgText(Float(x)).value, 4) == Some(RoundedUnits(x, 4))
  {
    FormatFixedParts(x, 4);
    FormatFixedValue(x, 4);
  }

  /** `__magic_keys`: `fa`, `fs` and `fn` become OpenSCAD's special variables. */
  function MagicKey(k: string): (r: string)
    ensures r != k <==> k in {"fa", "fs", "fn"}
    ensures r != k ==> r == "$" + k
  {
    if k in {"fa", "fs", "fn"} then "$" + k else k
  }

  /** Keys starting with `_` are private and never written. */
  predicate Visible(k: string)
  {
    !(|k| > 0 && k[0] == '_')
  }

  /** The keys `to_string` writes, in sorted order. */
  function VisibleKeys(kwargs: map<string, Arg>): (r: seq<string>)
    ensures forall k :: k in r <==> k in kwargs && Visible(k)
    ensures StrictlySorted(r)
  {
    SortedKeysSorted(kwargs.Keys);
    FilterKeys(SortedKeys(kwargs.Keys), Visible)
  }

  /** The `key=value` texts of the given keys. */
  function KwargTexts(keys: seq<string>, kwargs: map<string, Arg>): (r: Result<seq<string>, Arg>)
    requires forall k :: k in keys ==> k in kwargs
  {
    if keys == [] then Ok([])
    else
      var v := ArgText(kwargs[keys[0]]);
      if v.Err? then Err(v.error)
      else
        var rest := KwargTexts(keys[1..], kwargs);
        if rest.Err? then Err(rest.error) else Ok([MagicKey(keys[0]) + "=" + v.value] + rest.value)
  }

  /** The keyword texts depend only on the values of the keys written. */
  lemma {:induction false} KwargTextsAgree(keys: seq<string>, a: map<string, Arg>, b: map<string, Arg>)
    requires forall k :: k in keys ==> k in a && k in b && a[k] == b[k]
    ensures KwargTexts(keys, a) == KwargTexts(keys, b)
  {
    if keys != [] {
      KwargTextsAgree(keys[1..], a, b);
    }
  }

  lemma {:induction false} KwargTextsFail(keys: seq<string>, kwargs: map<string, Arg>)
    requires forall k :: k in keys ==> k in kwargs
    ensures KwargTexts(keys, kwargs).Ok? <==> forall i :: 0 <= i < |keys| ==> Serializable(kwargs[keys[i]])
    ensures KwargTexts(keys, kwargs).Err? ==> !Serializable(KwargTexts(keys, kwargs).error)
  {
    if keys != [] {
      ArgTextFails(kwargs[keys[0]]);
      KwargTextsFail(keys[1..], kwargs);
      assert forall i :: 1 <= i < |keys| ==> keys[i] == keys[1..][i - 1];
    }
  }

  /**
   * The frame around the children: a node with children has no `;`, a
   * node with more than one wraps them in braces, and a glyph kind has no
   * argument list.
   */
  function Assemble(kind: string, parts: seq<string>, children: string, count: nat): string
  {
    var tail := if children != "" then "" else ";";
    var body := if children != "" && count > 1 then "{" + children + "}" else children;
    Head(kind, parts) + body + tail
  }

  /** The glyph alone, or the kind with its argument list. */
  function Head(kind: string, parts: seq<string>): string
  {
    if kind in Glyphs then kind else kind + "(" + Join(",", parts) + ")"
  }

  /** `to_string`: arguments first, then the keyword arguments, then the children. */
  function ToString(n: Node): Result<string, Arg>
  {
    var a := ArgTexts(n.args);
    if a.Err? then Err(a.error)
    else
      var k := KwargTexts(VisibleKeys(n.kwargs), n.kwargs);
      if k.Err? then Err(k.error)
      else
        var c := ChildrenText(n.children);
        if c.Err? then Err(c.error)
        else Ok(Assemble(n.kind, a.value + k.value, c.value, |n.children|))
  }

  /** The children's texts, concatenated. */
  function ChildrenText(s: seq<Node>): Result<string, Arg>
  {
    if s == [] then Ok("")
    else
      var head := ToString(s[0]);
      if head.Err? then Err(head.error)
      else
        var rest := ChildrenText(s[1..]);
        if rest.Err? then Err(rest.error) else Ok(head.value + rest.value)
  }

  /** Every argument written anywhere in the tree can be written. */
  predicate WellFormed(n: Node)
  {
    AllSerializable(n.args) && KwargsSerializable(n.kwargs) && AllWellFormed(n.children)
  }

  predicate AllSerializable(items: seq<Arg>)
  {
    forall i :: 0 <= i < |items| ==> Serializable(items[i])
  }

  predicate KwargsSerializable(kwargs: map<string, Arg>)
  {
    forall k :: k in kwargs && Visible(k) ==> Serializable(kwargs[k])
  }

  predicate AllWellFormed(s: seq<Node>)
  {
    forall i :: 0 <= i < |s| ==> WellFormed(s[i])
  }

  /** The text is never empty: it ends in `;` or in a child's text. */
  lemma {:induction false} ToStringNonEmpty(n: Node)
    requires ToString(n).Ok?
    ensures ToString(n).value != ""
  {
  }

  /** The keyword texts fail exactly when a written value cannot be written. */
  lemma VisibleKwargsFail(kwargs: map<string, Arg>)
    ensures var r := KwargTexts(VisibleKeys(kwargs), kwargs);
      && (r.Ok? <==> KwargsSerializable(kwargs))
      && (r.Err? ==> !Serializable(r.error))
  {
    var keys := VisibleKeys(kwargs);
    KwargTextsFail(keys, kwargs);
    forall k | k in kwargs && Visible(k)
      ensures exists i :: 0 <= i < |keys| && keys[i] == k
    {
      assert k in keys;
    }
  }

  /** `to_string` fails exactly when some argument in the tree cannot be written. */
  lemma {:induction false} ToStringFails(n: Node)
    ensures ToString(n).Ok? <==> WellFormed(n)
    decreases n, 0
  {
    var a := ArgTexts(n.args);
    var k := KwargTexts(VisibleKeys(n.kwargs), n.kwargs);
    var c := ChildrenText(n.children);
    ArgTextsFail(n.args);
    VisibleKwargsFail(n.kwargs);
    ChildrenTextFails(n.children);
    ToStringParts(n);
  }

  /** The text exists when all three parts do, and otherwise fails with the first failure. */
  lemma ToStringParts(n: Node)
    ensures var a, k, c := ArgTexts(n.args), KwargTexts(VisibleKeys(n.kwargs), n.kwargs), ChildrenText(n.children);
      && (ToString(n).Ok? <==> a.Ok? && k.Ok? && c.Ok?)
      && (a.Err? ==> ToString(n) == Err(a.error))
      && (a.Ok? && k.Err? ==> ToString(n) == Err(k.error))
      && (a.Ok? && k.Ok? && c.Err? ==> ToString(n) == Err(c.error))
  {
  }

  lemma {:induction false} ChildrenTextFails(s: seq<Node>)
    ensures ChildrenText(s).Ok? <==> AllWellFormed(s)
    ensures ChildrenText(s).Ok? ==> (ChildrenText(s).value == "" <==> s == [])
    decreases s, 1
  {
    if s != [] {
      ToStringFails(s[0]);
      ChildrenTextFails(s[1..]);
      if ToString(s[0]).Ok? {
        ToStringNonEmpty(s[0]);
      }
      assert forall i :: 1 <= i < |s| ==> s[i] == s[1..][i - 1];
    }
  }

  /** The error `to_string` raises names an argument that indeed cannot be written. */
  lemma {:induction false} ToStringError(n: Node)
    ensures ToString(n).Err? ==> !Serializable(ToString(n).error)
    decreases n, 0
  {
    ArgTextsFail(n.args);
    VisibleKwargsFail(n.kwargs);
    ChildrenTextError(n.children);
    ToStringParts(n);
  }

  lemma {:induction false} ChildrenTextError(s: seq<Node>)
    ensures ChildrenText(s).Err? ==> !Serializable(ChildrenText(s).error)
    decreases s, 1
  {
    if s != [] {
      ToStringError(s[0]);
      ChildrenTextError(s[1..]);
    }
  }

  /** The text before the children: the glyph, or the kind and its argument list. */
  function HeadText(n: Node): (r: Result<string, Arg>)
  {
    var a := ArgTexts(n.args);
    var k := KwargTexts(VisibleKeys(n.kwargs), n.kwargs);
    if a.Err? then Err(a.error)
    else if k.Err? then Err(k.error)
    else Ok(Head(n.kind, a.value + k.value))
  }

  /** A well-formed node's text is its head framed around its children's text. */
  lemma ToStringFrame(n: Node)
    requires WellFormed(n)
    ensures ToString(n).Ok? && HeadText(n).Ok? && ChildrenText(n.children).Ok?
    ensures var c := ChildrenText(n.children).value;
      ToString(n).value
        == HeadText(n).value + (if c != "" && |n.children| > 1 then "{" + c + "}" else c) + (if c != "" then "" else ";")
    ensures ChildrenText(n.children).value == "" <==> n.children == []
  {
    ToStringFails(n);
    ChildrenTextFails(n.children);
    ToStringParts(n);
  }

  lemma SingleChildText(s: seq<Node>)
    requires |s| == 1 && ChildrenText(s).Ok?
    ensures ToString(s[0]).Ok? && ChildrenText(s).value == ToString(s[0]).value
  {
    assert s[1..] == [];
    assert ToString(s[0]).value + "" == ToString(s[0]).value;
  }

  /**
   * The three shapes of `to_string`: a leaf ends with `;`, a single child
   * follows the head directly, and several children are wrapped in braces.
   */
  lemma Shape(n: Node)
    requires WellFormed(n)
    ensures ToString(n).Ok? && HeadText(n).Ok? && ChildrenText(n.children).Ok?
    ensures n.children == [] ==> ToString(n).value == HeadText(n).value + ";"
    ensures |n.children| == 1 ==> ToString(n).value == HeadText(n).value + ToString(n.children[0]).value
    ensures |n.children| > 1 ==> ToString(n).value == HeadText(n).value + ("{" + ChildrenText(n.children).value + "}")
  {
    ToStringFrame(n);
    var h, c := HeadText(n).value, ChildrenText(n.children).value;
    if n.children == [] {
      assert h + "" + ";" == h + ";";
    } else {
      assert c != "";
      assert h + c + "" == h + c;
      assert h + ("{" + c + "}") + "" == h + ("{" + c + "}");
      if |n.children| == 1 {
        SingleChildText(n.children);
      }
    }
  }

  /** Two nodes that agree on everything but their keyword texts' origin have the same text. */
  lemma SameParts(a: Node, b: Node)
    requires a.kind == b.kind && a.args == b.args && a.children == b.children
    requires KwargTexts(VisibleKeys(a.kwargs), a.kwargs) == KwargTexts(VisibleKeys(b.kwargs), b.kwargs)
    ensures ToString(a) == ToString(b)
  {
  }

  /** A key starting with `_` can be set to anything without changing the text. */
  lemma HiddenKey(n: Node, k: string, v: Arg)
    requires !Visible(k)
    ensures ToString(n.(kwargs := n.kwargs[k := v])) == ToString(n)
  {
    var n' := n.(kwargs := n.kwargs[k := v]);
    var before := VisibleKeys(n.kwargs);
    var after := VisibleKeys(n'.kwargs);
    StrictlySortedUnique(before, after);
    KwargTextsAgree(before, n.kwargs, n'.kwargs);
    SameParts(n', n);
  }

  /** `Node.id`: a digest of the text; md5 itself is a parameter. */
  function Id(n: Node, digest: string -> string): (r: Result<string, Arg>)
    ensures r.Ok? <==> ToString(n).Ok?
  {
    var t := ToString(n);
    if t.Err? then Err(t.error) else Ok(digest(t.value))
  }

  /** Two nodes with the same text have the same id. */
  lemma SameTextSameId(a: Node, b: Node, digest: string -> string)
    requires ToString(a) == ToString(b)
    ensures Id(a, digest) == Id(b, digest)
  {
  }
}
