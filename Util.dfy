/**
 * The argument-line serializer used by the primitive bodies: numbers are
 * written with six decimals and then trimmed, values are serialized by
 * type, and an argument line is positional arguments followed by the
 * sorted keyword arguments.
 */
module Util {
  import opened Strings
  import opened Decimal
  import opened Geometry

  // ---------------------------------------------------------------------
  // nice_float
  // ---------------------------------------------------------------------

  /** Strips trailing `0`s and then trailing `.`s. */
  function NiceTrim(s: string): string
  {
    RStrip(RStrip(s, '0'), '.')
  }

  /** Trimming keeps a prefix, never ends in `.`, and drops only zeros and points. */
  lemma NiceTrimBounds(s: string)
    ensures var r := NiceTrim(s);
      (r == [] || r[|r| - 1] != '.') && |r| <= |s| && r == s[..|r|]
      && forall i :: |r| <= i < |s| ==> s[i] == '0' || s[i] == '.'
  {
    var t := RStrip(s, '0');
    var r := RStrip(t, '.');
    assert r == t[..|r|] && t == s[..|t|];
    forall i | |r| <= i < |s|
      ensures s[i] == '0' || s[i] == '.'
    {
      if i < |t| {
        assert s[i] == t[i];
      }
    }
  }

  /** `nice_float(v)`: six decimals, trimmed. */
  function NiceFloat(v: real): string
  {
    NiceTrim(FormatFixed(v, 6))
  }

  /**
   * Trimming a numeral `a.b` whose integer part `a` ends in a digit: when
   * every fraction digit is zero the point goes too, otherwise only the
   * trailing zeros of the fraction go.
   */
  lemma NiceTrimShape(a: string, b: string)
    requires |a| > 0 && IsDigit(a[|a| - 1]) && AllDigits(b)
    ensures (forall i :: 0 <= i < |b| ==> b[i] == '0') ==> NiceTrim(a + "." + b) == a
    ensures (exists i :: 0 <= i < |b| && b[i] != '0') ==> NiceTrim(a + "." + b) == a + "." + RStrip(b, '0')
  {
    if forall i :: 0 <= i < |b| ==> b[i] == '0' {
      TrimZeroFraction(a, b);
    } else {
      TrimFraction(a, b);
    }
  }

  lemma TrimZeroFraction(a: string, b: string)
    requires |a| > 0 && IsDigit(a[|a| - 1])
    requires forall i :: 0 <= i < |b| ==> b[i] == '0'
    ensures NiceTrim(a + "." + b) == a
  {
    var p := a + ".";
    RStripAppend(p, b, '0');
    RStripKeeps(p, '0');
    assert p[..|p| - 1] == a;
    RStripKeeps(a, '.');
  }

  lemma TrimFraction(a: string, b: string)
    requires AllDigits(b) && exists i :: 0 <= i < |b| && b[i] != '0'
    ensures NiceTrim(a + "." + b) == a + "." + RStrip(b, '0')
  {
    var p := a + ".";
    RStripAppend(p, b, '0');
    var t := RStrip(b, '0');
    assert t != [] by {
      var i :| 0 <= i < |b| && b[i] != '0';
    }
    assert t[|t| - 1] == b[|t| - 1] && IsDigit(b[|t| - 1]);
    assert (p + t)[|p + t| - 1] == t[|t| - 1];
    RStripKeeps(p + t, '.');
  }

  /** Stripping a character the string does not end in changes nothing. */
  lemma RStripKeeps(s: string, c: char)
    requires s != [] && s[|s| - 1] != c
    ensures RStrip(s, c) == s
  {
  }

  /**
   * What `nice_float` leaves: never a trailing `.`; a trailing `0` only
   * when no point is left; only zeros and the point are trimmed.
   */
  lemma NiceFloatShape(v: real)
    ensures var r := NiceFloat(v);
      r != [] && r[|r| - 1] != '.'
        && ('.' in r ==> r[|r| - 1] != '0')
        && r == FormatFixed(v, 6)[..|r|]
  {
    FormatFixedParts(v, 6);
    NiceTrimBounds(FormatFixed(v, 6));
    var a := IntegerPart(v, 6);
    var b := FractionPart(v, 6);
    NiceTrimShape(a, b);
    if exists i :: 0 <= i < |b| && b[i] != '0' {
      var t := RStrip(b, '0');
      assert t != [] && t[|t| - 1] != '0';
    } else {
      assert '.' !in NiceFloat(v);
    }
  }

  /** An integral value is printed as the integer, with no point. */
  lemma NiceFloatIntegral(n: int)
    ensures NiceFloat(n as real) == IntToString(n)
  {
    FormatFixedIntegral(n, 6);
    var a := IntToString(n);
    var z := Zeros(6);
    assert IsDigit(a[|a| - 1]) by {
      if n < 0 {
        assert a[|a| - 1] == NatToString(-n)[|NatToString(-n)| - 1];
      }
    }
    NiceTrimShape(a, z);
  }

  // ---------------------------------------------------------------------
  // _serialize_argument
  // ---------------------------------------------------------------------

  /**
   * The values an argument line can hold. `Num` is any Python int or float;
   * `Str` is any other value, by the text `str()` gives for it.
   */
  datatype Value =
    | Bool(b: bool)
    | Num(x: real)
    | Vec(v: Vector)
    | List(items: seq<Value>)
    | Null
    | Str(s: string)

  /** `_serialize_argument(v)`. */
  function SerializeArgument(v: Value): (r: string)
    ensures |r| > 0
    ensures v.Bool? ==> r == (if v.b then "true" else "false")
    ensures v.Str? ==> r == "\"" + v.s + "\""
  {
    match v
    case Bool(b) => if b then "true" else "false"
    case Num(x) => NiceFloatNonEmpty(x); NiceFloat(x)
    case Vec(p) => "[" + Join(",", [NiceFloat(p.x), NiceFloat(p.y), NiceFloat(p.z)]) + "]"
    case List(items) => "[" + Join(",", SerializeAll(items)) + "]"
    case Null => "\"None\""
    case Str(s) => "\"" + s + "\""
  }

  /** Each element serialized, in order. */
  function SerializeAll(items: seq<Value>): (r: seq<string>)
    ensures |r| == |items|
  {
    if items == [] then [] else SerializeAll(items[..|items| - 1]) + [SerializeArgument(items[|items| - 1])]
  }

  lemma NiceFloatNonEmpty(x: real)
    ensures NiceFloat(x) != []
  {
    NiceFloatShape(x);
  }

  /** An integral number is serialized as the integer, with no point. */
  lemma SerializeIntegral(n: int)
    ensures SerializeArgument(Num(n as real)) == IntToString(n)
  {
    NiceFloatIntegral(n);
  }

  /** A vector is serialized as the list of its three components. */
  lemma VectorAsList(p: Vector)
    ensures SerializeArgument(Vec(p)) == SerializeArgument(List([Num(p.x), Num(p.y), Num(p.z)]))
  {
    NumberTriple(p.x, p.y, p.z);
  }

  /** Three numbers serialize one by one. */
  lemma NumberTriple(x: real, y: real, z: real)
    ensures SerializeAll([Num(x), Num(y), Num(z)]) == [NiceFloat(x), NiceFloat(y), NiceFloat(z)]
  {
    assert [Num(x), Num(y), Num(z)][..2] == [Num(x), Num(y)];
    NumberPair(x, y);
  }

  lemma NumberPair(x: real, y: real)
    ensures SerializeAll([Num(x), Num(y)]) == [NiceFloat(x), NiceFloat(y)]
  {
    assert [Num(x), Num(y)][..1] == [Num(x)];
    NumberSingle(x);
  }

  lemma NumberSingle(x: real)
    ensures SerializeAll([Num(x)]) == [NiceFloat(x)]
  {
    assert [Num(x)][..0] == [];
  }

  /** The characters a six-decimal numeral can hold. */
  predicate NumeralChar(c: char)
  {
    IsDigit(c) || c == '-' || c == '.'
  }

  /** A number never serializes as a boolean literal: booleans are told apart before numbers. */
  lemma NumberIsNotBool(x: real)
    ensures SerializeArgument(Num(x)) != "true" && SerializeArgument(Num(x)) != "false"
  {
    var r := NiceFloat(x);
    NiceFloatShape(x);
    FormatFixedParts(x, 6);
    var a := IntegerPart(x, 6);
    assert r[0] == a[0];
    assert NumeralChar(r[0]);
  }

  // ---------------------------------------------------------------------
  // full_arguments_line
  // ---------------------------------------------------------------------

  /** Keyword names as written: only `fn` is renamed, to `$fn`. */
  function KeyText(k: string): (r: string)
    ensures r != k <==> k == "fn"
    ensures k == "fn" ==> r == "$fn"
  {
    if k == "fn" then "$fn" else k
  }

  /** The `key=value` chunk of one keyword argument. */
  function Chunk(k: string, kwargs: map<string, Value>): string
    requires k in kwargs
  {
    KeyText(k) + "=" + SerializeArgument(kwargs[k])
  }

  /** The `key=value` chunks for `keys` in order, skipping keys whose value is `None`. */
  function KwargChunks(keys: seq<string>, kwargs: map<string, Value>): (r: seq<string>)
    requires forall k :: k in keys ==> k in kwargs
    ensures |r| <= |keys|
  {
    if keys == [] then []
    else
      var k := keys[|keys| - 1];
      var init := KwargChunks(keys[..|keys| - 1], kwargs);
      if kwargs[k] == Null then init else init + [Chunk(k, kwargs)]
  }

  /** The chunks of an argument line: every positional argument, then the keyword arguments in sorted key order. */
  function ArgumentChunks(args: seq<Value>, kwargs: map<string, Value>): seq<string>
  {
    SerializeAll(args) + KwargChunks(SortedKeys(kwargs.Keys), kwargs)
  }

  /** The argument line: the chunks joined by commas. */
  function ArgumentsLine(args: seq<Value>, kwargs: map<string, Value>): string
  {
    Join(",", ArgumentChunks(args, kwargs))
  }

  /** `full_arguments_line(args, kwargs)`: positional chunks, then keyword chunks, joined. */
  method FullArgumentsLine(args: seq<Value>, kwargs: map<string, Value>) returns (line: string)
    ensures line == ArgumentsLine(args, kwargs)
  {
    var chunks := PositionalChunks(args);
    chunks := AppendKeywordChunks(chunks, SortedKeys(kwargs.Keys), kwargs);
    line := Join(",", chunks);
  }

  /** The first loop of `full_arguments_line`: one chunk per positional argument. */
  method PositionalChunks(args: seq<Value>) returns (chunks: seq<string>)
    ensures chunks == SerializeAll(args)
  {
    chunks := [];
    for i := 0 to |args|
      invariant chunks == SerializeAll(args[..i])
    {
      assert args[..i + 1][..i] == args[..i];
      chunks := chunks + [SerializeArgument(args[i])];
    }
    assert args[..|args|] == args;
  }

  /** The second loop: a `key=value` chunk per key in order, skipping `None` values. */
  method AppendKeywordChunks(positional: seq<string>, keys: seq<string>, kwargs: map<string, Value>)
    returns (chunks: seq<string>)
    requires forall k :: k in keys ==> k in kwargs
    ensures chunks == positional + KwargChunks(keys, kwargs)
  {
    chunks := positional;
    for j := 0 to |keys|
      invariant chunks == positional + KwargChunks(keys[..j], kwargs)
    {
      ChunkStep(keys, j, kwargs, positional, chunks);
      var key := keys[j];
      var value := kwargs[key];
      if value == Null {
        continue;
      }
      var keyStr := key;
      if keyStr == "fn" {
        keyStr := "$fn";
      }
      assert keyStr + "=" + SerializeArgument(value) == Chunk(key, kwargs);
      chunks := chunks + [keyStr + "=" + SerializeArgument(value)];
    }
    assert keys[..|keys|] == keys;
  }

  lemma ChunkStep(keys: seq<string>, j: int, kwargs: map<string, Value>, positional: seq<string>, chunks: seq<string>)
    requires 0 <= j < |keys| && forall k :: k in keys ==> k in kwargs
    requires chunks == positional + KwargChunks(keys[..j], kwargs)
    ensures kwargs[keys[j]] == Null ==> chunks == positional + KwargChunks(keys[..j + 1], kwargs)
    ensures kwargs[keys[j]] != Null ==>
      chunks + [Chunk(keys[j], kwargs)] == positional + KwargChunks(keys[..j + 1], kwargs)
  {
    KwargChunksStep(keys, j, kwargs);
  }

  /** The keys whose value is not `None`: those that get a chunk. */
  function Live(kwargs: map<string, Value>): string -> bool
  {
    k => k in kwargs && kwargs[k] != Null
  }

  /** One more key adds its chunk, unless its value is `None`. */
  lemma KwargChunksStep(keys: seq<string>, i: int, kwargs: map<string, Value>)
    requires 0 <= i < |keys| && forall k :: k in keys ==> k in kwargs
    ensures KwargChunks(keys[..i + 1], kwargs) == KwargChunks(keys[..i], kwargs)
      + (if kwargs[keys[i]] == Null then [] else [Chunk(keys[i], kwargs)])
  {
    assert keys[..i + 1][..i] == keys[..i];
  }

  /** With no positional arguments the line is the keyword chunks alone. */
  lemma KeywordLine(kwargs: map<string, Value>)
    ensures ArgumentsLine([], kwargs) == Join(",", KwargChunks(SortedKeys(kwargs.Keys), kwargs))
  {
    var none: seq<Value> := [];
    var chunks := KwargChunks(SortedKeys(kwargs.Keys), kwargs);
    assert SerializeAll(none) == [];
    assert ArgumentChunks(none, kwargs) == [] + chunks;
    assert [] + chunks == chunks;
  }

  /** The keyword chunks are the chunks of the non-`None` keys, one each, in order. */
  lemma {:induction false} KwargChunksKeys(keys: seq<string>, kwargs: map<string, Value>)
    requires forall k :: k in keys ==> k in kwargs
    ensures var live := FilterKeys(keys, Live(kwargs));
      |KwargChunks(keys, kwargs)| == |live|
      && forall i :: 0 <= i < |live| ==> live[i] in kwargs && KwargChunks(keys, kwargs)[i] == Chunk(live[i], kwargs)
    decreases |keys|
  {
    if keys != [] {
      var init, last := keys[..|keys| - 1], keys[|keys| - 1];
      assert forall k :: k in init ==> k in keys;
      KwargChunksKeys(init, kwargs);
      FilterKeysSnoc(keys, Live(kwargs));
      var live, liveInit := FilterKeys(keys, Live(kwargs)), FilterKeys(init, Live(kwargs));
      assert Live(kwargs)(last) <==> kwargs[last] != Null;
      forall i | 0 <= i < |live|
        ensures live[i] in kwargs && KwargChunks(keys, kwargs)[i] == Chunk(live[i], kwargs)
      {
        if i < |liveInit| {
          assert live[i] == liveInit[i];
        } else {
          assert live[i] == last;
        }
      }
    }
  }

  lemma {:induction false} FilterKeysSnoc(s: seq<string>, keep: string -> bool)
    requires s != []
    ensures FilterKeys(s, keep)
      == FilterKeys(s[..|s| - 1], keep) + (if keep(s[|s| - 1]) then [s[|s| - 1]] else [])
    decreases |s|
  {
    if |s| > 1 {
      FilterKeysSnoc(s[1..], keep);
      assert s[1..][..|s[1..]| - 1] == s[..|s| - 1][1..];
    } else {
      assert s[..0] == [];
    }
  }

  /**
   * An argument line has one chunk per positional argument and one per
   * keyword argument whose value is not `None`.
   */
  lemma ChunkCount(args: seq<Value>, kwargs: map<string, Value>)
    ensures |ArgumentChunks(args, kwargs)| == |args| + |set k | k in kwargs && kwargs[k] != Null|
  {
    KwargCount(kwargs);
  }

  lemma KwargCount(kwargs: map<string, Value>)
    ensures |KwargChunks(SortedKeys(kwargs.Keys), kwargs)| == |set k | k in kwargs && kwargs[k] != Null|
  {
    var keep := Live(kwargs);
    var keys := SortedKeys(kwargs.Keys);
    KwargChunksKeys(keys, kwargs);
    FilterSortedKeys(kwargs.Keys, keep);
    LiveKeys(kwargs);
  }

  lemma LiveKeys(kwargs: map<string, Value>)
    ensures (set k | k in kwargs.Keys && Live(kwargs)(k)) == (set k | k in kwargs && kwargs[k] != Null)
  {
  }

  /** No arguments at all give the empty line. */
  lemma EmptyLine()
    ensures ArgumentChunks([], map[]) == []
    ensures ArgumentsLine([], map[]) == ""
  {
    var none: map<string, Value> := map[];
    assert |SortedKeys(none.Keys)| == 0;
  }
}
