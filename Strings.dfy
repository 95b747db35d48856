/**
 * Text helpers shared by both serializers: Python's code-point order on
 * strings and `sorted()` of a key set, `str.join`, decimal digit strings
 * and `str.rstrip` of one character.
 */
module Strings {

  // ---------------------------------------------------------------------
  // Python's string comparison: lexicographic on code points.
  // ---------------------------------------------------------------------

  predicate LessEq(a: string, b: string)
    decreases |a|
  {
    a == [] || (b != [] && (a[0] < b[0] || (a[0] == b[0] && LessEq(a[1..], b[1..]))))
  }

  predicate Less(a: string, b: string)
  {
    LessEq(a, b) && a != b
  }

  lemma {:induction false} LessEqReflexive(a: string)
    ensures LessEq(a, a)
    decreases |a|
  {
    if a != [] {
      LessEqReflexive(a[1..]);
    }
  }

  lemma {:induction false} LessEqAntisymmetric(a: string, b: string)
    requires LessEq(a, b) && LessEq(b, a)
    ensures a == b
    decreases |a|
  {
    if a != [] && b != [] {
      LessEqAntisymmetric(a[1..], b[1..]);
      assert a == [a[0]] + a[1..] && b == [b[0]] + b[1..];
    }
  }

  lemma {:induction false} LessEqTransitive(a: string, b: string, c: string)
    requires LessEq(a, b) && LessEq(b, c)
    ensures LessEq(a, c)
    decreases |a|
  {
    if a != [] && b != [] && c != [] && a[0] == b[0] && b[0] == c[0] {
      LessEqTransitive(a[1..], b[1..], c[1..]);
    }
  }

  lemma {:induction false} LessEqTotal(a: string, b: string)
    ensures LessEq(a, b) || LessEq(b, a)
    decreases |a|
  {
    if a != [] && b != [] && a[0] == b[0] {
      LessEqTotal(a[1..], b[1..]);
    }
  }

  lemma LessEqAntisymmetricAll()
    ensures forall a, b :: LessEq(a, b) && LessEq(b, a) ==> a == b
  {
    forall a, b | LessEq(a, b) && LessEq(b, a)
      ensures a == b
    {
      LessEqAntisymmetric(a, b);
    }
  }

  /** Every non-empty finite set of strings has a least element. */
  lemma {:induction false} MinimumExists(ks: set<string>)
    requires ks != {}
    ensures exists k :: k in ks && forall j :: j in ks ==> LessEq(k, j)
    decreases |ks|
  {
    var x :| x in ks;
    var rest := ks - {x};
    LessEqReflexive(x);
    if rest == {} {
      assert ks == {x};
    } else {
      MinimumExists(rest);
      var m :| m in rest && forall j :: j in rest ==> LessEq(m, j);
      LessEqTotal(x, m);
      if LessEq(x, m) {
        forall j | j in ks
          ensures LessEq(x, j)
        {
          if j != x {
            assert j in rest;
            LessEqTransitive(x, m, j);
          }
        }
        assert x in ks;
      } else {
        assert LessEq(m, x);
        forall j | j in ks
          ensures LessEq(m, j)
        {
          if j != x {
            assert j in rest;
          }
        }
        assert m in ks;
      }
    }
  }

  /** The least key of a non-empty key set. */
  function MinKey(ks: set<string>): (k: string)
    requires ks != {}
    ensures k in ks && forall j :: j in ks ==> LessEq(k, j)
  {
    MinimumExists(ks);
    LessEqAntisymmetricAll();
    var k :| k in ks && forall j :: j in ks ==> LessEq(k, j);
    k
  }

  predicate StrictlySorted(s: seq<string>)
  {
    forall i, j :: 0 <= i < j < |s| ==> Less(s[i], s[j])
  }

  lemma {:induction false} LessTransitive(a: string, b: string, c: string)
    requires Less(a, b) && Less(b, c)
    ensures Less(a, c)
  {
    LessEqTransitive(a, b, c);
    if a == c {
      LessEqAntisymmetric(a, b);
    }
  }

  /** A sequence whose neighbours are in strict order is strictly sorted. */
  lemma {:induction false} StrictlySortedByNeighbours(s: seq<string>)
    requires forall i :: 0 <= i < |s| - 1 ==> Less(s[i], s[i + 1])
    ensures StrictlySorted(s)
    decreases |s|
  {
    if |s| > 1 {
      var t := s[1..];
      forall i | 0 <= i < |t| - 1
        ensures Less(t[i], t[i + 1])
      {
        assert t[i] == s[i + 1] && t[i + 1] == s[i + 2];
      }
      StrictlySortedByNeighbours(t);
      forall j | 0 < j < |s|
        ensures Less(s[0], s[j])
      {
        if j > 1 {
          assert t[0] == s[1] && t[j - 1] == s[j];
          LessTransitive(s[0], s[1], s[j]);
        }
      }
      forall i, j | 0 <= i < j < |s|
        ensures Less(s[i], s[j])
      {
        if i > 0 {
          assert t[i - 1] == s[i] && t[j - 1] == s[j];
        }
      }
    }
  }

  /** Python's `sorted()` applied to the keys of a dictionary. */
  function SortedKeys(ks: set<string>): (r: seq<string>)
    ensures |r| == |ks|
    ensures forall k :: k in r <==> k in ks
    decreases |ks|
  {
    if ks == {} then []
    else
      var k := MinKey(ks);
      [k] + SortedKeys(ks - {k})
  }

  /** `sorted()` puts the keys in strictly increasing order. */
  lemma {:induction false} SortedKeysSorted(ks: set<string>)
    ensures StrictlySorted(SortedKeys(ks))
    decreases |ks|
  {
    if ks != {} {
      var k := MinKey(ks);
      var rest := SortedKeys(ks - {k});
      SortedKeysSorted(ks - {k});
      assert forall j :: j in rest ==> Less(k, j);
      var r := [k] + rest;
      forall i, j | 0 <= i < j < |r|
        ensures Less(r[i], r[j])
      {
        if i == 0 {
          assert r[j] in rest;
        } else {
          assert r[i] == rest[i - 1] && r[j] == rest[j - 1];
        }
      }
    }
  }

  /** Two strictly sorted sequences with the same elements are the same sequence. */
  lemma {:induction false} StrictlySortedUnique(s: seq<string>, t: seq<string>)
    requires StrictlySorted(s) && StrictlySorted(t)
    requires forall k :: k in s <==> k in t
    ensures s == t
    decreases |s|
  {
    assert |t| > 0 ==> t[0] in t;
    if s != [] {
      assert s[0] in s;
      assert t != [];
      assert t[0] in t;
      var i :| 0 <= i < |s| && s[i] == t[0];
      var j :| 0 <= j < |t| && t[j] == s[0];
      if i != 0 {
        assert Less(s[0], s[i]);
        if j != 0 {
          assert Less(t[0], t[j]);
          LessEqAntisymmetric(s[0], t[0]);
        }
      }
      assert s[0] == t[0];
      forall k
        ensures k in s[1..] <==> k in t[1..]
      {
        if k in s[1..] {
          var a :| 0 <= a < |s[1..]| && s[1..][a] == k;
          assert Less(s[0], s[a + 1]);
          assert k in t;
          var b :| 0 <= b < |t| && t[b] == k;
          assert b != 0;
          assert t[1..][b - 1] == k;
        }
        if k in t[1..] {
          var b :| 0 <= b < |t[1..]| && t[1..][b] == k;
          assert Less(t[0], t[b + 1]);
          assert k in s;
          var a :| 0 <= a < |s| && s[a] == k;
          assert a != 0;
          assert s[1..][a - 1] == k;
        }
      }
      StrictlySortedUnique(s[1..], t[1..]);
      assert s == [s[0]] + s[1..] && t == [t[0]] + t[1..];
    }
  }

  /** A strictly sorted sequence is what `sorted()` returns for its own elements. */
  lemma SortedKeysOfSorted(s: seq<string>)
    requires StrictlySorted(s)
    ensures SortedKeys(set k | k in s) == s
  {
    SortedKeysSorted(set k | k in s);
    StrictlySortedUnique(SortedKeys(set k | k in s), s);
  }

  /** Keeping the elements of a strictly sorted sequence that satisfy `keep`. */
  function FilterKeys(s: seq<string>, keep: string -> bool): (r: seq<string>)
    ensures forall k :: k in r <==> k in s && keep(k)
    ensures StrictlySorted(s) ==> StrictlySorted(r)
  {
    if s == [] then []
    else
      var rest := FilterKeys(s[1..], keep);
      assert StrictlySorted(s) ==> forall k :: k in rest ==> Less(s[0], k);
      if keep(s[0]) then [s[0]] + rest else rest
  }

  /** Sorting and then filtering is the same as filtering and then sorting. */
  lemma FilterSortedKeys(ks: set<string>, keep: string -> bool)
    ensures FilterKeys(SortedKeys(ks), keep) == SortedKeys(set k | k in ks && keep(k))
  {
    SortedKeysSorted(ks);
    SortedKeysSorted(set k | k in ks && keep(k));
    var f := FilterKeys(SortedKeys(ks), keep);
    StrictlySortedUnique(f, SortedKeys(set k | k in ks && keep(k)));
  }

  // ---------------------------------------------------------------------
  // str.join
  // ---------------------------------------------------------------------

  function Join(sep: string, parts: seq<string>): string
  {
    if parts == [] then ""
    else if |parts| == 1 then parts[0]
    else parts[0] + sep + Join(sep, parts[1..])
  }

  function Concat(parts: seq<string>): (r: string)
    ensures |parts| == 1 ==> r == parts[0]
  {
    if parts == [] then "" else parts[0] + Concat(parts[1..])
  }

  lemma {:induction false} ConcatNonEmpty(parts: seq<string>)
    requires parts != [] && forall i :: 0 <= i < |parts| ==> parts[i] != []
    ensures Concat(parts) != []
  {
  }

  // ---------------------------------------------------------------------
  // Decimal digit strings, as Python's '{}'.format of an int.
  // ---------------------------------------------------------------------

  predicate IsDigit(c: char)
  {
    '0' <= c <= '9'
  }

  predicate AllDigits(s: string)
  {
    forall i :: 0 <= i < |s| ==> IsDigit(s[i])
  }

  function DigitChar(d: nat): (c: char)
    requires d < 10
    ensures IsDigit(c)
  {
    "0123456789"[d]
  }

  function DigitValue(c: char): (d: nat)
    requires IsDigit(c)
    ensures d < 10 && DigitChar(d) == c
  {
    (c as int - '0' as int)
  }

  /** Digits of a natural number, most significant first, no leading zeros. */
  function NatToString(n: nat): (s: string)
    ensures |s| >= 1 && AllDigits(s)
    ensures s[0] == '0' ==> n == 0
    decreases n
  {
    if n < 10 then [DigitChar(n)] else NatToString(n / 10) + [DigitChar(n % 10)]
  }

  /** Python's `'{}'.format(i)` of an int. */
  function IntToString(i: int): (s: string)
    ensures |s| >= 1 && '.' !in s
  {
    if i < 0 then "-" + NatToString(-i) else NatToString(i)
  }

  /** The number a digit string denotes. */
  function DigitsValue(s: string): nat
    requires AllDigits(s)
  {
    if s == [] then 0 else 10 * DigitsValue(s[..|s| - 1]) + DigitValue(s[|s| - 1])
  }

  /** A digit string in the form NatToString produces: no leading zero except "0" itself. */
  predicate Canonical(s: string)
  {
    |s| >= 1 && AllDigits(s) && (s[0] == '0' ==> |s| == 1)
  }

  lemma {:induction false} NatToStringRoundTrip(n: nat)
    ensures DigitsValue(NatToString(n)) == n
    ensures Canonical(NatToString(n))
    decreases n
  {
    var s := NatToString(n);
    if n >= 10 {
      NatToStringRoundTrip(n / 10);
      assert s[..|s| - 1] == NatToString(n / 10);
    }
  }

  lemma {:induction false} DigitsValueFirstNonZero(s: string)
    requires AllDigits(s) && |s| >= 1 && s[0] != '0'
    ensures DigitsValue(s) >= 1
    ensures |s| >= 2 ==> DigitsValue(s) >= 10
    decreases |s|
  {
    if |s| >= 2 {
      DigitsValueFirstNonZero(s[..|s| - 1]);
    }
  }

  lemma {:induction false} CanonicalRoundTrip(s: string)
    requires Canonical(s)
    ensures NatToString(DigitsValue(s)) == s
    decreases |s|
  {
    var n := DigitsValue(s);
    if |s| == 1 {
      assert s[..0] == [];
      assert n == DigitValue(s[0]) < 10;
    } else {
      var p := s[..|s| - 1];
      assert p[0] == s[0];
      DigitsValueFirstNonZero(p);
      CanonicalRoundTrip(p);
      assert n / 10 == DigitsValue(p) && n % 10 == DigitValue(s[|s| - 1]);
      assert s == p + [s[|s| - 1]];
    }
  }

  function Pow10(k: nat): (p: nat)
    ensures p >= 1
  {
    if k == 0 then 1 else 10 * Pow10(k - 1)
  }

  /** A number below 10^k has at most k digits. */
  lemma {:induction false} NatToStringLength(n: nat, k: nat)
    requires 1 <= k && n < Pow10(k)
    ensures |NatToString(n)| <= k
    decreases k
  {
    if n >= 10 {
      assert k >= 2;
      NatToStringLength(n / 10, k - 1);
    }
  }

  function Zeros(k: nat): (s: string)
    ensures |s| == k && AllDigits(s)
    ensures forall i :: 0 <= i < k ==> s[i] == '0'
  {
    if k == 0 then "" else Zeros(k - 1) + "0"
  }

  lemma {:induction false} ZerosValue(z: nat, s: string)
    requires AllDigits(s)
    ensures DigitsValue(Zeros(z) + s) == DigitsValue(s)
    decreases |s|
  {
    if s == [] {
      ZerosValueZero(z);
      assert Zeros(z) + s == Zeros(z);
    } else {
      var p := s[..|s| - 1];
      ZerosValue(z, p);
      assert (Zeros(z) + s)[..|Zeros(z) + s| - 1] == Zeros(z) + p;
    }
  }

  lemma {:induction false} ZerosValueZero(z: nat)
    ensures DigitsValue(Zeros(z)) == 0
  {
    if z > 0 {
      ZerosValueZero(z - 1);
      assert Zeros(z)[..z - 1] == Zeros(z - 1);
    }
  }

  // ---------------------------------------------------------------------
  // str.rstrip with a single character.
  // ---------------------------------------------------------------------

  function RStrip(s: string, c: char): (r: string)
    ensures |r| <= |s| && r == s[..|r|]
    ensures r == [] || r[|r| - 1] != c
    ensures forall i :: |r| <= i < |s| ==> s[i] == c
  {
    if s != [] && s[|s| - 1] == c then RStrip(s[..|s| - 1], c) else s
  }

  /** Stripping a suffix that is not made of `c` alone only touches that suffix. */
  lemma {:induction false} RStripAppend(a: string, b: string, c: char)
    ensures (forall i :: 0 <= i < |b| ==> b[i] == c) ==> RStrip(a + b, c) == RStrip(a, c)
    ensures (exists i :: 0 <= i < |b| && b[i] != c) ==> RStrip(a + b, c) == a + RStrip(b, c)
    decreases |b|
  {
    if b == [] {
      assert a + b == a;
    } else {
      var b' := b[..|b| - 1];
      assert (a + b)[..|a + b| - 1] == a + b';
      RStripAppend(a, b', c);
      if b[|b| - 1] != c {
        assert b[|b| - 1] != c;
      } else if exists i :: 0 <= i < |b| && b[i] != c {
        var i :| 0 <= i < |b| && b[i] != c;
        assert i < |b'| && b'[i] != c;
      }
    }
  }
}
