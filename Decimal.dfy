/**
 * Python's fixed-point float formatting, `'{:.Nf}'.format(x)`, on the exact
 * value `x`: the digits of `|x| * 10^N` rounded to the nearest integer (ties to
 * even), a `-` for negative values, and a `.` before the last N digits.
 */
module Decimal {
  import opened Wrappers
  import opened Strings

  function Abs(x: real): real
  {
    if x < 0.0 then -x else x
  }

  /** The nearest integer to a non-negative real, ties to the even neighbour. */
  function RoundHalfEven(y: real): (m: nat)
    requires y >= 0.0
    ensures m as real - y <= 0.5 && y - m as real <= 0.5
    ensures (m as real - y == 0.5 || y - m as real == 0.5) ==> m % 2 == 0
  {
    var f := y.Floor;
    var frac := y - f as real;
    if frac < 0.5 then f
    else if frac > 0.5 then f + 1
    else if f % 2 == 0 then f else f + 1
  }

  /** Rounding is determined: no other integer is as close with the same tie rule. */
  lemma RoundHalfEvenUnique(y: real, n: nat)
    requires y >= 0.0
    requires n as real - y <= 0.5 && y - n as real <= 0.5
    requires (n as real - y == 0.5 || y - n as real == 0.5) ==> n % 2 == 0
    ensures n == RoundHalfEven(y)
  {
  }

  /** `y * 10^k`, computed one factor of ten at a time. */
  function Scale(y: real, k: nat): (r: real)
    ensures y >= 0.0 ==> r >= 0.0
  {
    if k == 0 then y else 10.0 * Scale(y, k - 1)
  }

  /** `a * 10^k` on naturals: the digits of `a` followed by `k` zeros. */
  function Shift(a: nat, k: nat): nat
  {
    if k == 0 then a else 10 * Shift(a, k - 1)
  }

  /** Left-pads a digit string with zeros to width `w`. */
  function PadZeros(s: string, w: nat): (r: string)
    ensures |r| >= w && |r| >= |s| && AllDigits(s) ==> AllDigits(r)
    ensures |s| <= w ==> |r| == w
  {
    if |s| >= w then s else Zeros(w - |s|) + s
  }

  /**
   * The rounded count `m` of units of the last place, written with `places`
   * fraction digits: the digits of `m`, zero-padded so that at least one digit
   * stays in front of the point, with a `.` inserted `places` digits from the
   * right (no `.` at all when `places` is 0).
   */
  function FixedDigits(m: nat, places: nat): string
  {
    var ds := PadZeros(NatToString(m), places + 1);
    if places == 0 then ds else ds[..|ds| - places] + "." + ds[|ds| - places..]
  }

  /** `'{:.Nf}'.format(x)` with N = `places`. */
  function FormatFixed(x: real, places: nat): string
  {
    (if x < 0.0 then "-" else "") + FixedDigits(RoundHalfEven(Scale(Abs(x), places)), places)
  }

  /**
   * Reads back a fixed-point numeral with exactly `places` fraction digits:
   * an optional `-`, at least one integer digit, and (when `places > 0`) a `.`
   * followed by `places` digits. The value is returned in units of the last
   * place, `10^-places`, so that no division is needed.
   */
  function ParseFixed(s: string, places: nat): Option<int>
  {
    var neg := |s| > 0 && s[0] == '-';
    var body := if neg then s[1..] else s;
    var mag := ParseUnsigned(body, places);
    if mag.None? then None else Some(if neg then -(mag.value as int) else mag.value as int)
  }

  /** `ParseFixed` on a numeral without sign. */
  function ParseUnsigned(body: string, places: nat): Option<nat>
  {
    if places == 0 then
      if |body| >= 1 && AllDigits(body) then Some(DigitsValue(body)) else None
    else if |body| >= places + 2 && body[|body| - places - 1] == '.'
            && AllDigits(body[..|body| - places - 1]) && AllDigits(body[|body| - places..]) then
      Some(Shift(DigitsValue(body[..|body| - places - 1]), places) + DigitsValue(body[|body| - places..]))
    else None
  }

  /** The value of a digit string split `k` digits from the right. */
  lemma {:induction false} DigitsValueSplit(s: string, k: nat)
    requires AllDigits(s) && k <= |s|
    ensures DigitsValue(s) == Shift(DigitsValue(s[..|s| - k]), k) + DigitsValue(s[|s| - k..])
    decreases k
  {
    if k == 0 {
      assert s[..|s|] == s && s[|s|..] == [];
    } else {
      var s' := s[..|s| - 1];
      DigitsValueSplit(s', k - 1);
      assert s'[..|s'| - (k - 1)] == s[..|s| - k];
      var t := s[|s| - k..];
      assert t[..|t| - 1] == s'[|s'| - (k - 1)..];
      assert t[|t| - 1] == s[|s| - 1];
    }
  }

  lemma {:induction false} ShiftIsProduct(a: nat, k: nat)
    ensures Shift(a, k) == a * Pow10(k)
    ensures Scale(a as real, k) == Shift(a, k) as real
    decreases k
  {
    if k > 0 {
      ShiftIsProduct(a, k - 1);
    }
  }

  /** Scaling commutes with negation. */
  lemma {:induction false} ScaleNeg(y: real, k: nat)
    ensures Scale(-y, k) == -Scale(y, k)
    decreases k
  {
    if k > 0 {
      ScaleNeg(y, k - 1);
    }
  }

  lemma PaddedDigits(m: nat, places: nat)
    ensures var ds := PadZeros(NatToString(m), places + 1);
      AllDigits(ds) && |ds| >= places + 1 && DigitsValue(ds) == m
  {
    var ns := NatToString(m);
    NatToStringRoundTrip(m);
    if |ns| < places + 1 {
      ZerosValue(places + 1 - |ns|, ns);
    }
  }

  /** A digit string with a point inserted `places` digits from the right reads back as its own value in units. */
  lemma SplitValue(ds: string, places: nat, body: string)
    requires AllDigits(ds) && |ds| >= places + 1 && places >= 1
    requires body == ds[..|ds| - places] + "." + ds[|ds| - places..]
    ensures ParseUnsigned(body, places) == Some(DigitsValue(ds))
  {
    var w := Shift(DigitsValue(ds[..|ds| - places]), places) + DigitsValue(ds[|ds| - places..]);
    PointedPieces(ds, places, body, w);
    DigitsValueSplit(ds, places);
    assert DigitsValue(ds) == w;
  }

  lemma PointedPieces(ds: string, places: nat, body: string, w: nat)
    requires AllDigits(ds) && |ds| >= places + 1 && places >= 1
    requires body == ds[..|ds| - places] + "." + ds[|ds| - places..]
    requires w == Shift(DigitsValue(ds[..|ds| - places]), places) + DigitsValue(ds[|ds| - places..])
    ensures ParseUnsigned(body, places) == Some(w)
  {
    assert body[..|body| - places - 1] == ds[..|ds| - places];
    assert body[|body| - places..] == ds[|ds| - places..];
    PointedValue(body, places);
  }

  lemma PointedValue(b: string, p: nat)
    requires p >= 1 && |b| >= p + 2 && b[|b| - p - 1] == '.'
    requires AllDigits(b[..|b| - p - 1]) && AllDigits(b[|b| - p..])
    ensures ParseUnsigned(b, p) == Some(Shift(DigitsValue(b[..|b| - p - 1]), p) + DigitsValue(b[|b| - p..]))
  {
  }

  /** The sign in front of an unsigned numeral is read back. */
  lemma SignedValue(body: string, places: nat, neg: bool)
    requires |body| > 0 && body[0] != '-'
    ensures ParseFixed((if neg then "-" else "") + body, places)
      == match ParseUnsigned(body, places)
         case None => None
         case Some(m) => Some(if neg then -(m as int) else m as int)
  {
    var s := (if neg then "-" else "") + body;
    if neg {
      assert s[0] == '-' && s[1..] == body;
    } else {
      assert s == body;
    }
  }

  /** The digits laid out by `FixedDigits` read back as `m` units of the last place. */
  lemma FixedDigitsValue(m: nat, places: nat, neg: bool)
    ensures ParseFixed((if neg then "-" else "") + FixedDigits(m, places), places)
      == Some(if neg then -(m as int) else m as int)
  {
    UnsignedFixed(m, places);
    SignedValue(FixedDigits(m, places), places, neg);
  }

  lemma UnsignedFixed(m: nat, places: nat)
    ensures |FixedDigits(m, places)| > 0 && IsDigit(FixedDigits(m, places)[0])
    ensures ParseUnsigned(FixedDigits(m, places), places) == Some(m)
  {
    var ds := PadZeros(NatToString(m), places + 1);
    PaddedDigits(m, places);
    assert IsDigit(ds[0]);
    if places > 0 {
      SplitValue(ds, places, FixedDigits(m, places));
    }
  }

  /**
   * The number of units of the last place that `'{:.Nf}'` shows for `x`:
   * `x * 10^places` rounded to the nearest integer, ties to even, carrying
   * the sign of `x`.
   */
  function RoundedUnits(x: real, places: nat): (u: int)
    ensures var y := Scale(x, places);
      Abs(u as real - y) <= 0.5
        && ((u as real - y == 0.5 || y - u as real == 0.5) ==> u % 2 == 0)
        && (x < 0.0 ==> u <= 0) && (x >= 0.0 ==> u >= 0)
  {
    var m := RoundHalfEven(Scale(Abs(x), places));
    ScaleNeg(x, places);
    if x < 0.0 then -(m as int) else m as int
  }

  /** The text `FormatFixed` produces is a well-formed numeral that reads back as `RoundedUnits(x, places)`. */
  lemma FormatFixedValue(x: real, places: nat)
    ensures ParseFixed(FormatFixed(x, places), places) == Some(RoundedUnits(x, places))
  {
    FixedDigitsValue(RoundHalfEven(Scale(Abs(x), places)), places, x < 0.0);
  }

  lemma {:induction false} ShiftDigits(a: nat, k: nat)
    requires a >= 1
    ensures NatToString(Shift(a, k)) == NatToString(a) + Zeros(k)
    decreases k
  {
    if k > 0 {
      ShiftDigits(a, k - 1);
      assert Shift(a, k - 1) >= 1 by { ShiftPositive(a, k - 1); }
      assert Shift(a, k) / 10 == Shift(a, k - 1) && Shift(a, k) % 10 == 0;
    }
  }

  lemma {:induction false} ShiftPositive(a: nat, k: nat)
    requires a >= 1
    ensures Shift(a, k) >= 1
    decreases k
  {
    if k > 0 {
      ShiftPositive(a, k - 1);
    }
  }

  /** An integral value is written as its integer digits followed by `places` zeros. */
  lemma FormatFixedIntegral(n: int, places: nat)
    requires places >= 1
    ensures FormatFixed(n as real, places) == IntToString(n) + "." + Zeros(places)
  {
    var a: nat := if n < 0 then -n else n;
    IntegralRounding(n, places);
    IntegralLayout(a, places);
  }

  lemma IntegralRounding(n: int, places: nat)
    ensures var a: nat := if n < 0 then -n else n;
      RoundHalfEven(Scale(Abs(n as real), places)) == Shift(a, places)
  {
    var a: nat := if n < 0 then -n else n;
    assert Abs(n as real) == a as real;
    ShiftIsProduct(a, places);
  }

  lemma IntegralLayout(a: nat, places: nat)
    requires places >= 1
    ensures FixedDigits(Shift(a, places), places) == NatToString(a) + "." + Zeros(places)
  {
    var ds := PadZeros(NatToString(Shift(a, places)), places + 1);
    if a == 0 {
      ShiftZero(places);
      assert NatToString(0) == "0";
      assert ds == Zeros(places) + "0";
      ZerosSplit(places);
    } else {
      ShiftDigits(a, places);
      assert ds == NatToString(a) + Zeros(places);
    }
    assert ds[..|ds| - places] == NatToString(a);
    assert ds[|ds| - places..] == Zeros(places);
  }

  /** `k` zeros followed by one more is one zero followed by `k`. */
  lemma ZerosSplit(k: nat)
    ensures Zeros(k) + "0" == "0" + Zeros(k)
  {
    var l := Zeros(k) + "0";
    var r := "0" + Zeros(k);
    assert forall i :: 0 <= i < |l| ==> l[i] == '0' == r[i];
  }

  lemma {:induction false} ShiftZero(k: nat)
    ensures Shift(0, k) == 0
    decreases k
  {
    if k > 0 {
      ShiftZero(k - 1);
    }
  }

  // ---------------------------------------------------------------------
  // The two halves of a formatted number
  // ---------------------------------------------------------------------

  /** The rounded units `FormatFixed` writes, zero-padded to at least `places + 1` digits. */
  function PaddedUnits(x: real, places: nat): (ds: string)
    ensures AllDigits(ds) && |ds| >= places + 1
  {
    var m := RoundHalfEven(Scale(Abs(x), places));
    PaddedDigits(m, places);
    PadZeros(NatToString(m), places + 1)
  }

  /** What `FormatFixed` writes before the point: the sign, then at least one digit. */
  function IntegerPart(x: real, places: nat): (s: string)
    ensures |s| > 0 && IsDigit(s[|s| - 1]) && '.' !in s
    ensures IsDigit(s[0]) || s[0] == '-'
  {
    var ds := PaddedUnits(x, places);
    var ip := ds[..|ds| - places];
    assert IsDigit(ip[|ip| - 1]) && IsDigit(ip[0]);
    assert AllDigits(ip);
    (if x < 0.0 then "-" else "") + ip
  }

  /** What `FormatFixed` writes after the point: exactly `places` digits. */
  function FractionPart(x: real, places: nat): (s: string)
    ensures |s| == places && AllDigits(s)
  {
    var ds := PaddedUnits(x, places);
    var fp := ds[|ds| - places..];
    assert forall j :: 0 <= j < |fp| ==> fp[j] == ds[|ds| - places + j];
    fp
  }

  /** A formatted number is its integer part, a point and its fraction part (no point when `places` is 0). */
  lemma FormatFixedParts(x: real, places: nat)
    ensures places == 0 ==> FormatFixed(x, places) == IntegerPart(x, places)
    ensures places > 0 ==> FormatFixed(x, places) == IntegerPart(x, places) + "." + FractionPart(x, places)
  {
    var ds := PaddedUnits(x, places);
    var sign := if x < 0.0 then "-" else "";
    if places > 0 {
      assert FixedDigits(RoundHalfEven(Scale(Abs(x), places)), places) == ds[..|ds| - places] + "." + ds[|ds| - places..];
      assert sign + (ds[..|ds| - places] + "." + ds[|ds| - places..])
        == (sign + ds[..|ds| - places]) + "." + ds[|ds| - places..];
    }
  }
}
