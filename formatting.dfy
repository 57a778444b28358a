/**
 * `Labs.prettify` (tablemaker.py): a number rounded to a given decimal
 * position, half to even, and printed in fixed notation with a decimal
 * comma.
 */
module Formatting {
  import opened Wrappers
  import opened Decimals

  /** `max(digit, 0)`: how many fraction digits the format string asks for. */
  function Places(digit: int): (k: nat)
    ensures k >= digit && (digit > 0 ==> k == digit)
  {
    if digit > 0 then digit else 0
  }

  // ---------------------------------------------------------------------
  // Rounding

  /** `e` is at most half a `unit` away from zero. */
  predicate HalfUnit(e: int, unit: nat)
  {
    2 * e <= unit && 2 * -e <= unit
  }

  /** `q * d` is at most half of `d` away from `n`. */
  predicate Near(n: nat, d: nat, q: nat)
  {
    HalfUnit(n - q * d, d)
  }

  /** `q * d` is exactly half of `d` away from `n`. */
  predicate Tie(n: nat, d: nat, q: nat)
  {
    2 * (n - q * d) == d || 2 * (q * d - n) == d
  }

  /** `n / d` rounded to the nearest whole number, a tie going to the even one. */
  function RoundHalfEven(n: nat, d: nat): (q: nat)
    requires d > 0
    ensures Near(n, d, q)
    ensures Tie(n, d, q) ==> q % 2 == 0
  {
    var (q0, r) := Split(n, d);
    if 2 * r < d then q0
    else
      assert (q0 + 1) * d == q0 * d + d;
      if 2 * r > d then q0 + 1
      else if q0 % 2 == 0 then q0
      else q0 + 1
  }

  /** Division with remainder, as a pair. */
  function Split(n: nat, d: nat): (qr: (nat, nat))
    requires d > 0
    ensures n == qr.0 * d + qr.1 && qr.1 < d
  {
    DivMod(n, d);
    (n / d, n % d)
  }

  lemma MulMono(k: nat, d: nat)
    ensures k >= 2 ==> k * d >= 2 * d
  {
  }

  /** The nearest whole number, ties to even, is the only one of its kind. */
  lemma RoundHalfEvenUnique(n: nat, d: nat, q: nat)
    requires d > 0
    requires Near(n, d, q) && (Tie(n, d, q) ==> q % 2 == 0)
    ensures q == RoundHalfEven(n, d)
  {
    var p := RoundHalfEven(n, d);
    if q >= p {
      HalfUnitClose(n, d, p, q);
    } else {
      HalfUnitClose(n, d, q, p);
    }
  }

  /** Two candidates both within half a unit, and even on a tie, coincide. */
  lemma HalfUnitClose(n: nat, d: nat, lo: nat, hi: nat)
    requires d > 0 && lo <= hi
    requires Near(n, d, lo) && (Tie(n, d, lo) ==> lo % 2 == 0)
    requires Near(n, d, hi) && (Tie(n, d, hi) ==> hi % 2 == 0)
    ensures lo == hi
  {
    var k := hi - lo;
    assert hi * d - lo * d == k * d;
    MulMono(k, d);
    assert k <= 1;
    assert k == 1 ==> k * d == d;
  }

  /**
   * The magnitude `a / 10^s` rounded to `digit` decimal places (tens,
   * hundreds, ... for a negative `digit`), counted in units of the last
   * printed place, `10^-Places(digit)`.
   */
  function RoundedUnits(a: nat, s: nat, digit: int): nat
  {
    if digit >= s then a * Pow10(digit - s)
    else if digit >= 0 then RoundHalfEven(a, Pow10(s - digit))
    else RoundHalfEven(a, Pow10(s - digit)) * Pow10(-digit)
  }

  /** `np.around(x, digit)` as a decimal with `Places(digit)` fraction digits. */
  function Rounded(x: Dec, digit: int): (y: Dec)
    ensures y.scale == Places(digit)
    ensures (y.mant < 0 ==> x.mant < 0) && (x.mant <= 0 ==> y.mant <= 0)
  {
    var u: int := RoundedUnits(Abs(x).mant, x.scale, digit);
    Dec(if x.mant < 0 then -u else u, Places(digit))
  }

  // ---------------------------------------------------------------------
  // Text

  /**
   * `"{:.kf}".format(v)` for a value of `u` units of `10^-k`: an optional
   * minus sign, the integer digits, and for `k > 0` a '.' and `k` digits.
   */
  function FixedPoint(negative: bool, u: nat, k: nat): string
  {
    var (i, f) := DivPow10(u, k);
    (if negative then "-" else "") + Pieces(i, f, k, '.')
  }

  /** Integer digits `i`, and for `k > 0` the `point` and the `k` digits of `f`. */
  function Pieces(i: nat, f: nat, k: nat, point: char): string
  {
    NatDigits(i) + (if k == 0 then "" else [point] + PadDigits(f, k))
  }

  /** `t.replace(a, b)` for single characters. */
  function Replace(t: string, a: char, b: char): (r: string)
    ensures |r| == |t|
    ensures forall i :: 0 <= i < |t| ==> r[i] == (if t[i] == a then b else t[i])
  {
    if t == [] then [] else [if t[0] == a then b else t[0]] + Replace(t[1..], a, b)
  }

  /**
   * `prettify(x, digit)` for a number: the rounded value in fixed notation,
   * the '.' then replaced by ','. The sign is that of `x`, so a negative
   * number that rounds to zero prints as `-0` (the float is `-0.0`).
   */
  function Format(x: Dec, digit: int): (t: string)
    ensures var y := Rounded(x, digit); t == Display(x.mant < 0, Abs(y).mant, y.scale)
  {
    var y := Rounded(x, digit);
    ReplaceFixedPoint(x.mant < 0, Abs(y).mant, y.scale);
    Replace(FixedPoint(x.mant < 0, Abs(y).mant, y.scale), '.', ',')
  }

  /**
   * `prettify(x, digit)` (tablemaker.py:103-132): `None` stays `None`, a
   * missing digit is an error, and otherwise the text reads back as the
   * rounded value and has no leading zero in its integer part.
   */
  function Prettify(x: Option<Dec>, digit: Option<int>): (r: Result<Option<string>, Error>)
    ensures x.None? ==> r == Success(None)
    ensures r.Failure? <==> x.Some? && digit.None?
    ensures r.Failure? ==> r.error == ValueError("Given digit parameter is not an int datatype!")
    ensures r.Success? && x.Some? ==>
              r.value.Some? && ParseDisplay(r.value.value) == Some(Rounded(x.value, digit.value)) &&
              PlainInteger(r.value.value)
    ensures r.Success? && x.Some? ==> r.value.Some? && (r.value.value[0] == '-' <==> x.value.mant < 0)
  {
    match x
    case None => Success(None)
    case Some(v) =>
      match digit
      case None => Failure(ValueError("Given digit parameter is not an int datatype!"))
      case Some(d) =>
        FormatRoundTrip(v, d);
        FormatPlainInteger(v, d);
        FormatSign(v, d);
        Success(Some(Format(v, d)))
  }

  /**
   * Reads a display string back: an optional '-', then integer digits and
   * optionally a ',' followed by at least one fraction digit.
   */
  function ParseDisplay(t: string): Option<Dec>
  {
    if |t| > 0 && t[0] == '-' then
      match ParseUnsigned(t[1..])
      case None => None
      case Some(y) => Some(Dec(-y.mant, y.scale))
    else ParseUnsigned(t)
  }

  /**
   * Integer digits, optionally followed by a ',' and at least one fraction
   * digit: all the digits read as one integer, in units of the last place.
   */
  function ParseUnsigned(t: string): Option<Dec>
  {
    var c := Find(t, ',');
    var ip := if c < 0 then t else t[..c];
    var fp := if c < 0 then "" else t[c + 1..];
    if ip == [] || !AllDigits(ip) || !AllDigits(fp) || (c >= 0 && fp == []) then None
    else Some(Dec(DigitsValue(ip + fp), |fp|))
  }

  // ---------------------------------------------------------------------
  // Shape of the text

  lemma {:induction false} ReplaceAppend(s: string, t: string, a: char, b: char)
    ensures Replace(s + t, a, b) == Replace(s, a, b) + Replace(t, a, b)
  {
    var l := Replace(s + t, a, b);
    var r := Replace(s, a, b) + Replace(t, a, b);
    assert |l| == |r|;
    forall i | 0 <= i < |l|
      ensures l[i] == r[i]
    {
      if i < |s| {
        assert (s + t)[i] == s[i];
      } else {
        assert (s + t)[i] == t[i - |s|];
      }
    }
  }

  lemma ReplaceDigits(t: string, a: char, b: char)
    requires AllDigits(t) && !IsDigit(a)
    ensures Replace(t, a, b) == t
  {
    var r := Replace(t, a, b);
    forall i | 0 <= i < |t|
      ensures r[i] == t[i]
    {
      assert IsDigit(t[i]);
    }
  }

  /** `u` units of `10^-k` in digits: the integer part, and for `k > 0` a ',' and `k` digits. */
  function Unsigned(u: nat, k: nat): string
  {
    var (i, f) := DivPow10(u, k);
    Pieces(i, f, k, ',')
  }

  /** The text a number formats to: an optional '-' and its unsigned digits. */
  function Display(negative: bool, u: nat, k: nat): string
  {
    (if negative then "-" else "") + Unsigned(u, k)
  }

  lemma ReplacePieces(i: nat, f: nat, k: nat)
    ensures Replace(Pieces(i, f, k, '.'), '.', ',') == Pieces(i, f, k, ',')
  {
    ReplaceDigits(NatDigits(i), '.', ',');
    if k > 0 {
      ReplaceAppend(NatDigits(i), "." + PadDigits(f, k), '.', ',');
      ReplaceAppend(".", PadDigits(f, k), '.', ',');
      ReplaceDigits(PadDigits(f, k), '.', ',');
    } else {
      assert Pieces(i, f, k, '.') == NatDigits(i) == Pieces(i, f, k, ',');
    }
  }

  /** Replacing the point of the fixed notation gives the display text. */
  lemma ReplaceFixedPoint(negative: bool, u: nat, k: nat)
    ensures Replace(FixedPoint(negative, u, k), '.', ',') == Display(negative, u, k)
  {
    var (i, f) := DivPow10(u, k);
    var sign := if negative then "-" else "";
    ReplaceAppend(sign, Pieces(i, f, k, '.'), '.', ',');
    assert Replace(sign, '.', ',') == sign;
    ReplacePieces(i, f, k);
  }

  /**
   * The integer part has no leading zero, as `str` of a whole number: after
   * the optional '-', a '0' is the whole integer part.
   */
  predicate PlainInteger(t: string)
  {
    var s := if |t| > 0 && t[0] == '-' then 1 else 0;
    s < |t| && (t[s] == '0' ==> s + 1 == |t| || t[s + 1] == ',')
  }

  /** The integer part of a printed number is `0` or starts with a nonzero digit. */
  lemma FormatPlainInteger(x: Dec, digit: int)
    ensures PlainInteger(Format(x, digit))
  {
    var y := Rounded(x, digit);
    DisplayPlainInteger(x.mant < 0, Abs(y).mant, y.scale);
  }

  lemma DisplayPlainInteger(negative: bool, u: nat, k: nat)
    ensures PlainInteger(Display(negative, u, k))
  {
    var (i, f) := DivPow10(u, k);
    var t := Display(negative, u, k);
    var sign := if negative then "-" else "";
    var digits := NatDigits(i);
    var tail := if k == 0 then "" else "," + PadDigits(f, k);
    assert t == sign + digits + tail;
    var s := |sign|;
    assert t[s] == digits[0];
    if digits[0] == '0' {
      assert i == 0 && digits == "0";
      if k > 0 {
        assert t[s + 1] == ',';
      }
    }
  }

  /** In digits-comma-digits, the comma is the first one. */
  lemma FindAfterDigits(a: string, b: string)
    requires AllDigits(a)
    ensures Find(a + "," + b, ',') == |a|
  {
    var t := a + "," + b;
    assert t[|a|] == ',';
    assert forall j :: 0 <= j < |a| ==> t[j] == a[j] && IsDigit(a[j]);
  }

  lemma FindInDigits(a: string)
    requires AllDigits(a)
    ensures Find(a, ',') == -1
  {
    assert forall j :: 0 <= j < |a| ==> IsDigit(a[j]);
  }

  lemma ParseWhole(i: nat, f: nat)
    ensures ParseUnsigned(Pieces(i, f, 0, ',')) == Some(Dec(i, 0))
  {
    assert Pieces(i, f, 0, ',') == NatDigits(i);
    FindInDigits(NatDigits(i));
    NatDigitsValue(i);
  }

  /** Digits, a comma and digits read back as the number they spell. */
  lemma ParseSplit(ip: string, fp: string)
    requires ip != [] && AllDigits(ip) && fp != [] && AllDigits(fp)
    ensures AllDigits(ip + fp) && ParseUnsigned(ip + "," + fp) == Some(Dec(DigitsValue(ip + fp), |fp|))
  {
    FindAfterDigits(ip, fp);
    CommaSlices(ip, fp);
    ParseAtComma(ip + "," + fp, |ip|, ip, fp);
  }

  lemma CommaSlices(ip: string, fp: string)
    ensures (ip + "," + fp)[..|ip|] == ip && (ip + "," + fp)[|ip| + 1..] == fp
  {
    var t := ip + "," + fp;
    assert t[..|ip|] == ip;
    assert t[|ip| + 1..] == fp;
  }

  lemma ParseAtComma(t: string, c: nat, ip: string, fp: string)
    requires Find(t, ',') == c && c + 1 < |t| && ip == t[..c] && fp == t[c + 1..]
    requires ip != [] && AllDigits(ip) && AllDigits(fp)
    ensures AllDigits(ip + fp) && ParseUnsigned(t) == Some(Dec(DigitsValue(ip + fp), |fp|))
  {
  }

  lemma ParseFraction(i: nat, f: nat, k: nat)
    requires 0 < k
    ensures AllDigits(NatDigits(i) + PadDigits(f, k))
    ensures ParseUnsigned(Pieces(i, f, k, ',')) == Some(Dec(DigitsValue(NatDigits(i) + PadDigits(f, k)), k))
  {
    var ip := NatDigits(i);
    var fp := PadDigits(f, k);
    assert Pieces(i, f, k, ',') == ip + "," + fp;
    ParseSplit(ip, fp);
  }

  /** The integer and fraction digits together spell `i * 10^k + f`. */
  lemma PiecesValue(i: nat, f: nat, k: nat, v: nat)
    requires f < Pow10(k) && v == i * Pow10(k) + f
    ensures AllDigits(NatDigits(i) + PadDigits(f, k)) && DigitsValue(NatDigits(i) + PadDigits(f, k)) == v
  {
    NatDigitsValue(i);
    PadDigitsValue(f, k);
    DigitsValueAppend(NatDigits(i), PadDigits(f, k));
  }

  lemma ParsePieces(i: nat, f: nat, k: nat, v: nat)
    requires f < Pow10(k) && v == i * Pow10(k) + f
    ensures ParseUnsigned(Pieces(i, f, k, ',')) == Some(Dec(v, k))
  {
    if k == 0 {
      assert f == 0 && v == i;
      ParseWhole(i, f);
    } else {
      PiecesValue(i, f, k, v);
      ParseFraction(i, f, k);
    }
  }

  /** The unsigned digits of `u` units of `10^-k` read back as that decimal. */
  lemma ParseUnsignedDisplayed(u: nat, k: nat)
    ensures ParseUnsigned(Unsigned(u, k)) == Some(Dec(u, k))
  {
    var (i, f) := DivPow10(u, k);
    ParsePieces(i, f, k, u);
  }

  lemma PiecesStart(i: nat, f: nat, k: nat)
    ensures Pieces(i, f, k, ',') != [] && IsDigit(Pieces(i, f, k, ',')[0])
  {
    assert Pieces(i, f, k, ',')[0] == NatDigits(i)[0];
  }

  /** A leading '-' negates what the rest reads as. */
  lemma ParseNegative(body: string, u: nat, k: nat)
    requires body != [] && ParseUnsigned(body) == Some(Dec(u, k))
    ensures ParseDisplay("-" + body) == Some(Dec(-(u as int), k))
  {
    assert ("-" + body)[0] == '-' && ("-" + body)[1..] == body;
  }

  /** Without a leading '-' the text reads as an unsigned number. */
  lemma ParsePositive(body: string, y: Dec)
    requires body != [] && IsDigit(body[0]) && ParseUnsigned(body) == Some(y)
    ensures ParseDisplay(body) == Some(y)
  {
  }

  /** A display string reads back as the value it shows. */
  lemma ParseDisplayed(negative: bool, u: nat, k: nat)
    ensures ParseDisplay(Display(negative, u, k)) == Some(Dec(if negative then -(u as int) else u, k))
  {
    if negative {
      ParseDisplayedNegative(u, k);
    } else {
      ParseDisplayedPositive(u, k);
    }
  }

  lemma ParseDisplayedNegative(u: nat, k: nat)
    ensures ParseDisplay(Display(true, u, k)) == Some(Dec(-(u as int), k))
  {
    ParseUnsignedDisplayed(u, k);
    UnsignedStart(u, k);
    assert Display(true, u, k) == "-" + Unsigned(u, k);
    ParseNegative(Unsigned(u, k), u, k);
  }

  lemma ParseDisplayedPositive(u: nat, k: nat)
    ensures ParseDisplay(Display(false, u, k)) == Some(Dec(u, k))
  {
    ParseUnsignedDisplayed(u, k);
    UnsignedStart(u, k);
    assert Display(false, u, k) == Unsigned(u, k);
    ParsePositive(Unsigned(u, k), Dec(u, k));
  }

  lemma UnsignedStart(u: nat, k: nat)
    ensures Unsigned(u, k) != [] && IsDigit(Unsigned(u, k)[0])
  {
    var (i, f) := DivPow10(u, k);
    PiecesStart(i, f, k);
  }

  // ---------------------------------------------------------------------
  // Properties of prettify

  /** The formatted text reads back as exactly the rounded value. */
  lemma FormatRoundTrip(x: Dec, digit: int)
    ensures ParseDisplay(Format(x, digit)) == Some(Rounded(x, digit))
  {
    var y := Rounded(x, digit);
    ParseDisplayed(x.mant < 0, Abs(y).mant, y.scale);
  }

  /**
   * The text uses a decimal comma and never a point; it has a comma exactly
   * when `digit > 0`, and then exactly `digit` digits follow it.
   */
  lemma FormatDecimalComma(x: Dec, digit: int)
    ensures '.' !in Format(x, digit)
    ensures ',' in Format(x, digit) <==> digit > 0
    ensures digit > 0 ==> var t := Format(x, digit);
              |t| > digit && t[|t| - digit - 1] == ',' && AllDigits(t[|t| - digit..])
  {
    var y := Rounded(x, digit);
    DisplayComma(x.mant < 0, Abs(y).mant, y.scale);
  }

  /** The comma layout of `Display`: no point, and a comma followed by `k` digits exactly when `k > 0`. */
  lemma DisplayComma(negative: bool, u: nat, k: nat)
    ensures '.' !in Display(negative, u, k)
    ensures ',' in Display(negative, u, k) <==> k > 0
    ensures k > 0 ==> var t := Display(negative, u, k);
              |t| > k && t[|t| - k - 1] == ',' && AllDigits(t[|t| - k..])
  {
    DisplayChars(negative, u, k);
    if k > 0 {
      DisplayTail(negative, u, k);
    }
  }

  /** With `k > 0` the last `k` characters are the padded fraction digits, after a ','. */
  lemma DisplayTail(negative: bool, u: nat, k: nat)
    requires k > 0
    ensures var t := Display(negative, u, k);
              |t| > k && t[|t| - k - 1] == ',' && t[|t| - k..] == PadDigits(DivPow10(u, k).1, k)
  {
    var (i, f) := DivPow10(u, k);
    var t := Display(negative, u, k);
    var sign := if negative then "-" else "";
    assert t == sign + NatDigits(i) + ("," + PadDigits(f, k));
    assert t[|t| - k - 1] == ',';
    assert t[|t| - k..] == PadDigits(f, k);
  }

  /** No character of a display string is a '.', and a ',' appears only for `k > 0`, `k + 1` from the end. */
  lemma DisplayChars(negative: bool, u: nat, k: nat)
    ensures var t := Display(negative, u, k);
              forall j :: 0 <= j < |t| ==> t[j] != '.' && (t[j] == ',' ==> k > 0 && j == |t| - k - 1)
  {
    var (i, f) := DivPow10(u, k);
    var t := Display(negative, u, k);
    var sign := if negative then "-" else "";
    var digits := NatDigits(i);
    var tail := if k == 0 then "" else "," + PadDigits(f, k);
    assert t == sign + digits + tail;
    forall j | 0 <= j < |t|
      ensures t[j] != '.' && (t[j] == ',' ==> k > 0 && j == |t| - k - 1)
    {
      if j < |sign| {
        assert t[j] == '-';
      } else if j < |sign| + |digits| {
        assert t[j] == digits[j - |sign|];
        assert IsDigit(digits[j - |sign|]);
      } else {
        assert t[j] == tail[j - |sign| - |digits|];
        if j > |sign| + |digits| {
          assert t[j] == PadDigits(f, k)[j - |sign| - |digits| - 1];
          assert IsDigit(PadDigits(f, k)[j - |sign| - |digits| - 1]);
        }
      }
    }
  }

  /**
   * Rounding moves the value by at most half a unit of the last place kept,
   * `|y - x| <= 10^-digit / 2`, here multiplied through by
   * `10^(x.scale + Places(digit))`.
   */
  lemma RoundedNearest(x: Dec, digit: int)
    ensures var y := Rounded(x, digit);
            HalfUnit(y.mant * Pow10(x.scale) - x.mant * Pow10(y.scale), Pow10(x.scale + Places(-digit)))
  {
    var a := Abs(x).mant;
    var u := RoundedUnits(a, x.scale, digit);
    UnitsNearest(a, x.scale, digit);
    var sg := if x.mant < 0 then -1 else 1;
    assert x.mant == sg * a && Rounded(x, digit).mant == sg * u;
    SignedHalfUnit(sg, a, u, Pow10(x.scale), Pow10(Places(digit)), Pow10(x.scale + Places(-digit)));
  }

  /** A bound on the distance of magnitudes holds for the signed values. */
  lemma SignedHalfUnit(sg: int, a: nat, u: nat, ps: nat, pk: nat, b: nat)
    requires sg == 1 || sg == -1
    requires HalfUnit(u * ps - a * pk, b)
    ensures HalfUnit(sg * u * ps - sg * a * pk, b)
  {
    assert sg * u * ps - sg * a * pk == sg * (u * ps - a * pk);
  }

  /** `RoundedNearest` for the magnitude. */
  lemma UnitsNearest(a: nat, s: nat, digit: int)
    ensures HalfUnit(RoundedUnits(a, s, digit) * Pow10(s) - a * Pow10(Places(digit)),
                     Pow10(s + Places(-digit)))
  {
    if digit >= s {
      UnitsExact(a, s, digit);
    } else if digit >= 0 {
      UnitsFraction(a, s, digit);
    } else {
      UnitsTens(a, s, digit);
    }
  }

  /** With at least as many places as `s`, the units are exact. */
  lemma UnitsExact(a: nat, s: nat, digit: int)
    requires digit >= s
    ensures RoundedUnits(a, s, digit) * Pow10(s) == a * Pow10(Places(digit))
  {
    var p := Pow10(digit - s);
    assert RoundedUnits(a, s, digit) == a * p;
    assert Places(digit) == digit;
    Pow10Add(digit - s, s);
    MulAssoc(a, p, Pow10(s));
  }

  lemma UnitsFraction(a: nat, s: nat, digit: int)
    requires 0 <= digit < s
    ensures HalfUnit(RoundedUnits(a, s, digit) * Pow10(s) - a * Pow10(digit), Pow10(s))
  {
    var d := Pow10(s - digit);
    Pow10Add(s - digit, digit);
    ScaleBound(a, RoundHalfEven(a, d), d, Pow10(digit));
  }

  lemma UnitsTens(a: nat, s: nat, digit: int)
    requires digit < 0
    ensures HalfUnit(RoundedUnits(a, s, digit) * Pow10(s) - a, Pow10(s - digit))
  {
    var d := Pow10(s - digit);
    var q := RoundHalfEven(a, d);
    var p := Pow10(-digit);
    assert RoundedUnits(a, s, digit) == q * p;
    assert p * Pow10(s) == d by {
      Pow10Add(-digit, s);
    }
    assert q * p * Pow10(s) == q * d by {
      assert q * p * Pow10(s) == q * (p * Pow10(s));
    }
    assert Near(a, d, q);
  }

  lemma MulMonoLeft(x: int, y: int, p: nat)
    requires x <= y
    ensures x * p <= y * p
  {
  }

  /** Multiplying a half-unit bound on `a - q*d` through by `p`. */
  lemma ScaleBound(a: nat, q: nat, d: nat, p: nat)
    requires Near(a, d, q)
    ensures HalfUnit(q * (d * p) - a * p, d * p)
  {
    var e := a - q * d;
    assert q * (d * p) - a * p == -(e * p);
    MulMonoLeft(2 * e, d, p);
    MulMonoLeft(2 * -e, d, p);
  }

  /** Rounding to at least as many places as the number has leaves it unchanged. */
  lemma RoundedExact(x: Dec, digit: int)
    requires x.scale <= digit
    ensures SameValue(Rounded(x, digit), x)
  {
    var y := Rounded(x, digit);
    var a := Abs(x).mant;
    var u := RoundedUnits(a, x.scale, digit);
    UnitsExact(a, x.scale, digit);
    if x.mant < 0 {
      assert y.mant == -(u as int) && x.mant == -(a as int);
      NegateBoth(u, a, Pow10(x.scale), Pow10(Places(digit)));
    } else {
      assert y.mant == u && x.mant == a;
    }
  }

  lemma NegateBoth(m: int, n: int, p: int, q: int)
    requires m * p == n * q
    ensures (-m) * p == (-n) * q
  {
  }

  /**
   * The text starts with a minus sign exactly when `x` is negative (the sign
   * of the float `np.around` returns), and otherwise with a digit.
   */
  lemma FormatSign(x: Dec, digit: int)
    ensures Format(x, digit) != []
    ensures Format(x, digit)[0] == '-' <==> x.mant < 0
    ensures x.mant >= 0 ==> IsDigit(Format(x, digit)[0])
  {
    var y := Rounded(x, digit);
    UnsignedStart(Abs(y).mant, y.scale);
    if x.mant < 0 {
      assert Format(x, digit) == "-" + Unsigned(Abs(y).mant, y.scale);
    } else {
      assert Format(x, digit) == Unsigned(Abs(y).mant, y.scale);
    }
  }

  // ---------------------------------------------------------------------
  // Rounding, characterized by value

  /**
   * `m / 10^Places(digit)` rounds `xm / 10^s` to `digit` places: it is a
   * whole number of units `10^-digit` (`p` of its own units), at most half a
   * unit away, and an even number of units on a tie. The distance is counted
   * in units of `10^-(s + Places(digit))`, in which `10^-digit` is `unit`.
   */
  predicate Fits(m: int, xm: int, s: nat, digit: int)
  {
    var p := Pow10(Places(-digit));
    var diff := m * Pow10(s) - xm * Pow10(Places(digit));
    var unit := Pow10(s + Places(-digit));
    m % p == 0 && HalfUnit(diff, unit) &&
    ((2 * diff == unit || 2 * -diff == unit) ==> (m / p) % 2 == 0)
  }

  /** `z` is a value rounding `x` to `digit` places may give, with `Places(digit)` fraction digits. */
  predicate RoundingOf(x: Dec, digit: int, z: Dec)
  {
    z.scale == Places(digit) && Fits(z.mant, x.mant, x.scale, digit)
  }

  /** `Rounded` rounds: a whole number of units, within half a unit, and even on a tie. */
  lemma RoundedIsRounding(x: Dec, digit: int)
    ensures RoundingOf(x, digit, Rounded(x, digit))
  {
    var a := Abs(x).mant;
    var u := RoundedUnits(a, x.scale, digit);
    UnitsFit(a, x.scale, digit, u);
    if x.mant < 0 {
      FitsNeg(u, a, x.scale, digit);
      assert Rounded(x, digit).mant == -(u as int) && x.mant == -(a as int);
    } else {
      assert Rounded(x, digit).mant == u && x.mant == a;
    }
  }

  /** Any value that rounds `x` to `digit` places is `Rounded(x, digit)`. */
  lemma RoundedUnique(x: Dec, digit: int, z: Dec)
    requires RoundingOf(x, digit, z)
    ensures z == Rounded(x, digit)
  {
    var a := Abs(x).mant;
    var s := x.scale;
    if x.mant < 0 {
      assert x.mant == -a;
      FitsNeg(-z.mant, a, s, digit);
      FitsSign(-z.mant, a, s, digit);
      UnitsFit(a, s, digit, -z.mant);
    } else {
      FitsSign(z.mant, a, s, digit);
      UnitsFit(a, s, digit, z.mant);
    }
  }

  /** Rounding a non-negative number never gives a negative value. */
  lemma FitsSign(m: int, a: nat, s: nat, digit: int)
    requires Fits(m, a, s, digit)
    ensures m >= 0
  {
    if m < 0 {
      NegativeMultipleBelow(m, a, s, digit);
    }
  }

  /** A negative multiple of the unit lies a whole unit or more below a non-negative number. */
  lemma NegativeMultipleBelow(m: int, a: nat, s: nat, digit: int)
    requires m < 0 && m % Pow10(Places(-digit)) == 0
    ensures m * Pow10(s) - a * Pow10(Places(digit)) <= -(Pow10(s + Places(-digit)) as int)
  {
    var p := Pow10(Places(-digit));
    var ps := Pow10(s);
    assert m == (m / p) * p;
    MulMonoLeft(m / p, -1, p);
    MulMonoLeft(m, -(p as int), ps);
    Pow10Add(s, Places(-digit));
    assert -(p as int) * ps == -((ps * p) as int);
  }

  /** Rounding commutes with negation. */
  lemma FitsNeg(m: int, xm: int, s: nat, digit: int)
    ensures Fits(-m, -xm, s, digit) <==> Fits(m, xm, s, digit)
  {
    var p := Pow10(Places(-digit));
    assert (-m) * Pow10(s) - (-xm) * Pow10(Places(digit)) == -(m * Pow10(s) - xm * Pow10(Places(digit)));
    if m % p == 0 {
      assert m == (m / p) * p;
      ExactDiv(-(m / p), p);
      assert -m == -(m / p) * p;
    }
    if (-m) % p == 0 {
      assert -m == ((-m) / p) * p;
      ExactDiv(-((-m) / p), p);
      assert m == -((-m) / p) * p;
    }
  }

  /** An exact multiple of `p` divides back to its factor. */
  lemma ExactDiv(q: int, p: nat)
    requires p > 0
    ensures (q * p) % p == 0 && (q * p) / p == q
  {
    var m := q * p;
    var r := m / p;
    assert (q - r) * p == m % p;
    if q - r >= 1 {
      MulMonoLeft(1, q - r, p);
    } else if q - r <= -1 {
      MulMonoLeft(q - r, -1, p);
    }
  }

  /** Scaling a difference and a unit by the same positive factor changes no comparison. */
  lemma ScaleCancel(c: nat, e: int, d: nat)
    requires c > 0
    ensures HalfUnit(c * e, c * d) <==> HalfUnit(e, d)
    ensures 2 * (c * e) == c * d <==> 2 * e == d
    ensures 2 * -(c * e) == c * d <==> 2 * -e == d
  {
    assert 2 * (c * e) == c * (2 * e);
    assert 2 * -(c * e) == c * (2 * -e);
    MulCancel(c, 2 * e, d);
    MulCancel(c, 2 * -e, d);
  }

  lemma MulCancel(c: nat, x: int, y: int)
    requires c > 0
    ensures c * x <= c * y <==> x <= y
    ensures c * x == c * y <==> x == y
  {
    if x <= y {
      MulMonoLeft(x, y, c);
      assert c * x == x * c && c * y == y * c;
    } else {
      MulMonoLeft(y + 1, x, c);
      assert c * x == x * c && c * y == y * c;
    }
  }

  /** The magnitude of `Rounded` is the one rounding of the magnitude. */
  lemma UnitsFit(a: nat, s: nat, digit: int, w: nat)
    ensures Fits(w, a, s, digit) <==> w == RoundedUnits(a, s, digit)
  {
    if digit >= s {
      FitsExact(a, s, digit, w);
    } else if digit >= 0 {
      FitsFraction(a, s, digit, w);
    } else {
      FitsTens(a, s, digit, w);
    }
  }

  lemma FitsExact(a: nat, s: nat, digit: int, w: nat)
    requires digit >= s
    ensures Fits(w, a, s, digit) <==> w == RoundedUnits(a, s, digit)
  {
    var u := RoundedUnits(a, s, digit);
    var ps := Pow10(s);
    UnitsExact(a, s, digit);
    assert Places(-digit) == 0 && Pow10(0) == 1;
    assert w * ps - a * Pow10(Places(digit)) == ps * (w - u);
    ScaleCancel(ps, w - u, 1);
    assert ps * 1 == ps;
  }

  lemma FitsFraction(a: nat, s: nat, digit: int, w: nat)
    requires 0 <= digit < s
    ensures Fits(w, a, s, digit) <==> w == RoundedUnits(a, s, digit)
  {
    var d := Pow10(s - digit);
    var c := Pow10(digit);
    Pow10Add(digit, s - digit);
    assert Places(-digit) == 0 && Places(digit) == digit && Pow10(0) == 1;
    assert w * Pow10(s) - a * c == c * (w * d - a);
    ScaleCancel(c, w * d - a, d);
    if Fits(w, a, s, digit) {
      assert Near(a, d, w);
      RoundHalfEvenUnique(a, d, w);
    }
  }

  lemma FitsTens(a: nat, s: nat, digit: int, w: nat)
    requires digit < 0
    ensures Fits(w, a, s, digit) <==> w == RoundedUnits(a, s, digit)
  {
    var p := Pow10(-digit);
    var d := Pow10(s - digit);
    var q0 := RoundHalfEven(a, d);
    assert RoundedUnits(a, s, digit) == q0 * p;
    FitsTensUnits(a, s, digit, q0);
    if Fits(w, a, s, digit) {
      assert Places(-digit) == -digit;
      var q := w / p;
      assert w == q * p;
      FitsTensUnits(a, s, digit, q);
      RoundHalfEvenUnique(a, d, q);
    }
  }

  /** For a negative `digit`, fitting `q` units of `10^-digit` is `Near` with ties to even. */
  lemma FitsTensUnits(a: nat, s: nat, digit: int, q: nat)
    requires digit < 0
    ensures Fits(q * Pow10(-digit), a, s, digit) <==>
              Near(a, Pow10(s - digit), q) && (Tie(a, Pow10(s - digit), q) ==> q % 2 == 0)
  {
    var p := Pow10(-digit);
    var d := Pow10(s - digit);
    assert Places(digit) == 0 && Places(-digit) == -digit && Pow10(0) == 1;
    Pow10Add(s, -digit);
    assert q * p * Pow10(s) == q * d by {
      assert q * p * Pow10(s) == q * (Pow10(s) * p);
    }
    ExactDiv(q, p);
  }

  /** A formatted text, from the rounded units and their display. */
  lemma FormatOf(x: Dec, digit: int, u: nat, t: string)
    requires Abs(Rounded(x, digit)).mant == u
    requires Display(x.mant < 0, u, Places(digit)) == t
    ensures Format(x, digit) == t
  {
  }

  /** Ties go to the even neighbour: 2.5 prints as 2 and 3.5 as 4. */
  lemma FormatTieExamples()
    ensures Format(Dec(25, 1), 0) == "2"
    ensures Format(Dec(35, 1), 0) == "4"
  {
    assert Split(25, 10) == (2, 5);
    assert Split(35, 10) == (3, 5);
    FormatOf(Dec(25, 1), 0, 2, "2");
    FormatOf(Dec(35, 1), 0, 4, "4");
  }

  /** A negative digit rounds to tens: 82.33 prints as 80. */
  lemma FormatTensExample()
    ensures Format(Dec(8233, 2), -1) == "80"
  {
    assert Pow10(3) == 1000;
    assert Split(8233, 1000) == (8, 233);
    assert RoundHalfEven(8233, 1000) == 8;
    FormatOf(Dec(8233, 2), -1, 80, "80");
  }

  /** A negative number that rounds to zero keeps its sign: -0.004 prints as -0,00. */
  lemma FormatNegativeZeroExample()
    ensures Format(Dec(-4, 3), 2) == "-0,00"
  {
    assert Split(4, 10) == (0, 4);
    assert DivPow10(0, 2) == (0, 0);
    FormatOf(Dec(-4, 3), 2, 0, "-0,00");
  }

  /** Exact values keep their digits, padded: 2 with one place prints as 2,0. */
  lemma FormatPaddedExample()
    ensures Format(Dec(2, 0), 1) == "2,0"
  {
    assert DivPow10(20, 1) == (2, 0);
    FormatOf(Dec(2, 0), 1, 20, "2,0");
  }
}
