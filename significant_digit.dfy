/**
 * `Labs.first_nonzero` (tablemaker.py): the decimal position of the first
 * significant digit of a number, found by scanning the text of `abs(x)`.
 */
module SignificantDigit {
  import opened Wrappers
  import opened Decimals

  /**
   * `str(float(x))` for a non-negative decimal printed in plain notation:
   * integer digits, a '.', then the fractional digits without trailing
   * zeros, but at least one.
   */
  function PlainText(x: Dec): string
    requires x.mant >= 0
  {
    FixedText(Normalize(x))
  }

  /** The integer digits of `y`, a '.', and its `scale` fractional digits (at least one). */
  function FixedText(y: Dec): string
    requires y.mant >= 0
  {
    var (i, r) := DivPow10(y.mant, y.scale);
    NatDigits(i) + "." + (if y.scale == 0 then "0" else PadDigits(r, y.scale))
  }

  /** Python prints a float in plain notation exactly when 1e-4 <= |x| < 1e16. */
  predicate InPlainRange(x: Dec)
  {
    var a := Abs(x).mant;
    Pow10(x.scale) <= a * Pow10(4) && a < Pow10(16 + x.scale)
  }

  predicate NoPoint(t: string)
  {
    forall i :: 0 <= i < |t| ==> t[i] != '.'
  }

  /** The characters of `t` other than '.', in order: the digit list of the scan. */
  function DigitsOf(t: string): (ds: string)
    ensures NoPoint(t) ==> ds == t
  {
    if t == [] then [] else (if t[0] == '.' then "" else [t[0]]) + DigitsOf(t[1..])
  }

  /** `next((i for i, d in enumerate(ds) if d), None)` over digit characters. */
  function FirstNonzeroIndex(ds: string): (r: Option<nat>)
    ensures r.None? ==> forall j :: 0 <= j < |ds| ==> ds[j] == '0'
    ensures r.Some? ==> r.value < |ds| && ds[r.value] != '0' &&
                        forall j :: 0 <= j < r.value ==> ds[j] == '0'
  {
    if ds == [] then None
    else if ds[0] != '0' then Some(0)
    else match FirstNonzeroIndex(ds[1..])
      case None => None
      case Some(k) => Some(k + 1)
  }

  /**
   * The scan of tablemaker.py:97-100 over the text of `abs(x)`: the index of
   * the first nonzero digit minus the index of the point, plus one.
   */
  function ScanPosition(t: string): int
    requires FirstNonzeroIndex(DigitsOf(t)).Some?
  {
    FirstNonzeroIndex(DigitsOf(t)).value - Find(t, '.') + 1
  }

  /**
   * `first_nonzero(x)` for a number: 0 for zero, otherwise the scan of the
   * text of `|x|`. The result is the decimal position of the leading digit,
   * `scale + 1 - (number of digits of the mantissa)`.
   */
  function FirstNonzero(x: Dec): (r: int)
    requires IsZero(x) || InPlainRange(x)
    ensures IsZero(x) ==> r == 0
    ensures !IsZero(x) ==> r == x.scale + 1 - NumDigits(Abs(x).mant)
  {
    if IsZero(x) then 0
    else
      ScanOfPlainText(Abs(x));
      ScanPosition(PlainText(Abs(x)))
  }

  /** What `int('e')` raises when the text of `abs(x)` is in exponent notation. */
  const ExponentError := ValueError("invalid literal for int() with base 10: 'e'")

  /**
   * `first_nonzero(x)` on an optional number (tablemaker.py:86-100): `None`
   * gives `None`, zero gives 0, a number printed in exponent notation makes
   * the digit conversion fail, and any other number gives its scan.
   */
  function FirstNonzeroChecked(x: Option<Dec>): (r: Result<Option<int>, Error>)
    ensures x.None? ==> r == Success(None)
    ensures r.Failure? <==> x.Some? && !IsZero(x.value) && !InPlainRange(x.value)
    ensures r.Failure? ==> r.error == ExponentError
    ensures r.Success? && x.Some? ==> r.value.Some?
    ensures r.Success? && x.Some? && IsZero(x.value) ==> r.value == Some(0)
    ensures r.Success? && x.Some? && !IsZero(x.value) ==>
              r.value == Some(x.value.scale + 1 - NumDigits(Abs(x.value).mant))
  {
    match x
    case None => Success(None)
    case Some(v) =>
      if IsZero(v) || InPlainRange(v) then Success(Some(FirstNonzero(v)))
      else Failure(ExponentError)
  }

  // ---------------------------------------------------------------------
  // The scan over the plain text

  lemma FirstNonzeroIndexIs(ds: string, k: nat)
    requires k < |ds| && ds[k] != '0'
    requires forall j :: 0 <= j < k ==> ds[j] == '0'
    ensures FirstNonzeroIndex(ds) == Some(k)
  {
  }

  lemma {:induction false} DigitsOfAppend(a: string, b: string)
    ensures DigitsOf(a + b) == DigitsOf(a) + DigitsOf(b)
  {
    if a != [] {
      assert (a + b)[0] == a[0];
      assert (a + b)[1..] == a[1..] + b;
      DigitsOfAppend(a[1..], b);
    } else {
      assert a + b == b;
    }
  }

  lemma FindFirst(a: string, c: char, b: string)
    requires c !in a
    ensures Find(a + [c] + b, c) == |a|
  {
    var t := a + [c] + b;
    assert t[|a|] == c;
    assert forall i :: 0 <= i < |a| ==> t[i] == a[i];
  }

  lemma DigitsNoPoint(t: string)
    requires AllDigits(t)
    ensures NoPoint(t) && '.' !in t
  {
    assert forall i :: 0 <= i < |t| ==> IsDigit(t[i]);
  }

  /** Around a single '.', the digit list is the text without it. */
  lemma DigitsOfSplit(it: string, ft: string)
    requires NoPoint(it) && NoPoint(ft)
    ensures DigitsOf(it + "." + ft) == it + ft
  {
    DigitsOfAppend(it, ".");
    assert DigitsOf(".") == [];
    assert DigitsOf(it) == it && it + [] == it;
    DigitsOfAppend(it + ".", ft);
    assert DigitsOf(ft) == ft;
  }

  /** With digits around one '.', the digit list drops the '.' and the point sits after the integer digits. */
  lemma ScanSplit(it: string, ft: string)
    requires AllDigits(it) && AllDigits(ft)
    ensures DigitsOf(it + "." + ft) == it + ft
    ensures Find(it + "." + ft, '.') == |it|
  {
    DigitsNoPoint(it);
    DigitsNoPoint(ft);
    DigitsOfSplit(it, ft);
    FindFirst(it, '.', ft);
  }

  /** In the `k` low digits of `r`, the first nonzero one follows `k - len(str(r))` zeros. */
  lemma {:induction false} PadFirstNonzero(r: nat, k: nat)
    requires 0 < r < Pow10(k)
    ensures NumDigits(r) <= k
    ensures FirstNonzeroIndex(PadDigits(r, k)) == Some(k - NumDigits(r))
  {
    var t := PadDigits(r, k);
    NumDigitsBounds(r);
    if NumDigits(r) > k { Pow10AtMost(k, NumDigits(r) - 1); }
    if r / 10 == 0 {
      DigitsZero(k - 1);
      assert t[..k - 1] == PadDigits(0, k - 1);
      assert forall j :: 0 <= j < k - 1 ==> t[j] == t[..k - 1][j];
      assert t[k - 1] == DigitChar(r % 10);
      FirstNonzeroIndexIs(t, k - 1);
    } else {
      PadFirstNonzero(r / 10, k - 1);
      var i := k - 1 - NumDigits(r / 10);
      assert t[..k - 1] == PadDigits(r / 10, k - 1);
      assert forall j :: 0 <= j < k - 1 ==> t[j] == t[..k - 1][j];
      FirstNonzeroIndexIs(t, i);
    }
  }

  /** For a number of at least 1 the first nonzero digit is the first character. */
  lemma ScanWholePart(i: nat, ft: string)
    requires i > 0 && AllDigits(ft)
    ensures FirstNonzeroIndex(DigitsOf(NatDigits(i) + "." + ft)).Some?
    ensures ScanPosition(NatDigits(i) + "." + ft) == 1 - NumDigits(i)
  {
    ScanSplit(NatDigits(i), ft);
    FirstNonzeroIndexIs(NatDigits(i) + ft, 0);
  }

  /** For a number below 1 the first nonzero digit follows the leading zeros of the fraction. */
  lemma ScanFractionPart(a: nat, s: nat)
    requires 0 < a < Pow10(s)
    ensures FirstNonzeroIndex(DigitsOf("0" + "." + PadDigits(a, s))).Some?
    ensures ScanPosition("0" + "." + PadDigits(a, s)) == s + 1 - NumDigits(a)
  {
    var ft := PadDigits(a, s);
    ScanSplit("0", ft);
    PadFirstNonzero(a, s);
    var k := s - NumDigits(a);
    assert ("0" + ft)[1 + k] == ft[k];
    FirstNonzeroIndexIs("0" + ft, 1 + k);
  }

  /** The scan over the fixed text of a positive decimal finds the position of its leading digit. */
  lemma ScanOfFixedText(a: nat, s: nat)
    requires a > 0
    ensures FirstNonzeroIndex(DigitsOf(FixedText(Dec(a, s)))).Some?
    ensures ScanPosition(FixedText(Dec(a, s))) == s + 1 - NumDigits(a)
  {
    var (i, r) := DivPow10(a, s);
    if i > 0 {
      var ft := if s == 0 then "0" else PadDigits(r, s);
      ScanWholePart(i, ft);
      DigitCountShift(i, s, r);
    } else {
      assert s > 0 && r == a;
      ScanFractionPart(a, s);
    }
  }

  /**
   * The scan over the plain text of a positive decimal yields the decimal
   * position of its leading digit; dropping trailing zeros does not move it.
   */
  lemma ScanOfPlainText(x: Dec)
    requires x.mant > 0
    ensures FirstNonzeroIndex(DigitsOf(PlainText(x))).Some?
    ensures ScanPosition(PlainText(x)) == x.scale + 1 - NumDigits(x.mant)
  {
    var y := Normalize(x);
    assert y.mant > 0;
    ScanOfFixedText(y.mant, y.scale);
    DigitCountShift(y.mant, x.scale - y.scale, 0);
  }

  // ---------------------------------------------------------------------
  // Properties of first_nonzero

  /**
   * The edges of plain notation: 0.0001 prints plainly and scans to 4, while
   * 0.000005 prints as `5e-06` and 10^16 as `1e+16`, so both fail.
   */
  lemma FirstNonzeroRangeEdges()
    ensures FirstNonzeroChecked(Some(Dec(1, 4))) == Success(Some(4))
    ensures FirstNonzeroChecked(Some(Dec(5, 6))) == Failure(ExponentError)
    ensures FirstNonzeroChecked(Some(Dec(Pow10(16), 0))) == Failure(ExponentError)
  {
  }

  /** The result depends only on `abs(x)`. */
  lemma FirstNonzeroSymmetric(x: Dec)
    requires IsZero(x) || InPlainRange(x)
    ensures IsZero(Neg(x)) || InPlainRange(Neg(x))
    ensures FirstNonzero(Neg(x)) == FirstNonzero(x)
  {
    assert Abs(Neg(x)) == Abs(x);
  }

  /**
   * For a nonzero `x`, the result is at most 0 exactly when `|x| >= 1`, and
   * so at least 1 exactly when `0 < |x| < 1`.
   */
  lemma {:induction false} FirstNonzeroSign(x: Dec)
    requires InPlainRange(x) && !IsZero(x)
    ensures FirstNonzero(x) <= 0 <==> Abs(x).mant >= Pow10(x.scale)
  {
    DigitsReachScale(Abs(x).mant, x.scale);
  }

  /** A positive `a` has more than `s` digits exactly when `a >= 10^s`. */
  lemma DigitsReachScale(a: nat, s: nat)
    requires a > 0
    ensures NumDigits(a) >= s + 1 <==> a >= Pow10(s)
  {
    var l := NumDigits(a);
    NumDigitsBounds(a);
    if l >= s + 1 {
      Pow10AtMost(s, l - 1);
    } else {
      Pow10AtMost(l, s);
    }
  }

  lemma ScaledLowerBound(a: nat, l: nat, s: nat)
    requires l >= 1 && Pow10(l - 1) <= a
    ensures Pow10(l - 1 + s) <= a * Pow10(s)
  {
    Pow10Add(l - 1, s);
    MulAtMost(Pow10(l - 1), a, Pow10(s));
  }

  lemma ScaledUpperBound(b: nat, l: nat, s: nat)
    requires b < Pow10(l)
    ensures b * Pow10(s) < Pow10(l + s)
  {
    var p := Pow10(s);
    Pow10Add(l, s);
    MulAtMost(b + 1, Pow10(l), p);
    assert (b + 1) * p == b * p + p;
  }

  /** The arithmetic behind LeadingPositionMonotone, with the digit counts as plain numbers. */
  lemma DigitCountsOrdered(a: nat, sa: nat, b: nat, sb: nat, la: nat, lb: nat)
    requires la >= 1 && Pow10(la - 1) <= a && b < Pow10(lb)
    requires a * Pow10(sb) <= b * Pow10(sa)
    ensures sa - la >= sb - lb
  {
    if sa - la < sb - lb {
      // 10^(lb + sa) <= 10^(la - 1 + sb) <= a * 10^sb <= b * 10^sa < 10^(lb + sa)
      ScaledLowerBound(a, la, sb);
      ScaledUpperBound(b, lb, sa);
      Pow10AtMost(lb + sa, la - 1 + sb);
    }
  }

  /** `a / 10^sa <= b / 10^sb` puts the leading digit of `a` no further left. */
  lemma LeadingPositionMonotone(a: nat, sa: nat, b: nat, sb: nat)
    requires a > 0 && a * Pow10(sb) <= b * Pow10(sa)
    ensures sa - NumDigits(a) >= sb - NumDigits(b)
  {
    NumDigitsBounds(a);
    NumDigitsBounds(b);
    LeadingPositionOrdered(a, sa, b, sb);
  }

  lemma LeadingPositionOrdered(a: nat, sa: nat, b: nat, sb: nat)
    requires a > 0 && a * Pow10(sb) <= b * Pow10(sa)
    requires Pow10(NumDigits(a) - 1) <= a && b < Pow10(NumDigits(b))
    ensures sa - NumDigits(a) >= sb - NumDigits(b)
  {
    DigitCountsOrdered(a, sa, b, sb, NumDigits(a), NumDigits(b));
  }

  /** The smaller the magnitude, the further right the first significant digit. */
  lemma FirstNonzeroMonotone(x: Dec, y: Dec)
    requires InPlainRange(x) && InPlainRange(y) && !IsZero(x)
    requires AtMost(Abs(x), Abs(y))
    ensures FirstNonzero(x) >= FirstNonzero(y)
  {
    LeadingPositionMonotone(Abs(x).mant, x.scale, Abs(y).mant, y.scale);
  }

  /** Small whole values the test file pins (test_labs_pytest.py:33-34). */
  lemma FirstNonzeroSmallWholeExamples()
    ensures FirstNonzero(Dec(0, 1)) == 0
    ensures FirstNonzero(Dec(6, 0)) == 0
    ensures FirstNonzero(Dec(12, 0)) == -1
    ensures FirstNonzero(Dec(146, 0)) == -2
  {
  }

  /** A five-digit whole value the test file pins (test_labs_pytest.py:33-34). */
  lemma FirstNonzeroLargeWholeExample()
    ensures FirstNonzero(Dec(19023, 0)) == -4
  {
    assert NumDigits(19023) == 5;
  }

  /** Fractional values the test file pins (test_labs_pytest.py:33-34). */
  lemma FirstNonzeroFractionExamples()
    ensures InPlainRange(Dec(-52, 3)) && FirstNonzero(Dec(-52, 3)) == 2
    ensures InPlainRange(Dec(28, 2)) && FirstNonzero(Dec(28, 2)) == 1
  {
    assert NumDigits(52) == 2 && NumDigits(28) == 2;
    assert Abs(Dec(-52, 3)) == Dec(52, 3);
    assert Pow10(2) == 100 && Pow10(3) == 1000 && Pow10(4) == 10000;
    Pow10AtMost(2, 18);
  }

  /** A value with six fraction digits the test file pins (test_labs_pytest.py:33-34). */
  lemma FirstNonzeroSmallFractionExample()
    ensures FirstNonzero(Dec(197, 6)) == 4
  {
  }

  /** Fractional values with trailing zeros the test file pins (test_labs_pytest.py:33-34). */
  lemma FirstNonzeroLongFractionExamples()
    ensures FirstNonzero(Dec(8392, 4)) == 1
    ensures FirstNonzero(Dec(720, 5)) == 3
  {
    assert NumDigits(8392) == 4;
    assert NumDigits(720) == 3;
  }
}
