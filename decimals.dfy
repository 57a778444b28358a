/**
 * Exact decimal numbers and their decimal digit text.
 *
 * The source works on Python floats; this model works on the exact decimal
 * each float prints as, `mant / 10^scale`.
 */
module Decimals {

  /** The number `mant / 10^scale`. */
  datatype Dec = Dec(mant: int, scale: nat)

  function Pow10(k: nat): (p: nat)
    ensures p >= 1
  {
    if k == 0 then 1 else 10 * Pow10(k - 1)
  }

  lemma {:induction false} Pow10Add(a: nat, b: nat)
    ensures Pow10(a + b) == Pow10(a) * Pow10(b)
  {
    if a > 0 {
      Pow10Add(a - 1, b);
      assert Pow10(a + b) == 10 * (Pow10(a - 1) * Pow10(b));
    }
  }

  lemma {:induction false} Pow10Less(a: nat, b: nat)
    requires a < b
    ensures Pow10(a) < Pow10(b)
  {
    Pow10Add(a, b - a);
    assert Pow10(b - a) >= 10;
  }

  lemma Pow10AtMost(a: nat, b: nat)
    requires a <= b
    ensures Pow10(a) <= Pow10(b)
  {
    if a < b { Pow10Less(a, b); }
  }

  lemma DivMod(a: nat, p: nat)
    requires p > 0
    ensures a / p >= 0 && a == (a / p) * p + a % p && 0 <= a % p < p
  {
  }

  /** `a` split into its part above and its `s` digits below the decimal point. */
  function DivPow10(a: nat, s: nat): (qr: (nat, nat))
    ensures a == qr.0 * Pow10(s) + qr.1 && qr.1 < Pow10(s)
  {
    var p := Pow10(s);
    DivMod(a, p);
    (a / p, a % p)
  }

  predicate IsZero(x: Dec) { x.mant == 0 }

  function Abs(x: Dec): (y: Dec)
    ensures y.mant >= 0 && y.scale == x.scale
  {
    Dec(if x.mant < 0 then -x.mant else x.mant, x.scale)
  }

  function Neg(x: Dec): Dec { Dec(-x.mant, x.scale) }

  /** `a` and `b` denote the same number. */
  predicate SameValue(a: Dec, b: Dec)
  {
    a.mant * Pow10(b.scale) == b.mant * Pow10(a.scale)
  }

  /** `a <= b` as numbers. */
  predicate AtMost(a: Dec, b: Dec)
  {
    a.mant * Pow10(b.scale) <= b.mant * Pow10(a.scale)
  }

  /**
   * The same number with trailing zeros of the mantissa removed, as far as
   * the scale allows: the shortest decimal for the value.
   */
  function Normalize(x: Dec): (y: Dec)
    ensures y.scale <= x.scale && x.mant == y.mant * Pow10(x.scale - y.scale)
    ensures x.mant >= 0 ==> y.mant >= 0
    ensures y.scale == 0 || y.mant % 10 != 0
    decreases x.scale
  {
    if x.scale > 0 && x.mant % 10 == 0 then
      var y := Normalize(Dec(x.mant / 10, x.scale - 1));
      assert Pow10(x.scale - y.scale) == 10 * Pow10(x.scale - 1 - y.scale);
      assert x.mant == 10 * (y.mant * Pow10(x.scale - 1 - y.scale));
      y
    else
      x
  }

  // ---------------------------------------------------------------------
  // Digit text

  predicate IsDigit(c: char) { '0' <= c <= '9' }

  predicate AllDigits(t: string) { forall i :: 0 <= i < |t| ==> IsDigit(t[i]) }

  function DigitValue(c: char): nat
    requires IsDigit(c)
  {
    c as int - '0' as int
  }

  function DigitChar(d: nat): (c: char)
    requires d < 10
    ensures IsDigit(c) && DigitValue(c) == d
  {
    (d + '0' as int) as char
  }

  /** The number of decimal digits of `q` (1 for zero). */
  function NumDigits(q: nat): (n: nat)
    ensures n >= 1
  {
    if q < 10 then 1 else 1 + NumDigits(q / 10)
  }

  /** A number with `n` digits lies below 10^n, and a positive one at or above 10^(n-1). */
  lemma {:induction false} NumDigitsBounds(q: nat)
    ensures q < Pow10(NumDigits(q))
    ensures q > 0 ==> Pow10(NumDigits(q) - 1) <= q
  {
    if q >= 10 {
      NumDigitsBounds(q / 10);
      var n := NumDigits(q / 10);
      assert Pow10(n + 1) == 10 * Pow10(n);
      assert Pow10(n) == 10 * Pow10(n - 1);
    }
  }

  /** `str(q)` for a natural number: its decimal digits without leading zeros. */
  function NatDigits(q: nat): (t: string)
    ensures |t| == NumDigits(q) && AllDigits(t)
    ensures q > 0 ==> t[0] != '0'
    ensures q == 0 ==> t == "0"
  {
    if q < 10 then [DigitChar(q)]
    else NatDigits(q / 10) + [DigitChar(q % 10)]
  }

  /** The `k` lowest decimal digits of `r`, with leading zeros. */
  function PadDigits(r: nat, k: nat): (t: string)
    ensures |t| == k && AllDigits(t)
  {
    if k == 0 then [] else PadDigits(r / 10, k - 1) + [DigitChar(r % 10)]
  }

  /** The natural number a digit string denotes (`int(t)`). */
  function DigitsValue(t: string): nat
    requires AllDigits(t)
  {
    if t == [] then 0 else DigitsValue(t[..|t| - 1]) * 10 + DigitValue(t[|t| - 1])
  }

  lemma {:induction false} NatDigitsValue(q: nat)
    ensures DigitsValue(NatDigits(q)) == q
  {
    if q >= 10 {
      NatDigitsValue(q / 10);
      var t := NatDigits(q);
      assert t[..|t| - 1] == NatDigits(q / 10);
    }
  }

  lemma {:induction false} PadDigitsValue(r: nat, k: nat)
    requires r < Pow10(k)
    ensures DigitsValue(PadDigits(r, k)) == r
  {
    if k > 0 {
      PadDigitsValue(r / 10, k - 1);
      var t := PadDigits(r, k);
      assert t[..|t| - 1] == PadDigits(r / 10, k - 1);
    }
  }

  lemma MulAssoc(x: int, y: int, z: int)
    ensures x * y * z == x * (y * z)
  {
  }

  /** Appending digits: the value of `a + b` is that of `a` shifted by `|b|` places, plus that of `b`. */
  lemma {:induction false} DigitsValueAppend(a: string, b: string)
    requires AllDigits(a) && AllDigits(b)
    ensures AllDigits(a + b) && DigitsValue(a + b) == DigitsValue(a) * Pow10(|b|) + DigitsValue(b)
  {
    if b == [] {
      assert a + b == a;
    } else {
      var b' := b[..|b| - 1];
      var d := DigitValue(b[|b| - 1]);
      assert AllDigits(b');
      DigitsValueAppend(a, b');
      assert (a + b)[..|a + b| - 1] == a + b';
      assert (a + b)[|a + b| - 1] == b[|b| - 1];
      calc {
        DigitsValue(a + b);
        DigitsValue(a + b') * 10 + d;
        (DigitsValue(a) * Pow10(|b'|) + DigitsValue(b')) * 10 + d;
        { MulAssoc(DigitsValue(a), Pow10(|b'|), 10); }
        DigitsValue(a) * (Pow10(|b'|) * 10) + (DigitsValue(b') * 10 + d);
        DigitsValue(a) * Pow10(|b|) + DigitsValue(b);
      }
    }
  }

  /** A positive number has `n` digits exactly when it lies in [10^(n-1), 10^n). */
  lemma DigitCountFromBounds(a: nat, n: nat)
    requires a > 0 && n >= 1 && Pow10(n - 1) <= a < Pow10(n)
    ensures NumDigits(a) == n
  {
    NumDigitsBounds(a);
    var l := NumDigits(a);
    if l < n {
      Pow10AtMost(l, n - 1);
    } else if l > n {
      Pow10AtMost(n, l - 1);
    }
  }

  lemma MulAtMost(a: nat, b: nat, c: nat)
    requires a <= b
    ensures a * c <= b * c
  {
  }

  /** Putting `k` digits below a positive `i` adds `k` to its digit count. */
  lemma DigitCountShift(i: nat, k: nat, r: nat)
    requires i > 0 && r < Pow10(k)
    ensures NumDigits(i * Pow10(k) + r) == NumDigits(i) + k
  {
    NumDigitsBounds(i);
    var l := NumDigits(i);
    var p := Pow10(k);
    var a := i * p + r;
    Pow10Add(l - 1, k);
    Pow10Add(l, k);
    MulAtMost(Pow10(l - 1), i, p);
    MulAtMost(i + 1, Pow10(l), p);
    assert Pow10(l - 1 + k) <= a;
    assert a < (i + 1) * p;
    DigitCountFromBounds(a, l + k);
  }

  lemma DigitsZero(k: nat)
    ensures forall j :: 0 <= j < k ==> PadDigits(0, k)[j] == '0'
  {
    if k > 0 { DigitsZero(k - 1); }
  }

  /** `t.find(c)`: the index of the first `c` in `t`, or -1. */
  function Find(t: string, c: char): (r: int)
    ensures r == -1 <==> c !in t
    ensures r >= 0 ==> r < |t| && t[r] == c && forall j :: 0 <= j < r ==> t[j] != c
  {
    if t == [] then -1
    else if t[0] == c then 0
    else
      var j := Find(t[1..], c);
      if j < 0 then -1 else j + 1
  }
}
