/**
 * Kotlin's `String.toInt()` on the JVM as a partial parse: an optional leading
 * `+` or `-`, then a non-empty run of decimal digits whose value fits a 32-bit
 * `Int`. Everything else makes `toInt` throw `NumberFormatException`, modelled
 * here as `None`.
 */
module Numbers {
  import opened Wrappers

  const IntMin: int := -0x8000_0000
  const IntMax: int := 0x7fff_ffff

  predicate IsDigit(c: char) { '0' <= c <= '9' }

  predicate AllDigits(s: string) { forall i :: 0 <= i < |s| ==> IsDigit(s[i]) }

  function DigitValue(c: char): (d: nat)
    requires IsDigit(c)
    ensures d < 10
  {
    (c as int) - ('0' as int)
  }

  /** The decimal value of a run of digits, most significant first. */
  function DigitsValue(ds: string): nat
    requires AllDigits(ds)
  {
    if ds == [] then 0 else DigitsValue(ds[..|ds| - 1]) * 10 + DigitValue(ds[|ds| - 1])
  }

  /** The digits after an optional leading sign. */
  function Magnitude(s: string): string
    requires |s| > 0
  {
    if s[0] == '-' || s[0] == '+' then s[1..] else s
  }

  /** `text.toInt()`: `Some(n)` when it returns `n`, `None` when it throws. */
  function ParseInt(s: string): (r: Option<int>)
    ensures r.Some? ==> IntMin <= r.value <= IntMax
    ensures r.Some? ==> |s| > 0 && |Magnitude(s)| > 0 && AllDigits(Magnitude(s))
    ensures r.Some? && r.value < 0 ==> s[0] == '-'
  {
    if s == [] then None
    else
      var ds := Magnitude(s);
      if ds == [] || !AllDigits(ds) then None
      else
        var v: int := if s[0] == '-' then -(DigitsValue(ds) as int) else DigitsValue(ds);
        if IntMin <= v <= IntMax then Some(v) else None
  }

  /** A character that is neither a digit nor a leading sign makes the parse fail. */
  lemma ParseIntRejectsNonDigit(s: string, i: int)
    requires 0 <= i < |s| && !IsDigit(s[i])
    requires i > 0 || (s[0] != '-' && s[0] != '+')
    ensures ParseInt(s) == None
  {
    var ds := Magnitude(s);
    var j := if s[0] == '-' || s[0] == '+' then i - 1 else i;
    assert ds[j] == s[i];
  }

  /** The parse fails on an empty text and on a lone sign. */
  lemma ParseIntRejectsNoDigits(s: string)
    requires s == [] || s == "-" || s == "+"
    ensures ParseInt(s) == None
  {
    if s != [] {
      assert Magnitude(s) == [];
    }
  }

  /** The decimal digits of `n`, without leading zeros. */
  function FormatNat(n: nat): (s: string)
    ensures |s| > 0 && AllDigits(s)
    ensures IsDigit(s[0])
  {
    if n < 10 then ['0' + n as char] else FormatNat(n / 10) + ['0' + (n % 10) as char]
  }

  /** The canonical decimal text of `n`: `-` then the digits for a negative number. */
  function FormatInt(n: int): string
  {
    if n < 0 then "-" + FormatNat(-n) else FormatNat(n)
  }

  lemma {:induction false} DigitsValueFormatNat(n: nat)
    ensures DigitsValue(FormatNat(n)) == n
  {
    var s := FormatNat(n);
    if n >= 10 {
      DigitsValueFormatNat(n / 10);
      assert s[..|s| - 1] == FormatNat(n / 10);
    }
  }

  /** Every 32-bit value, rendered in decimal, parses back to itself. */
  lemma ParseFormatInt(n: int)
    requires IntMin <= n <= IntMax
    ensures ParseInt(FormatInt(n)) == Some(n)
  {
    var s := FormatInt(n);
    if n < 0 {
      assert s[1..] == FormatNat(-n);
      DigitsValueFormatNat(-n);
    } else {
      DigitsValueFormatNat(n);
    }
  }

  /** The canonical text of a value outside the 32-bit range does not parse. */
  lemma ParseFormatIntOutOfRange(n: int)
    requires n < IntMin || IntMax < n
    ensures ParseInt(FormatInt(n)) == None
  {
    if n < 0 {
      DigitsValueFormatNat(-n);
      ParseSignedDigitsOutOfRange("-", FormatNat(-n));
    } else {
      DigitsValueFormatNat(n);
      ParseSignedDigitsOutOfRange("", FormatNat(n));
      assert "" + FormatNat(n) == FormatInt(n);
    }
  }

  /** `k` zero digits. */
  function Zeros(k: nat): (z: string)
    ensures |z| == k && AllDigits(z)
  {
    if k == 0 then [] else ['0'] + Zeros(k - 1)
  }

  /** A leading zero does not change the value of a run of digits. */
  lemma {:induction false} DigitsValueLeadingZero(ds: string)
    requires AllDigits(ds)
    ensures AllDigits(['0'] + ds) && DigitsValue(['0'] + ds) == DigitsValue(ds)
  {
    var z := ['0'] + ds;
    if ds != [] {
      assert z[..|z| - 1] == ['0'] + ds[..|ds| - 1];
      DigitsValueLeadingZero(ds[..|ds| - 1]);
    }
  }

  lemma {:induction false} DigitsValueZeros(k: nat, ds: string)
    requires AllDigits(ds)
    ensures AllDigits(Zeros(k) + ds) && DigitsValue(Zeros(k) + ds) == DigitsValue(ds)
  {
    if k == 0 {
      assert Zeros(k) + ds == ds;
    } else {
      DigitsValueZeros(k - 1, ds);
      assert Zeros(k) + ds == ['0'] + (Zeros(k - 1) + ds);
      DigitsValueLeadingZero(Zeros(k - 1) + ds);
    }
  }

  /** The value of the magnitude `n` under a sign of `""`, `"+"` or `"-"`. */
  function Signed(sign: string, n: nat): int
  {
    if sign == "-" then -(n as int) else n
  }

  /**
   * The accepting direction for every well-formed text: an optional `+` or `-`,
   * any number of leading zeros, then the digits of `n`, parses to the signed
   * value whenever that value fits 32 bits.
   */
  lemma ParsePadded(sign: string, k: nat, n: nat)
    requires sign == "" || sign == "+" || sign == "-"
    requires IntMin <= Signed(sign, n) <= IntMax
    ensures ParseInt(sign + Zeros(k) + FormatNat(n)) == Some(Signed(sign, n))
  {
    var ds := Zeros(k) + FormatNat(n);
    assert sign + Zeros(k) + FormatNat(n) == sign + ds;
    DigitsValueFormatNat(n);
    DigitsValueZeros(k, FormatNat(n));
    ParseSignedDigits(sign, ds);
  }

  /** A sign of `""`, `"+"` or `"-"` followed by digits parses to the signed value of the digits when it fits. */
  lemma ParseSignedDigits(sign: string, ds: string)
    requires sign == "" || sign == "+" || sign == "-"
    requires |ds| > 0 && AllDigits(ds)
    requires IntMin <= Signed(sign, DigitsValue(ds)) <= IntMax
    ensures ParseInt(sign + ds) == Some(Signed(sign, DigitsValue(ds)))
  {
    var s := sign + ds;
    if sign == "" {
      assert s == ds;
    } else {
      assert s[0] == sign[0] && s[1..] == ds;
    }
    assert Magnitude(s) == ds;
  }

  /**
   * `""`, `"+"` or `"-"` followed by digits whose signed value does not fit 32
   * bits does not parse, whatever leading zeros or sign it carries.
   */
  lemma ParseSignedDigitsOutOfRange(sign: string, ds: string)
    requires sign == "" || sign == "+" || sign == "-"
    requires |ds| > 0 && AllDigits(ds)
    requires Signed(sign, DigitsValue(ds)) < IntMin || IntMax < Signed(sign, DigitsValue(ds))
    ensures ParseInt(sign + ds) == None
  {
    var s := sign + ds;
    if sign == "" {
      assert s == ds;
    } else {
      assert s[0] == sign[0] && s[1..] == ds;
    }
    assert Magnitude(s) == ds;
  }

  /** A sign, leading zeros and the digits of `n` do not parse when the signed `n` does not fit 32 bits. */
  lemma ParsePaddedOutOfRange(sign: string, k: nat, n: nat)
    requires sign == "" || sign == "+" || sign == "-"
    requires Signed(sign, n) < IntMin || IntMax < Signed(sign, n)
    ensures ParseInt(sign + Zeros(k) + FormatNat(n)) == None
  {
    var ds := Zeros(k) + FormatNat(n);
    assert sign + Zeros(k) + FormatNat(n) == sign + ds;
    DigitsValueFormatNat(n);
    DigitsValueZeros(k, FormatNat(n));
    ParseSignedDigitsOutOfRange(sign, ds);
  }

  /** `+7` and `007` parse to 7, and `-0` to 0. */
  lemma ParsePaddedExamples()
    ensures ParseInt("+7") == Some(7)
    ensures ParseInt("007") == Some(7)
    ensures ParseInt("-0") == Some(0)
  {
    ParsePadded("+", 0, 7);
    assert Zeros(0) == [] && FormatNat(7) == "7";
    assert "+" + Zeros(0) + FormatNat(7) == "+7";
    ParsePadded("", 2, 7);
    assert Zeros(2) == "00";
    assert "" + Zeros(2) + FormatNat(7) == "007";
    ParsePadded("-", 0, 0);
    assert FormatNat(0) == "0";
    assert "-" + Zeros(0) + FormatNat(0) == "-0";
  }
}
