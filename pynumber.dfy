/** Python's `int()` and `float()` on the strings the cleaners hand them,
    with exact values: a decimal literal denotes a rational number here, not
    the nearest binary floating-point number. */
module PyNumber {
  import opened Wrappers
  import opened PyText

  predicate IsDigit(c: char)
  {
    '0' <= c <= '9'
  }

  /** The character class `[0-9\.]`. */
  predicate IsDigitOrDot(c: char)
  {
    IsDigit(c) || c == '.'
  }

  predicate AllDigits(s: string)
  {
    forall i :: 0 <= i < |s| ==> IsDigit(s[i])
  }

  predicate AllDigitsOrDots(s: string)
  {
    forall i :: 0 <= i < |s| ==> IsDigitOrDot(s[i])
  }

  predicate HasDigit(s: string)
  {
    exists i :: 0 <= i < |s| && IsDigit(s[i])
  }

  predicate AtMostOneDot(s: string)
  {
    forall i, j :: 0 <= i < j < |s| && s[i] == '.' ==> s[j] != '.'
  }

  function Pow10(n: nat): (r: nat)
    ensures r >= 1
  {
    if n == 0 then 1 else 10 * Pow10(n - 1)
  }

  /** The number a string of decimal digits denotes; leading zeros are allowed. */
  function DigitsValue(s: string): (n: nat)
    requires AllDigits(s)
    ensures n < Pow10(|s|)
  {
    if s == [] then 0 else DigitsValue(s[..|s| - 1]) * 10 + (s[|s| - 1] as int - '0' as int)
  }

  function DigitChar(d: nat): (c: char)
    requires d < 10
    ensures IsDigit(c) && c as int - '0' as int == d
  {
    ('0' as int + d) as char
  }

  /** The decimal rendering of a natural number, as `str(n)` gives it. */
  function ShowNat(n: nat): (s: string)
    ensures |s| > 0 && AllDigits(s)
  {
    if n < 10 then [DigitChar(n)] else ShowNat(n / 10) + [DigitChar(n % 10)]
  }

  /** Parsing the rendering of a number gives the number back. */
  lemma {:induction false} DigitsValueShowNat(n: nat)
    ensures DigitsValue(ShowNat(n)) == n
  {
    if n >= 10 {
      DigitsValueShowNat(n / 10);
      var s := ShowNat(n);
      assert s[..|s| - 1] == ShowNat(n / 10);
    }
  }

  /** Index of the first '.', or the length when there is none. */
  function FirstDot(s: string): (i: nat)
    ensures i <= |s|
    ensures i < |s| ==> s[i] == '.'
    ensures forall k :: 0 <= k < i ==> s[k] != '.'
  {
    if s == [] then 0 else if s[0] == '.' then 0 else 1 + FirstDot(s[1..])
  }

  /** The number of digits after the decimal point. */
  function FractionDigits(s: string): nat
  {
    var i := FirstDot(s);
    if i < |s| then |s| - i - 1 else 0
  }

  /** CPython's default limit on the number of digits `int()` converts from
      a string (`sys.int_info.default_max_str_digits`): a longer literal
      raises `ValueError`. */
  const MaxStrDigits: nat := 4300

  /** `int(s)` for the strings it is applied to here, which hold nothing but
      ASCII digits: one to `MaxStrDigits` digits parse; the empty string and
      a longer string are errors. */
  function ParseInt(s: string): (r: Option<nat>)
    ensures r.Some? ==> |s| <= MaxStrDigits && r.value < Pow10(|s|)
  {
    if s != [] && AllDigits(s) && |s| <= MaxStrDigits then Some(DigitsValue(s)) else None
  }

  /** `int(str(n))` is `n` for every number of at most `MaxStrDigits` digits. */
  lemma ParseIntShowNat(n: nat)
    requires |ShowNat(n)| <= MaxStrDigits
    ensures ParseInt(ShowNat(n)) == Some(n)
  {
    DigitsValueShowNat(n);
  }

  /** An unsigned decimal literal: digits, optionally one '.' followed by
      digits, with at least one digit in all (`12`, `12.`, `.5`, `12.5`). It
      never denotes a negative number. */
  function ParseDecimal(s: string): (r: Option<real>)
    ensures r.Some? ==> r.value >= 0.0
  {
    var i := FirstDot(s);
    var whole := s[..i];
    var frac := if i < |s| then s[i + 1..] else [];
    if AllDigits(whole) && AllDigits(frac) && |whole| + |frac| > 0 then
      QuotientNonNegative(DigitsValue(whole + frac), Pow10(|frac|));
      Some(DigitsValue(whole + frac) as real / Pow10(|frac|) as real)
    else
      None
  }

  lemma QuotientNonNegative(n: nat, p: nat)
    requires p >= 1
    ensures n as real / p as real >= 0.0
  {
  }

  /** `float(s)` restricted to an optional sign followed by an unsigned
      decimal literal: only a leading '-' gives a negative number. */
  function ParseFloat(s: string): (r: Option<real>)
    ensures r.Some? ==> s != []
    ensures r.Some? && r.value < 0.0 ==> s[0] == '-'
  {
    if s != [] && (s[0] == '+' || s[0] == '-') then
      match ParseDecimal(s[1..])
      case Some(x) => Some(if s[0] == '-' then -x else x)
      case None => None
    else
      ParseDecimal(s)
  }

  /** A string of digits and dots has no sign, so `float()` of it is never
      negative. */
  lemma FilteredNonNegative(k: string)
    requires AllDigitsOrDots(k)
    ensures ParseFloat(k).Some? ==> ParseFloat(k).value >= 0.0
  {
    assert k == [] || IsDigitOrDot(k[0]);
  }

  /** A filter that keeps every digit keeps a digit exactly when the input has one. */
  lemma HasDigitKeep(s: string, p: char -> bool)
    requires forall c :: IsDigit(c) ==> p(c)
    ensures HasDigit(Keep(s, p)) <==> HasDigit(s)
  {
    var r := Keep(s, p);
    if HasDigit(s) {
      var i :| 0 <= i < |s| && IsDigit(s[i]);
      KeepMembers(s, p, s[i]);
      var j :| 0 <= j < |r| && r[j] == s[i];
    }
    if HasDigit(r) {
      var j :| 0 <= j < |r| && IsDigit(r[j]);
      KeepMembers(s, p, r[j]);
      var i :| 0 <= i < |s| && s[i] == r[j];
    }
  }

  /** Without a leading sign, `float()` reads an unsigned decimal literal. */
  lemma ParseFloatUnsigned(s: string)
    requires s == [] || (s[0] != '+' && s[0] != '-')
    ensures ParseFloat(s) == ParseDecimal(s)
  {
  }

  /** A string of digits and dots is a decimal literal exactly when it holds at
      least one digit and at most one dot. */
  lemma ParseDecimalAccepts(s: string)
    requires AllDigitsOrDots(s)
    ensures ParseDecimal(s).Some? <==> HasDigit(s) && AtMostOneDot(s)
  {
    var i := FirstDot(s);
    var whole := s[..i];
    assert AllDigits(whole);
    if i == |s| {
      assert whole == s;
      if s != [] {
        assert IsDigit(s[0]);
      }
    } else {
      var frac := s[i + 1..];
      if AllDigits(frac) {
        assert AtMostOneDot(s) by {
          forall a, b | 0 <= a < b < |s| && s[a] == '.' ensures s[b] != '.' {
            assert a == i;
            assert s[b] == frac[b - i - 1];
          }
        }
        if |whole| + |frac| > 0 {
          if |whole| > 0 {
            assert IsDigit(s[0]);
          } else {
            assert IsDigit(s[i + 1]);
          }
        } else {
          assert s == ".";
        }
      } else {
        var k :| 0 <= k < |frac| && !IsDigit(frac[k]);
        assert s[i] == '.' && s[i + 1 + k] == '.';
      }
    }
  }

  /** What a parsed decimal literal means: the integer written by all of its
      digits, divided by ten to the number of digits after the point. */
  lemma ParseDecimalValue(s: string, x: real)
    requires ParseDecimal(s) == Some(x)
    ensures AllDigits(Keep(s, IsDigit))
    ensures x == DigitsValue(Keep(s, IsDigit)) as real / Pow10(FractionDigits(s)) as real
  {
    var i := FirstDot(s);
    var whole := s[..i];
    if i < |s| {
      var frac := s[i + 1..];
      SplitAtDot(s, i);
      KeepDigitsAroundDot(s, whole, frac);
      assert FractionDigits(s) == |frac|;
    } else {
      assert whole == s && whole + [] == s;
      KeepAll(s, IsDigit);
    }
  }

  lemma SplitAtDot(s: string, i: nat)
    requires i < |s| && s[i] == '.'
    ensures s == s[..i] + "." + s[i + 1..]
  {
    assert s == s[..i] + [s[i]] + s[i + 1..];
  }

  lemma KeepDigitsAroundDot(s: string, whole: string, frac: string)
    requires AllDigits(whole) && AllDigits(frac)
    requires s == whole + "." + frac
    ensures Keep(s, IsDigit) == whole + frac
  {
    KeepAll(whole, IsDigit);
    KeepAll(frac, IsDigit);
    KeepAppend(whole + ".", frac, IsDigit);
    KeepAppend(whole, ".", IsDigit);
    assert Keep(".", IsDigit) == [];
  }

  /** The rendering of a natural number parses as a decimal literal to the same number. */
  lemma ParseDecimalShowNat(n: nat)
    ensures ParseDecimal(ShowNat(n)) == Some(n as real)
  {
    var s := ShowNat(n);
    assert forall k :: 0 <= k < |s| ==> s[k] != '.';
    assert FirstDot(s) == |s|;
    assert s[..|s|] + [] == s;
    DigitsValueShowNat(n);
    assert DigitsValue(s[..|s|] + []) == n;
  }
}
