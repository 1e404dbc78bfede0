/** Worked examples of the cleaners on the inputs the extraction produces,
    each derived from the general lemmas about the cleaner. */
module Examples {
  import opened Wrappers
  import opened PyText
  import opened PyNumber
  import opened Cleaners

  /** Filtering five pieces that alternate between dropped and kept. */
  lemma KeepFive(a: string, b: string, c: string, d: string, e: string, p: char -> bool)
    requires forall i :: 0 <= i < |a| ==> !p(a[i])
    requires forall i :: 0 <= i < |b| ==> p(b[i])
    requires forall i :: 0 <= i < |c| ==> !p(c[i])
    requires forall i :: 0 <= i < |d| ==> p(d[i])
    requires forall i :: 0 <= i < |e| ==> !p(e[i])
    ensures Keep(a + b + c + d + e, p) == b + d
  {
    KeepNone(a, p); KeepAll(b, p); KeepNone(c, p); KeepAll(d, p); KeepNone(e, p);
    KeepAppend(a, b, p);
    assert Keep(a + b, p) == b;
    KeepAppend(a + b, c, p);
    assert Keep(a + b + c, p) == b;
    KeepAppend(a + b + c, d, p);
    assert Keep(a + b + c + d, p) == b + d;
    KeepAppend(a + b + c + d, e, p);
  }

  /** The digits of a natural number, written out, denote the number. */
  lemma Written(s: string, n: nat)
    requires ShowNat(n) == s
    ensures ParseDecimal(s) == Some(n as real)
    ensures AllDigits(s) && DigitsValue(s) == n
  {
    ParseDecimalShowNat(n);
    DigitsValueShowNat(n);
  }

  lemma YieldOfFiltered(s: string, k: string, x: real)
    requires s != [] && Keep(s, IsDigitOrDot) == k && ParseDecimal(k) == Some(x)
    ensures CleanYield(s) == Float(x)
  {
    YieldIsDigitsAndDots(s);
  }

  lemma AreaOfFiltered(s: string, k: string, n: nat)
    requires Keep(s, IsDigit) == k && k != [] && |k| <= MaxStrDigits
    requires AllDigits(k) && DigitsValue(k) == n
    ensures CleanArea(s) == Int(n)
  {
    assert IsDigit(k[0]);
    HasDigitKeep(s, IsDigit);
    AreaIsDigits(s);
  }

  lemma PricePsfOfFiltered(s: string, k: string, x: real)
    requires s != [] && Keep(s, IsDigitOrDot) == k && ParseDecimal(k) == Some(x)
    ensures CleanPricePsf(s) == Float(x)
  {
    PricePsfIsDigitsAndDots(s);
  }

  lemma ParseFourPointOne()
    ensures ParseDecimal("4.1") == Some(4.1)
  {
    var s := "4.1";
    assert s[0] == '4' && s[1] == '.' && s[1..] == ".1";
    assert FirstDot(s) == 1;
    assert s[..1] == "4" && s[2..] == "1";
    assert "4" + "1" == "41";
    assert "41"[..1] == "4";
    assert DigitsValue("4") == 4;
    assert DigitsValue("41") == 41;
  }

  lemma FilterYield()
    ensures Keep("about 4.1 per cent", IsDigitOrDot) == "4.1"
  {
    assert "about 4.1 per cent" == "about " + "4.1" + " per cent" + [] + [];
    KeepFive("about ", "4.1", " per cent", [], [], IsDigitOrDot);
  }

  /** "about 4.1 per cent" is the yield 4.1. */
  lemma YieldExample()
    ensures CleanYield("about 4.1 per cent") == Float(4.1)
  {
    FilterYield();
    ParseFourPointOne();
    YieldOfFiltered("about 4.1 per cent", "4.1", 4.1);
  }

  lemma FilterYieldWithFullStop()
    ensures Keep("4.1 per cent.", IsDigitOrDot) == "4.1" + "."
  {
    AppendFullStop("4.1 per cent", "4.1 per cent.");
    FilterYieldWithoutWords();
    KeepThenDot("4.1 per cent", "4.1");
  }

  lemma KeepThenDot(a: string, k: string)
    requires Keep(a, IsDigitOrDot) == k
    ensures Keep(a + ".", IsDigitOrDot) == k + "."
  {
    KeepAppend(a, ".", IsDigitOrDot);
    KeepAll(".", IsDigitOrDot);
  }

  lemma AppendFullStop(a: string, b: string)
    requires |b| == |a| + 1 && b[|a|] == '.' && b[..|a|] == a
    ensures b == a + "."
  {
  }

  lemma FilterYieldWithoutWords()
    ensures Keep("4.1 per cent", IsDigitOrDot) == "4.1"
  {
    assert "4.1 per cent" == [] + "4.1" + " per cent" + [] + [];
    KeepFive([], "4.1", " per cent", [], [], IsDigitOrDot);
  }

  /** A full stop after the yield is a second decimal point, so "4.1 per
      cent." is not a number and comes back as written. */
  lemma YieldWithFullStopExample()
    ensures CleanYield("4.1 per cent.") == Str("4.1 per cent.")
  {
    FilterYieldWithFullStop();
    TwoDots();
    YieldRejected("4.1 per cent.", "4.1" + ".");
  }

  lemma YieldRejected(s: string, k: string)
    requires s != [] && Keep(s, IsDigitOrDot) == k && !AtMostOneDot(k)
    ensures CleanYield(s) == Str(s)
  {
    YieldParsesIff(s);
  }

  lemma TwoDots()
    ensures !AtMostOneDot("4.1" + ".")
  {
    var k := "4.1" + ".";
    assert k[1] == '.' && k[3] == '.';
  }

  lemma FilterArea()
    ensures Keep("195,772 sq ft", IsDigit) == "195" + "772"
  {
    assert "195,772 sq ft" == [] + "195" + "," + "772" + " sq ft";
    KeepFive([], "195", ",", "772", " sq ft", IsDigit);
  }

  lemma WrittenArea()
    ensures AllDigits("195" + "772") && DigitsValue("195" + "772") == 195772
  {
    assert ShowNat(195) == "195";
    ShowNatStep(195, 7);
    ShowNatStep(1957, 7);
    ShowNatStep(19577, 2);
    Written("195" + "772", 195772);
  }

  /** Writing one more digit after a number. */
  lemma ShowNatStep(n: nat, d: nat)
    requires n >= 1 && d < 10
    ensures ShowNat(n * 10 + d) == ShowNat(n) + [DigitChar(d)]
  {
    assert (n * 10 + d) / 10 == n && (n * 10 + d) % 10 == d;
  }

  lemma WrittenFractionalArea()
    ensures AllDigits("1" + "234" + "5") && DigitsValue("1" + "234" + "5") == 12345
  {
    ShowNatStep(1, 2);
    ShowNatStep(12, 3);
    ShowNatStep(123, 4);
    ShowNatStep(1234, 5);
    Written("1" + "234" + "5", 12345);
  }

  lemma WrittenPricePsf()
    ensures ParseDecimal("4" + "100") == Some(4100.0)
  {
    Written("4" + "100", 4100);
  }

  lemma WrittenPrice()
    ensures ParseDecimal("809") == Some(809.0)
  {
    Written("809", 809);
  }

  /** "195,772 sq ft" is the area 195772. */
  lemma AreaExample()
    ensures CleanArea("195,772 sq ft") == Int(195772)
  {
    FilterArea();
    WrittenArea();
    AreaOfFiltered("195,772 sq ft", "195" + "772", 195772);
  }

  lemma FilterFractionalArea()
    ensures Keep("1,234.5 sq ft", IsDigit) == "1" + "234" + "5"
  {
    assert "1,234.5 sq ft" == "1,234." + "5 sq ft";
    KeepAppend("1,234.", "5 sq ft", IsDigit);
    FilterWholePart();
    FilterFractionPart();
  }

  lemma FilterWholePart()
    ensures Keep("1,234.", IsDigit) == "1" + "234"
  {
    assert "1,234." == [] + "1" + "," + "234" + ".";
    KeepFive([], "1", ",", "234", ".", IsDigit);
  }

  lemma FilterFractionPart()
    ensures Keep("5 sq ft", IsDigit) == "5"
  {
    assert "5 sq ft" == [] + "5" + " sq ft" + [] + [];
    KeepFive([], "5", " sq ft", [], [], IsDigit);
  }

  /** The decimal point of an area is dropped with the other non-digits:
      "1,234.5 sq ft" is the area 12345. */
  lemma FractionalAreaExample()
    ensures CleanArea("1,234.5 sq ft") == Int(12345)
  {
    FilterFractionalArea();
    WrittenFractionalArea();
    AreaOfFiltered("1,234.5 sq ft", "1" + "234" + "5", 12345);
  }

  lemma FilterPricePsf()
    ensures Keep("$4,100 per square foot", IsDigitOrDot) == "4" + "100"
  {
    assert "$4,100 per square foot" == "$" + "4" + "," + "100" + " per square foot";
    KeepFive("$", "4", ",", "100", " per square foot", IsDigitOrDot);
  }

  /** "$4,100 per square foot" is the price per unit area 4100. */
  lemma PricePsfExample()
    ensures CleanPricePsf("$4,100 per square foot") == Float(4100.0)
  {
    FilterPricePsf();
    WrittenPricePsf();
    PricePsfOfFiltered("$4,100 per square foot", "4" + "100", 4100.0);
  }

  lemma NoCommaIn809()
    ensures RemoveAll("809", ",") == "809"
  {
    NoFirstCharNotContained("809", ",");
    RemoveAllAbsent("809", ",");
  }

  /** "$809 million" is the price 809000000. */
  lemma PriceExample()
    ensures ConvertPriceToNumber("$809 million") == Float(809000000.0)
  {
    assert "$809 million" == "$" + "809" + (" " + "million");
    assert IsDigit("809"[0]);
    PriceWithUnit("809", "million", Millions);
    NoCommaIn809();
    WrittenPrice();
  }
}
