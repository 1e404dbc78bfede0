/** The four field cleaners nested in `clean_and_format_data`
    (cre_extractor.py): each turns the text the language model returned for
    one numeric column into a number, keeps some text when that fails, and
    gives None for a missing or empty value. */
module Cleaners {
  import opened Wrappers
  import opened PyText
  import opened PyNumber

  /** A value as `json.loads` produces it, and the numbers the cleaners put in
      its place. `Float` carries the exact value of the literal. */
  datatype Value =
    | Null
    | Bool(b: bool)
    | Int(i: int)
    | Float(x: real)
    | Str(s: string)
    | Array(items: seq<Value>)
    | Object(entries: seq<(string, Value)>)

  /** Python truthiness, which `if not x: return None` tests. */
  predicate Truthy(v: Value)
  {
    match v
    case Null => false
    case Bool(b) => b
    case Int(i) => i != 0
    case Float(x) => x != 0.0
    case Str(s) => s != []
    case Array(items) => items != []
    case Object(entries) => entries != []
  }

  /** The unit word a price may carry. */
  datatype Magnitude = Units | Millions | Billions

  /** A parsed price times the multiplier its unit word selects. */
  function Scaled(x: real, m: Magnitude): real
  {
    match m
    case Units => x
    case Millions => x * 1_000_000.0
    case Billions => x * 1_000_000_000.0
  }

  /** The price text once lower-cased, rid of every '$' and ',', and
      stripped: no capital, '$' or ',' is left in it, and no whitespace at
      either end. */
  function PriceText(price: string): (t: string)
    ensures forall c :: c in t ==> !IsUpper(c) && c != '$' && c != ','
    ensures t == [] || (!IsSpace(t[0]) && !IsSpace(t[|t| - 1]))
  {
    ProcessedPriceMembers(price);
    Strip(RemoveAll(RemoveAll(Lower(price), "$"), ","))
  }

  /** The multiplier the unit word selects, and the text left once that word
      is removed; "million" is looked for before "billion". The text left is
      made of characters of the input, and is stripped once a word is removed. */
  function PriceUnit(text: string): (u: (Magnitude, string))
    ensures u.0 == Millions <==> Contains(text, "million")
    ensures u.0 == Billions ==> !Contains(text, "million") && Contains(text, "billion")
    ensures !Contains(text, "million") && Contains(text, "billion") ==> u.0 == Billions
    ensures u.0 == Units ==> u.1 == text
    ensures u.0 == Millions ==> u.1 == Strip(RemoveAll(text, "million"))
    ensures u.0 == Billions ==> u.1 == Strip(RemoveAll(text, "billion"))
    ensures u.0 != Units ==> u.1 == [] || (!IsSpace(u.1[0]) && !IsSpace(u.1[|u.1| - 1]))
    ensures forall c :: c in u.1 ==> c in text
  {
    UnitRemovalMembers(text, "million");
    UnitRemovalMembers(text, "billion");
    if Contains(text, "million") then (Millions, Strip(RemoveAll(text, "million")))
    else if Contains(text, "billion") then (Billions, Strip(RemoveAll(text, "billion")))
    else (Units, text)
  }

  /** `convert_price_to_number`: None exactly for the empty string, else a
      number or, when the remaining text is not a number, the remaining text
      itself, which is the processed text and not the input: it has no
      capital, '$' or ',', and no whitespace at either end. */
  function ConvertPriceToNumber(price: string): (r: Value)
    ensures r == Null <==> price == []
    ensures r.Null? || r.Float? || r.Str?
    ensures price != [] ==> (r.Float? <==> ParseFloat(PriceUnit(PriceText(price)).1).Some?)
    ensures r.Float? ==> var (magnitude, rest) := PriceUnit(PriceText(price));
              ParseFloat(rest).Some? && r.x == Scaled(ParseFloat(rest).value, magnitude)
    ensures r.Str? ==> r.s == PriceUnit(PriceText(price)).1
    ensures r.Str? ==> ParseFloat(r.s).None?
    ensures r.Str? ==> forall c :: c in r.s ==> !IsUpper(c) && c != '$' && c != ','
    ensures r.Str? ==> r.s == [] || (!IsSpace(r.s[0]) && !IsSpace(r.s[|r.s| - 1]))
  {
    if price == [] then Null
    else
      ProcessedRest(price);
      var (magnitude, rest) := PriceUnit(PriceText(price));
      match ParseFloat(rest)
      case Some(x) => Float(Scaled(x, magnitude))
      case None => Str(rest)
  }

  /** The text left after the unit word of a price has no capital, '$' or ','
      and no whitespace at either end. */
  lemma ProcessedRest(price: string)
    ensures var rest := PriceUnit(PriceText(price)).1;
      && (forall c :: c in rest ==> !IsUpper(c) && c != '$' && c != ',')
      && (rest == [] || (!IsSpace(rest[0]) && !IsSpace(rest[|rest| - 1])))
  {
  }

  /** The yield text rid of "about", "per cent" and "%", then stripped. */
  function YieldText(yieldText: string): (t: string)
    ensures |t| <= |yieldText|
    ensures t == [] || (!IsSpace(t[0]) && !IsSpace(t[|t| - 1]))
  {
    Strip(RemoveAll(RemoveAll(RemoveAll(yieldText, "about"), "per cent"), "%"))
  }

  /** `clean_yield`; unlike the other cleaners it does not lower-case first.
      None exactly for the empty string; a number, never negative since a
      sign is filtered out; or the input as given. */
  function CleanYield(yieldText: string): (r: Value)
    ensures r == Null <==> yieldText == []
    ensures r.Null? || r.Float? || r.Str?
    ensures r.Str? ==> r.s == yieldText
    ensures r.Float? ==> r.x >= 0.0
  {
    if yieldText == [] then Null
    else
      var cleaned := Keep(YieldText(yieldText), IsDigitOrDot);
      FilteredNonNegative(cleaned);
      match ParseFloat(cleaned)
      case Some(x) => Float(x)
      case None => Str(yieldText)
  }

  /** The area text lower-cased, rid of "sq ft" and ",", then stripped. */
  function AreaText(area: string): (t: string)
    ensures |t| <= |area|
    ensures t == [] || (!IsSpace(t[0]) && !IsSpace(t[|t| - 1]))
  {
    Strip(RemoveAll(RemoveAll(Lower(area), "sq ft"), ","))
  }

  /** `clean_area`: only the digits survive, so a decimal point is dropped.
      None exactly for the empty string; a non-negative integer; or the input
      as given. */
  function CleanArea(area: string): (r: Value)
    ensures r == Null <==> area == []
    ensures r.Null? || r.Int? || r.Str?
    ensures r.Str? ==> r.s == area
    ensures r.Int? ==> r.i >= 0
  {
    if area == [] then Null
    else
      var cleaned := Keep(AreaText(area), IsDigit);
      match ParseInt(cleaned)
      case Some(n) => Int(n)
      case None => Str(area)
  }

  /** The price-per-area text lower-cased, rid of "$", "per square foot" and
      "psf", then stripped. */
  function PricePsfText(pricePsf: string): (t: string)
    ensures |t| <= |pricePsf|
    ensures t == [] || (!IsSpace(t[0]) && !IsSpace(t[|t| - 1]))
  {
    Strip(RemoveAll(RemoveAll(RemoveAll(Lower(pricePsf), "$"), "per square foot"), "psf"))
  }

  /** `clean_price_psf`: None exactly for the empty string; a number, never
      negative; or the input as given. */
  function CleanPricePsf(pricePsf: string): (r: Value)
    ensures r == Null <==> pricePsf == []
    ensures r.Null? || r.Float? || r.Str?
    ensures r.Str? ==> r.s == pricePsf
    ensures r.Float? ==> r.x >= 0.0
  {
    if pricePsf == [] then Null
    else
      var cleaned := Keep(PricePsfText(pricePsf), IsDigitOrDot);
      FilteredNonNegative(cleaned);
      match ParseFloat(cleaned)
      case Some(x) => Float(x)
      case None => Str(pricePsf)
  }

  datatype Cleaner = PriceCleaner | YieldCleaner | AreaCleaner | PricePsfCleaner

  function CleanText(c: Cleaner, s: string): Value
  {
    match c
    case PriceCleaner => ConvertPriceToNumber(s)
    case YieldCleaner => CleanYield(s)
    case AreaCleaner => CleanArea(s)
    case PricePsfCleaner => CleanPricePsf(s)
  }

  /** The exception a cleaner raises: a truthy value that is not a string has
      no `lower` or `replace` method. */
  datatype CleanError = AttributeError(value: Value)

  /** A cleaner applied to whatever `data.get(key)` returned: a falsy value
      gives None, a string is cleaned, and any other value raises. */
  function Apply(c: Cleaner, v: Value): (r: Result<Value, CleanError>)
    ensures r.Err? <==> Truthy(v) && !v.Str?
  {
    if !Truthy(v) then Ok(Null)
    else if v.Str? then Ok(CleanText(c, v.s))
    else Err(AttributeError(v))
  }

  /** Every cleaner gives None exactly for a falsy value: a missing key, an
      empty string, or a zero, false or empty container. */
  lemma NullExactlyWhenFalsy(c: Cleaner, v: Value)
    ensures Apply(c, v) == Ok(Null) <==> !Truthy(v)
  {
  }

  /** A number already in a numeric column is not passed through: any non-zero
      number makes the cleaner raise. */
  lemma NumbersAreRejected(c: Cleaner, v: Value)
    requires v.Int? || v.Float?
    ensures Apply(c, v).Err? <==> Truthy(v)
  {
  }

  /** The yield parsed is the input's digits and dots alone: the word removals
      and the strip cannot change them. On failure the input comes back verbatim. */
  lemma YieldIsDigitsAndDots(s: string)
    requires s != []
    ensures CleanYield(s) == match ParseDecimal(Keep(s, IsDigitOrDot))
                             case Some(x) => Float(x)
                             case None => Str(s)
  {
    YieldFilterUnchanged(s);
    UnsignedFiltered(s, IsDigitOrDot);
  }

  /** None of the yield text's steps changes the digits and dots it holds. */
  lemma YieldFilterUnchanged(s: string)
    ensures Keep(YieldText(s), IsDigitOrDot) == Keep(s, IsDigitOrDot)
  {
    KeepThroughRemovals(s, "about", "per cent", "%", IsDigitOrDot);
  }

  /** A filtered string of digits and dots never starts with a sign, so
      `float()` reads it as an unsigned literal. */
  lemma UnsignedFiltered(s: string, p: char -> bool)
    requires p == IsDigitOrDot || p == IsDigit
    ensures ParseFloat(Keep(s, p)) == ParseDecimal(Keep(s, p))
  {
    var k := Keep(s, p);
    if k != [] {
      assert p(k[0]);
    }
    ParseFloatUnsigned(k);
  }

  /** Yield parses exactly when the input has a digit and its digits and dots
      hold at most one dot; otherwise the input comes back verbatim. */
  lemma YieldParsesIff(s: string)
    requires s != []
    ensures CleanYield(s).Float? <==> HasDigit(s) && AtMostOneDot(Keep(s, IsDigitOrDot))
    ensures !CleanYield(s).Float? ==> CleanYield(s) == Str(s)
  {
    YieldIsDigitsAndDots(s);
    ParseDecimalAccepts(Keep(s, IsDigitOrDot));
    HasDigitKeep(s, IsDigitOrDot);
  }

  /** The number read from a digits-and-dots filter is never negative: it is
      the integer written by the digits of the input, scaled down by the
      digits that follow the point. */
  lemma DigitsAndDotsValue(s: string, x: real)
    requires ParseDecimal(Keep(s, IsDigitOrDot)) == Some(x)
    ensures AllDigits(Keep(s, IsDigit))
    ensures x == DigitsValue(Keep(s, IsDigit)) as real / Pow10(FractionDigits(Keep(s, IsDigitOrDot))) as real
    ensures x >= 0.0
  {
    var k := Keep(s, IsDigitOrDot);
    ParseDecimalValue(k, x);
    KeepNested(s, IsDigit, IsDigitOrDot);
    assert Keep(k, IsDigit) == Keep(s, IsDigit);
    var n := DigitsValue(Keep(s, IsDigit));
    var p := Pow10(FractionDigits(k));
    assert x == n as real / p as real;
    QuotientNonNegative(n, p);
  }

  /** A parsed yield is the value of the input's digits, placed by its one
      decimal point, and is never negative: a '-' is dropped with the words. */
  lemma YieldValue(s: string, x: real)
    requires CleanYield(s) == Float(x)
    ensures AllDigits(Keep(s, IsDigit))
    ensures x == DigitsValue(Keep(s, IsDigit)) as real / Pow10(FractionDigits(Keep(s, IsDigitOrDot))) as real
    ensures x >= 0.0
  {
    YieldIsDigitsAndDots(s);
    DigitsAndDotsValue(s, x);
  }

  /** The price per unit area follows the same digits-and-dots rule as the yield. */
  lemma PricePsfIsDigitsAndDots(s: string)
    requires s != []
    ensures CleanPricePsf(s) == match ParseDecimal(Keep(s, IsDigitOrDot))
                                case Some(x) => Float(x)
                                case None => Str(s)
  {
    PricePsfFilterUnchanged(s);
    UnsignedFiltered(s, IsDigitOrDot);
  }

  /** None of the price-per-area text's steps changes the digits and dots it
      holds. */
  lemma PricePsfFilterUnchanged(s: string)
    ensures Keep(PricePsfText(s), IsDigitOrDot) == Keep(s, IsDigitOrDot)
  {
    KeepThroughRemovals(Lower(s), "$", "per square foot", "psf", IsDigitOrDot);
    KeepLower(s, IsDigitOrDot);
  }

  /** Removing three words in turn and stripping keeps the characters of a
      class that none of the words holds. */
  lemma KeepThroughRemovals(s: string, w1: string, w2: string, w3: string, p: char -> bool)
    requires w1 != [] && w2 != [] && w3 != []
    requires forall i :: 0 <= i < |w1| ==> !p(w1[i])
    requires forall i :: 0 <= i < |w2| ==> !p(w2[i])
    requires forall i :: 0 <= i < |w3| ==> !p(w3[i])
    requires forall c :: IsSpace(c) ==> !p(c)
    ensures Keep(Strip(RemoveAll(RemoveAll(RemoveAll(s, w1), w2), w3)), p) == Keep(s, p)
  {
    var r1 := RemoveAll(s, w1);
    var r2 := RemoveAll(r1, w2);
    var r3 := RemoveAll(r2, w3);
    KeepStrip(r3, p);
    KeepRemoveAll(r2, w3, p);
    KeepRemoveAll(r1, w2, p);
    KeepRemoveAll(s, w1, p);
  }

  lemma PricePsfParsesIff(s: string)
    requires s != []
    ensures CleanPricePsf(s).Float? <==> HasDigit(s) && AtMostOneDot(Keep(s, IsDigitOrDot))
    ensures !CleanPricePsf(s).Float? ==> CleanPricePsf(s) == Str(s)
  {
    PricePsfIsDigitsAndDots(s);
    ParseDecimalAccepts(Keep(s, IsDigitOrDot));
    HasDigitKeep(s, IsDigitOrDot);
  }

  lemma PricePsfValue(s: string, x: real)
    requires CleanPricePsf(s) == Float(x)
    ensures AllDigits(Keep(s, IsDigit))
    ensures x == DigitsValue(Keep(s, IsDigit)) as real / Pow10(FractionDigits(Keep(s, IsDigitOrDot))) as real
    ensures x >= 0.0
  {
    PricePsfIsDigitsAndDots(s);
    DigitsAndDotsValue(s, x);
  }

  /** The area is the integer written by the input's digits alone, hence never
      negative and blind to a decimal point; the input comes back verbatim
      exactly when it holds no digit or more digits than `int()` converts. */
  lemma AreaIsDigits(s: string)
    requires s != []
    ensures AllDigits(Keep(s, IsDigit))
    ensures CleanArea(s) == if HasDigit(s) && |Keep(s, IsDigit)| <= MaxStrDigits
                            then Int(DigitsValue(Keep(s, IsDigit))) else Str(s)
  {
    AreaFilterUnchanged(s);
    var k := Keep(s, IsDigit);
    assert CleanArea(s) == match ParseInt(k) case Some(n) => Int(n) case None => Str(s);
    HasDigitKeep(s, IsDigit);
    if k != [] {
      assert IsDigit(k[0]);
    }
  }

  /** None of the area text's steps changes the digits it holds. */
  lemma AreaFilterUnchanged(s: string)
    ensures Keep(AreaText(s), IsDigit) == Keep(s, IsDigit)
  {
    KeepThroughTwoRemovals(Lower(s), "sq ft", ",", IsDigit);
    KeepLower(s, IsDigit);
  }

  /** The price text and then the unit step keep every digit and dot of the
      price, in order: whatever `float()` is handed after line 44 holds the
      digits and dots the price was written with. */
  lemma PriceDigitsUnchanged(price: string)
    ensures Keep(PriceUnit(PriceText(price)).1, IsDigitOrDot) == Keep(price, IsDigitOrDot)
  {
    KeepThroughTwoRemovals(Lower(price), "$", ",", IsDigitOrDot);
    KeepLower(price, IsDigitOrDot);
    UnitDigitsUnchanged(PriceText(price));
  }

  /** Taking the unit word out keeps the digits and dots of the text. */
  lemma UnitDigitsUnchanged(text: string)
    ensures Keep(PriceUnit(text).1, IsDigitOrDot) == Keep(text, IsDigitOrDot)
  {
    var u := PriceUnit(text);
    if u.0 == Millions {
      WordDigitsUnchanged(text, "million");
    } else if u.0 == Billions {
      WordDigitsUnchanged(text, "billion");
    }
  }

  /** Removing a unit word and stripping keeps the digits and dots. */
  lemma WordDigitsUnchanged(text: string, w: string)
    requires w == "million" || w == "billion"
    ensures Keep(Strip(RemoveAll(text, w)), IsDigitOrDot) == Keep(text, IsDigitOrDot)
  {
    assert forall i :: 0 <= i < |w| ==> !IsDigitOrDot(w[i]);
    KeepRemoveAll(text, w, IsDigitOrDot);
    KeepStrip(RemoveAll(text, w), IsDigitOrDot);
  }

  /** Removing two words in turn and stripping keeps the characters of a
      class that neither word holds. */
  lemma KeepThroughTwoRemovals(s: string, w1: string, w2: string, p: char -> bool)
    requires w1 != [] && w2 != []
    requires forall i :: 0 <= i < |w1| ==> !p(w1[i])
    requires forall i :: 0 <= i < |w2| ==> !p(w2[i])
    requires forall c :: IsSpace(c) ==> !p(c)
    ensures Keep(Strip(RemoveAll(RemoveAll(s, w1), w2)), p) == Keep(s, p)
  {
    var r1 := RemoveAll(s, w1);
    var r2 := RemoveAll(r1, w2);
    KeepStrip(r2, p);
    KeepRemoveAll(r1, w2, p);
    KeepRemoveAll(s, w1, p);
  }

  /** "$X million" and "$X billion", for X written with digits, dots and
      thousands separators, give the number X denotes once its commas are gone,
      times 10^6 or 10^9; when that is not a number, X without its commas is
      returned. */
  lemma PriceWithUnit(x: string, word: string, scale: Magnitude)
    requires (word == "million" && scale == Millions) || (word == "billion" && scale == Billions)
    requires forall i :: 0 <= i < |x| ==> IsDigitOrDot(x[i]) || x[i] == ','
    requires HasDigit(x)
    ensures ConvertPriceToNumber("$" + x + (" " + word))
         == match ParseDecimal(RemoveAll(x, ","))
            case Some(v) => Float(Scaled(v, scale))
            case None => Str(RemoveAll(x, ","))
  {
    var n := RemoveAll(x, ",");
    PriceTextWithUnit(x, word);
    PriceUnitOfWord(n, word, scale);
    ParseFloatUnsigned(n);
    ConvertPriceOfUnit("$" + x + (" " + word), scale, n);
  }

  /** "$X" with no unit word, for X written with digits, dots and thousands
      separators, gives the number X denotes once its commas are gone, with
      multiplier 1; when that is not a number, X without its commas is
      returned. */
  lemma PriceWithoutUnit(x: string)
    requires forall i :: 0 <= i < |x| ==> IsDigitOrDot(x[i]) || x[i] == ','
    requires HasDigit(x)
    ensures ConvertPriceToNumber("$" + x)
         == match ParseDecimal(RemoveAll(x, ","))
            case Some(v) => Float(v)
            case None => Str(RemoveAll(x, ","))
  {
    var n := RemoveAll(x, ",");
    PriceTextOfPlainAmount(x, "$" + x);
    AmountHasNoUnit(n);
    UnitsSelected(n);
    ParseFloatUnsigned(n);
    ConvertPriceOfUnit("$" + x, Units, n);
  }

  /** The price text of '$' and then digits, dots and commas is the amount
      without its commas. */
  lemma PriceTextOfPlainAmount(x: string, s: string)
    requires forall i :: 0 <= i < |x| ==> IsDigitOrDot(x[i]) || x[i] == ','
    requires HasDigit(x)
    requires s == ['$'] + x
    ensures var n := RemoveAll(x, ",");
      n != [] && AllDigitsOrDots(n) && PriceText(s) == n
  {
    PlainAmountCleared(x, s);
    AmountUnstripped(RemoveAll(x, ","));
  }

  /** Stripping leaves a non-empty run of digits and dots as it is. */
  lemma AmountUnstripped(n: string)
    requires n != [] && AllDigitsOrDots(n)
    ensures Strip(n) == n
  {
    assert IsDigitOrDot(n[0]) && IsDigitOrDot(n[|n| - 1]);
    StripIdentity(n);
  }

  lemma PlainAmountCleared(x: string, s: string)
    requires forall i :: 0 <= i < |x| ==> IsDigitOrDot(x[i]) || x[i] == ','
    requires HasDigit(x)
    requires s == ['$'] + x
    ensures var n := RemoveAll(x, ",");
      n != [] && AllDigitsOrDots(n) && RemoveAll(RemoveAll(Lower(s), "$"), ",") == n
  {
    assert x + [] == x;
    AmountAndTailPlain(x, []);
    LowerIdentity(s);
    DropLeadingChar('$', x);
    DropCommas(x, []);
    assert RemoveAll(x, ",") + [] == RemoveAll(x, ",");
  }

  /** Digits and dots hold neither unit word. */
  lemma AmountHasNoUnit(n: string)
    requires AllDigitsOrDots(n)
    ensures !Contains(n, "million") && !Contains(n, "billion")
  {
    assert 'm' !in n && 'b' !in n;
    NoFirstCharNotContained(n, "million");
    NoFirstCharNotContained(n, "billion");
  }

  lemma ConvertPriceOfUnit(s: string, scale: Magnitude, n: string)
    requires s != [] && PriceUnit(PriceText(s)) == (scale, n)
    ensures ConvertPriceToNumber(s) == match ParseFloat(n)
                                       case Some(v) => Float(Scaled(v, scale))
                                       case None => Str(n)
  {
  }

  /** The commas of a price written with digits, dots and commas are all that
      the price text loses, besides the '$'. */
  lemma PriceTextWithUnit(x: string, word: string)
    requires word == "million" || word == "billion"
    requires forall i :: 0 <= i < |x| ==> IsDigitOrDot(x[i]) || x[i] == ','
    requires HasDigit(x)
    ensures var n := RemoveAll(x, ",");
      n != [] && AllDigitsOrDots(n) && PriceText("$" + x + (" " + word)) == n + (" " + word)
  {
    var tail := " " + word;
    UnitTail(word, tail);
    DollarFirst(x, tail);
    PriceTextOfDollarAmount(x, tail, "$" + x + tail);
  }

  lemma DollarFirst(x: string, tail: string)
    ensures "$" + x + tail == ['$'] + (x + tail)
  {
  }

  /** The price text of '$', then digits, dots and commas, then a tail with no
      capital, '$' or ',' that ends in a non-space: the amount loses its
      commas and the tail stays. */
  lemma PriceTextOfDollarAmount(x: string, tail: string, s: string)
    requires forall i :: 0 <= i < |x| ==> IsDigitOrDot(x[i]) || x[i] == ','
    requires HasDigit(x)
    requires forall i :: 0 <= i < |tail| ==> !IsUpper(tail[i]) && tail[i] != '$' && tail[i] != ','
    requires tail != [] && !IsSpace(tail[|tail| - 1])
    requires s == ['$'] + (x + tail)
    ensures var n := RemoveAll(x, ",");
      n != [] && AllDigitsOrDots(n) && PriceText(s) == n + tail
  {
    var rest := x + tail;
    AmountAndTailPlain(x, tail);
    LowerIdentity(s);
    DropLeadingChar('$', rest);
    assert RemoveAll(Lower(s), "$") == rest;
    DropCommas(x, tail);
    var n := RemoveAll(x, ",");
    assert RemoveAll(RemoveAll(Lower(s), "$"), ",") == n + tail;
    assert IsDigitOrDot(n[0]);
    StripConcatIdentity(n, tail);
  }

  /** An amount of digits, dots and commas before such a tail, after a '$',
      holds no capital letter, and no '$' after the first. */
  lemma AmountAndTailPlain(x: string, tail: string)
    requires forall i :: 0 <= i < |x| ==> IsDigitOrDot(x[i]) || x[i] == ','
    requires forall i :: 0 <= i < |tail| ==> !IsUpper(tail[i]) && tail[i] != '$' && tail[i] != ','
    ensures forall i :: 0 <= i < |['$'] + (x + tail)| ==> !IsUpper((['$'] + (x + tail))[i])
    ensures '$' !in x + tail
  {
    var rest := x + tail;
    forall i | 0 <= i < |rest| ensures !IsUpper(rest[i]) && rest[i] != '$' {
      if i < |x| {
        assert rest[i] == x[i];
      } else {
        assert rest[i] == tail[i - |x|];
      }
    }
    var s := ['$'] + rest;
    forall i | 0 <= i < |s| ensures !IsUpper(s[i]) {
      if i > 0 {
        assert s[i] == rest[i - 1];
      }
    }
  }

  /** A blank and a unit word hold no capital, '$' or ',', and end in a
      non-space. */
  lemma UnitTail(word: string, tail: string)
    requires word == "million" || word == "billion"
    requires tail == " " + word
    ensures forall i :: 0 <= i < |tail| ==> !IsUpper(tail[i]) && tail[i] != '$' && tail[i] != ','
    ensures tail != [] && !IsSpace(tail[|tail| - 1])
  {
    assert tail[|tail| - 1] == 'n';
  }

  lemma DropLeadingChar(c: char, rest: string)
    requires c !in rest
    ensures RemoveAll([c] + rest, [c]) == rest
  {
    var s := [c] + rest;
    assert s[..1] == [c] && s[1..] == rest;
    NoFirstCharNotContained(rest, [c]);
    RemoveAllAbsent(rest, [c]);
  }

  /** Removing the commas from digits, dots and commas followed by a comma-free
      tail leaves digits and dots, with at least one digit, before that tail. */
  lemma DropCommas(x: string, tail: string)
    requires forall i :: 0 <= i < |x| ==> IsDigitOrDot(x[i]) || x[i] == ','
    requires HasDigit(x) && ',' !in tail
    ensures var n := RemoveAll(x, ",");
      n != [] && AllDigitsOrDots(n) && RemoveAll(x + tail, ",") == n + tail
  {
    RemoveCharAppend(x, tail, ',');
    NoFirstCharNotContained(tail, ",");
    RemoveAllAbsent(tail, ",");
    var n := RemoveAll(x, ",");
    RemoveCharIsKeep(x, ',');
    forall i | 0 <= i < |n| ensures IsDigitOrDot(n[i]) {
      KeepMembers(x, Except(','), n[i]);
    }
    HasDigitKeep(x, Except(','));
  }

  /** The unit word at the end of a number's text sets the multiplier and is
      removed, with the blank before it. */
  lemma PriceUnitOfWord(n: string, word: string, scale: Magnitude)
    requires (word == "million" && scale == Millions) || (word == "billion" && scale == Billions)
    requires n != [] && AllDigitsOrDots(n)
    ensures PriceUnit(n + (" " + word)) == (scale, n)
  {
    if word == "million" {
      MillionUnit(n, n + (" " + word));
    } else {
      BillionUnit(n, n + (" " + word));
    }
  }

  lemma MillionUnit(n: string, t: string)
    requires n != [] && AllDigitsOrDots(n)
    requires t == n + (" " + "million")
    ensures PriceUnit(t) == (Millions, n)
  {
    TrailingWordRemoved(n, "million");
    MillionSelected(t);
  }

  lemma BillionUnit(n: string, t: string)
    requires n != [] && AllDigitsOrDots(n)
    requires t == n + (" " + "billion")
    ensures PriceUnit(t) == (Billions, n)
  {
    TrailingWordRemoved(n, "billion");
    NoMillionBeforeBillion(n, t);
    BillionSelected(t);
  }

  /** A number's text followed by " billion" has no 'm', hence no "million". */
  lemma NoMillionBeforeBillion(n: string, t: string)
    requires AllDigitsOrDots(n)
    requires t == n + (" " + "billion")
    ensures !Contains(t, "million")
  {
    forall i | 0 <= i < |t| ensures t[i] != 'm' {
      if i < |n| {
        assert t[i] == n[i];
      }
    }
    NoFirstCharNotContained(t, "million");
  }

  lemma MillionSelected(t: string)
    requires Contains(t, "million")
    ensures PriceUnit(t) == (Millions, Strip(RemoveAll(t, "million")))
  {
  }

  lemma UnitsSelected(t: string)
    requires !Contains(t, "million") && !Contains(t, "billion")
    ensures PriceUnit(t) == (Units, t)
  {
  }

  lemma BillionSelected(t: string)
    requires !Contains(t, "million") && Contains(t, "billion")
    ensures PriceUnit(t) == (Billions, Strip(RemoveAll(t, "billion")))
  {
  }

  /** A word after a blank at the end of a number's text occurs in it, and
      removing it and stripping leaves the number's text. */
  lemma TrailingWordRemoved(n: string, w: string)
    requires n != [] && AllDigitsOrDots(n)
    requires w != [] && 'a' <= w[0] <= 'z' && !IsSpace(w[|w| - 1])
    ensures Contains(n + (" " + w), w)
    ensures Strip(RemoveAll(n + (" " + w), w)) == n
  {
    var t := n + (" " + w);
    assert t[|n| + 1..|n| + 1 + |w|] == w;
    assert OccursAt(t, w, |n| + 1);
    assert w[0] !in n + " ";
    assert t == (n + " ") + w;
    RemoveAllAfter(n + " ", w, w);
    assert w[..|w|] == w && w[|w|..] == [];
    assert RemoveAll(w, w) == [];
    assert RemoveAll(t, w) == n + " ";
    assert IsDigitOrDot(n[0]) && IsDigitOrDot(n[|n| - 1]);
    StripTrailingBlank(n);
  }

  /** No capital, '$' or ',' survives lower-casing, the two removals and the
      strip. */
  lemma ProcessedPriceMembers(price: string)
    ensures forall c :: c in Strip(RemoveAll(RemoveAll(Lower(price), "$"), ",")) ==>
              !IsUpper(c) && c != '$' && c != ','
  {
    var lower := Lower(price);
    var r1 := RemoveAll(lower, "$");
    var r2 := RemoveAll(r1, ",");
    forall c | c in Strip(r2) ensures !IsUpper(c) && c != '$' && c != ',' {
      StripMembers(r2, c);
      RemoveCharIsKeep(r1, ',');
      KeepMembers(r1, Except(','), c);
      RemoveCharIsKeep(lower, '$');
      KeepMembers(lower, Except('$'), c);
      var i :| 0 <= i < |lower| && lower[i] == c;
    }
  }

  /** Removing a word and stripping leaves only characters of the input. */
  lemma UnitRemovalMembers(text: string, w: string)
    requires w != []
    ensures forall c :: c in Strip(RemoveAll(text, w)) ==> c in text
  {
    forall c | c in Strip(RemoveAll(text, w)) ensures c in text {
      StripMembers(RemoveAll(text, w), c);
      RemoveAllMembers(text, w, c);
    }
  }

  /** A price that does not parse and holds a capital, a '$' or a ','
      does not come back as given. */
  lemma PriceFallbackDiffersFromInput(price: string, i: nat)
    requires ConvertPriceToNumber(price).Str?
    requires i < |price| && (IsUpper(price[i]) || price[i] == '$' || price[i] == ',')
    ensures ConvertPriceToNumber(price) != Str(price)
  {
    assert price[i] in price;
  }
}
