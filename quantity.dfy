/**
 * The quantity parser of App.tsx (`parseQuantity`) and the bottle-to-case conversion
 * the text reconciliation applies to each extracted quantity.
 */
module Quantity {
  import opened Text
  import opened Split
  import opened Catalogue

  predicate IsQuantityChar(c: char)
  {
    IsDigit(c) || c == '+'
  }

  /** The two `replace` calls: every character that is not a digit or `+` is dropped. */
  function Sanitize(s: string): (r: string)
    ensures |r| <= |s|
    ensures forall i :: 0 <= i < |r| ==> IsQuantityChar(r[i])
    ensures (forall i :: 0 <= i < |s| ==> IsQuantityChar(s[i])) ==> r == s
    ensures |s| == 1 ==> (r == [] <==> !IsQuantityChar(s[0]))
  {
    if s == [] then []
    else if IsQuantityChar(s[0]) then [s[0]] + Sanitize(s[1..])
    else Sanitize(s[1..])
  }

  lemma {:induction false} SanitizeConcat(a: string, b: string)
    ensures Sanitize(a + b) == Sanitize(a) + Sanitize(b)
    decreases |a|
  {
    if a != [] {
      assert (a + b)[1..] == a[1..] + b;
      SanitizeConcat(a[1..], b);
    } else {
      assert a + b == b;
    }
  }

  function DigitValue(c: char): (r: nat)
    requires IsDigit(c)
    ensures r < 10
  {
    c as int - '0' as int
  }

  /** The longest run of digits that starts `s`. */
  function LeadingDigits(s: string): (r: string)
    ensures r <= s
    ensures forall i :: 0 <= i < |r| ==> IsDigit(r[i])
    ensures |r| == |s| || !IsDigit(s[|r|])
  {
    if s != [] && IsDigit(s[0]) then [s[0]] + LeadingDigits(s[1..]) else []
  }

  /** The decimal value of a string of digits, the empty string counting as 0. */
  function DigitsValue(d: string): nat
    requires forall i :: 0 <= i < |d| ==> IsDigit(d[i])
  {
    if d == [] then 0 else DigitsValue(d[..|d| - 1]) * 10 + DigitValue(d[|d| - 1])
  }

  /**
   * `parseInt(term) || 0` on the terms this parser sees (digits only): the value of the
   * leading digits, and 0 where there are none (`parseInt` gives NaN there).
   */
  function ParseInt(term: string): nat
  {
    DigitsValue(LeadingDigits(term))
  }

  function SumTerms(terms: seq<string>): nat
  {
    if terms == [] then 0 else ParseInt(terms[0]) + SumTerms(terms[1..])
  }

  lemma {:induction false} SumTermsConcat(p: seq<string>, q: seq<string>)
    ensures SumTerms(p + q) == SumTerms(p) + SumTerms(q)
    decreases |p|
  {
    if p != [] {
      assert (p + q)[1..] == p[1..] + q;
      SumTermsConcat(p[1..], q);
    } else {
      assert p + q == q;
    }
  }

  /**
   * `parseQuantity`: sum the `+`-separated integer terms if a `+` is left, else read one
   * integer. Both branches agree with one rule: the sum of the integer terms between the
   * `+` signs of the cleaned fragment, an empty term counting 0.
   */
  function ParseQuantity(s: string): (r: nat)
    ensures r == SumTerms(Parts(Sanitize(s), OnChar('+')))
  {
    var sanitized := Sanitize(s);
    if '+' in sanitized then SumTerms(Parts(sanitized, OnChar('+')))
    else
      SplitWithoutSeparator(sanitized, '+');
      assert SumTerms([sanitized]) == ParseInt(sanitized) + SumTerms([]);
      ParseInt(sanitized)
  }

  /** Splitting a string in which the separator never matches gives the string itself. */
  lemma {:induction false} SplitWithoutSeparator(s: string, c: char)
    requires c !in s
    ensures Parts(s, OnChar(c)) == [s]
    decreases |s|
  {
    if s != [] {
      assert c !in s[1..];
      SplitWithoutSeparator(s[1..], c);
      assert [s[0]] + s[1..] == s;
    }
  }

  /** Splitting at a separator character splits the parts on either side of it. */
  lemma {:induction false} SplitAtSeparator(x: string, c: char, y: string)
    ensures Parts(x + [c] + y, OnChar(c)) == Parts(x, OnChar(c)) + Parts(y, OnChar(c))
    decreases |x|
  {
    var s := x + [c] + y;
    CharStep(s, c);
    if x == [] {
      assert s[1..] == y;
    } else {
      assert s[0] == x[0] && s[1..] == x[1..] + [c] + y;
      SplitAtSeparator(x[1..], c, y);
      CharStep(x, c);
      FrontThenRest(x[0], c, Parts(x[1..], OnChar(c)), Parts(y, OnChar(c)));
    }
  }

  /** Putting one character in front of the parts `p` and then appending `q` is appending `q` afterwards. */
  lemma FrontThenRest(a: char, c: char, p: seq<string>, q: seq<string>)
    requires p != []
    ensures a == c ==> [""] + (p + q) == ([""] + p) + q
    ensures a != c ==> [[a] + (p + q)[0]] + (p + q)[1..] == ([[a] + p[0]] + p[1..]) + q
  {
    assert (p + q)[1..] == p[1..] + q;
  }

  /** One step of splitting at a character: a leading separator starts a new part, any other character joins the first. */
  lemma CharStep(s: string, c: char)
    requires s != []
    ensures s[0] == c ==> Parts(s, OnChar(c)) == [""] + Parts(s[1..], OnChar(c))
    ensures s[0] != c ==>
              var rest := Parts(s[1..], OnChar(c));
              Parts(s, OnChar(c)) == [[s[0]] + rest[0]] + rest[1..]
  {
  }

  /** Only the digits and `+` signs of a fragment decide its quantity. */
  lemma ParseQuantityIgnoresNoise(s: string)
    ensures ParseQuantity(s) == ParseQuantity(Sanitize(s))
  {
  }

  /** A "primary + bonus" fragment is worth the sum of its two sides. */
  lemma AdditiveTerms(a: string, b: string)
    ensures ParseQuantity(a + "+" + b) == ParseQuantity(a) + ParseQuantity(b)
  {
    SanitizeConcat(a + "+", b);
    SanitizeConcat(a, "+");
    var sa, sb := Sanitize(a), Sanitize(b);
    assert Sanitize("+") == "+";
    assert Sanitize(a + "+" + b) == sa + ['+'] + sb;
    SplitAtSeparator(sa, '+', sb);
    SumTermsConcat(Parts(sa, OnChar('+')), Parts(sb, OnChar('+')));
  }

  /** White space contributes nothing to a quantity fragment. */
  lemma {:induction false} SanitizeBlank(s: string)
    requires IsBlank(s)
    ensures Sanitize(s) == []
    decreases |s|
  {
    if s != [] {
      SanitizeBlank(s[1..]);
    }
  }

  /** A run of digits with white space around it is worth the number the digits spell. */
  lemma PaddedDigits(before: string, digits: string, after: string)
    requires IsBlank(before) && IsBlank(after)
    requires forall m :: 0 <= m < |digits| ==> IsDigit(digits[m])
    ensures ParseQuantity(before + digits + after) == DigitsValue(digits)
  {
    var mid := before + digits;
    SanitizeBlank(before);
    SanitizeBlank(after);
    SanitizeConcat(mid, after);
    SanitizeConcat(before, digits);
    calc {
      Sanitize(mid + after);
      Sanitize(mid) + Sanitize(after);
      Sanitize(mid);
      Sanitize(before) + Sanitize(digits);
      Sanitize(digits);
    }
    DigitsParse(digits);
  }

  /** A run of digits is worth the number it spells. */
  lemma DigitsParse(digits: string)
    requires forall m :: 0 <= m < |digits| ==> IsDigit(digits[m])
    ensures ParseQuantity(digits) == DigitsValue(digits)
  {
    assert Sanitize(digits) == digits;
    assert LeadingDigits(digits) == digits;
  }

  /** The unit words that stand for bottles or pieces, as the conversion compares them once lower-cased. */
  const BOTTLE_UNITS: seq<string> := ["btl", "bottle", "bt", "pc", "pcs"]

  predicate IsBottleUnit(unit: string)
  {
    Lower(unit) in BOTTLE_UNITS
  }

  /** How many of `unit` make one case of product `id`. */
  function BottlesPerCase(id: string, unit: string): (r: nat)
    ensures r in {1, 6, 30}
  {
    if !IsBottleUnit(unit) then 1
    else if id == MC2_ID then 30
    else if TWO_LITRE_PREFIX <= id then 6
    else 1
  }

  /** The conversion of one extracted quantity to cases. */
  function ToCases(id: string, unit: string, raw: nat): (r: real)
    ensures 0.0 <= r <= raw as real
    ensures r * BottlesPerCase(id, unit) as real == raw as real
  {
    var finalQty := raw as real;
    if IsBottleUnit(unit) then
      if id == MC2_ID then finalQty / 30.0
      else if TWO_LITRE_PREFIX <= id then finalQty / 6.0
      else finalQty
    else finalQty
  }

  /** Over the catalogue, bottles are divided by 30 for MC2, by 6 for 2 Ltr, and nothing else is ever divided. */
  lemma CatalogueConversion(i: nat, unit: string, raw: nat)
    requires i < |SKU_LIST|
    ensures IsBottleUnit(unit) && i == 10 ==> ToCases(SKU_LIST[i].id, unit, raw) == raw as real / 30.0
    ensures IsBottleUnit(unit) && i == 8 ==> ToCases(SKU_LIST[i].id, unit, raw) == raw as real / 6.0
    ensures !IsBottleUnit(unit) || (i != 8 && i != 10) ==> ToCases(SKU_LIST[i].id, unit, raw) == raw as real
  {
    ConversionTargets();
  }

  // Worked examples: the fragments named in the parser's own comment.

  lemma ValueOfThirty()
    ensures DigitsValue("30") == 30
  {
    assert "30"[..1] == "3";
  }

  /** Two runs of digits with a spaced plus sign between them are worth the sum of the two numbers. */
  lemma SpacedSum(d1: string, d2: string)
    requires forall m :: 0 <= m < |d1| ==> IsDigit(d1[m])
    requires forall m :: 0 <= m < |d2| ==> IsDigit(d2[m])
    ensures ParseQuantity((d1 + " ") + "+" + (" " + d2)) == DigitsValue(d1) + DigitsValue(d2)
  {
    assert "" + d1 + " " == d1 + " " && " " + d2 + "" == " " + d2;
    PaddedDigits("", d1, " ");
    PaddedDigits(" ", d2, "");
    AdditiveTerms(d1 + " ", " " + d2);
  }

  /** "30 + 3", with spaces around the plus sign, is 33. */
  lemma SpacedBonusExample()
    ensures ParseQuantity("30 + 3") == 33
  {
    ValueOfThirty();
    SpacedSum("30", "3");
    assert ("30" + " ") + "+" + (" " + "3") == "30 + 3";
  }

  /** "30+3" is 33 as well. */
  lemma CompactBonusExample()
    ensures ParseQuantity("30+3") == 33
  {
    ValueOfThirty();
    DigitsParse("30");
    DigitsParse("3");
    AdditiveTerms("30", "3");
    assert "30" + "+" + "3" == "30+3";
  }

  /** "10" is 10. */
  lemma TenExample()
    ensures ParseQuantity("10") == 10
  {
    ValueOfTen();
    DigitsParse("10");
  }

  lemma ValueOfTen()
    ensures DigitsValue("10") == 10
  {
    assert "10"[..1] == "1";
  }

  /** "abc", with no digit at all, is 0. */
  lemma NoDigitExample()
    ensures ParseQuantity("abc") == 0
  {
    assert Sanitize("abc") == [];
  }
}
