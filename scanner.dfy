/**
 * The SKU scan of the text reconciliation: the global, case-insensitive pattern
 * `label .*? (\d+(?:\s*\+\s*\d+)?) \s* (Box|Cs|Case|Btl|Bottle|Bt|Unit|Pcs|Ltr|Pc)?`
 * (without the spaces) run with `matchAll` over one transaction block, written out as
 * a scanner, and the sum of the converted quantities it finds.
 */
module Scanner {
  import opened Wrappers
  import opened Text
  import opened Quantity

  /** The unit alternatives, in the order the pattern tries them. */
  const UNITS: seq<string> := ["Box", "Cs", "Case", "Btl", "Bottle", "Bt", "Unit", "Pcs", "Ltr", "Pc"]

  /** No line terminator in `t[j..k]`: the lazy `.*?` can cross that stretch. */
  predicate OnSameLine(t: string, j: nat, k: nat)
    requires j <= k <= |t|
  {
    forall m :: j <= m < k ==> !IsLineTerminator(t[m])
  }

  /** Where `.*?\d` finds its digit: the first digit from `j` on, unless a line ends first. */
  function FirstDigitOnLine(t: string, j: nat): (r: Option<nat>)
    requires j <= |t|
    ensures r.Some? ==> j <= r.value < |t| && IsDigit(t[r.value]) && OnSameLine(t, j, r.value)
    ensures r.Some? ==> forall m :: j <= m < r.value ==> !IsDigit(t[m])
    ensures r.None? ==> forall k :: j <= k < |t| && OnSameLine(t, j, k) ==> !IsDigit(t[k])
    decreases |t| - j
  {
    if j == |t| then None
    else if IsDigit(t[j]) then Some(j)
    else if IsLineTerminator(t[j]) then None
    else
      var r := FirstDigitOnLine(t, j + 1);
      assert r.None? ==> forall k :: j <= k < |t| && OnSameLine(t, j, k) ==> !IsDigit(t[k]) by {
        if r.None? {
          forall k | j < k < |t| && OnSameLine(t, j, k) ensures !IsDigit(t[k]) {
            assert OnSameLine(t, j + 1, k);
          }
        }
      }
      r
  }

  /** A digit reached across a stretch of non-digits on one line is the one `.*?\d` finds. */
  lemma {:induction false} FirstDigitAt(t: string, j: nat, k: nat)
    requires j <= k < |t| && IsDigit(t[k])
    requires forall m :: j <= m < k ==> !IsDigit(t[m]) && !IsLineTerminator(t[m])
    ensures FirstDigitOnLine(t, j) == Some(k)
    decreases k - j
  {
    if j < k {
      FirstDigitAt(t, j + 1, k);
    }
  }

  /** The end of the run of digits starting at `k` (greedy `\d*`). */
  function DigitsEnd(t: string, k: nat): (e: nat)
    requires k <= |t|
    ensures k <= e <= |t|
    ensures forall m :: k <= m < e ==> IsDigit(t[m])
    ensures e == |t| || !IsDigit(t[e])
    decreases |t| - k
  {
    if k < |t| && IsDigit(t[k]) then DigitsEnd(t, k + 1) else k
  }

  /** The end of the run of white space starting at `k` (greedy `\s*`). */
  function SpacesEnd(t: string, k: nat): (e: nat)
    requires k <= |t|
    ensures k <= e <= |t|
    ensures forall m :: k <= m < e ==> IsSpace(t[m])
    ensures e == |t| || !IsSpace(t[e])
    decreases |t| - k
  {
    if k < |t| && IsSpace(t[k]) then SpacesEnd(t, k + 1) else k
  }

  /**
   * Where the bonus number of `\s*\+\s*\d+` starts, when that part of group 1 is
   * present after the primary digits ending at `p`.
   */
  function BonusStart(t: string, p: nat): (r: Option<nat>)
    requires p <= |t|
    ensures r.Some? ==>
              var plus := SpacesEnd(t, p);
              && plus < |t| && t[plus] == '+'
              && r.value == SpacesEnd(t, plus + 1) && r.value < |t| && IsDigit(t[r.value])
    ensures r.None? ==>
              var plus := SpacesEnd(t, p);
              !(plus < |t| && t[plus] == '+' && SpacesEnd(t, plus + 1) < |t| && IsDigit(t[SpacesEnd(t, plus + 1)]))
  {
    var plus := SpacesEnd(t, p);
    if plus < |t| && t[plus] == '+' then
      var bonus := SpacesEnd(t, plus + 1);
      if bonus < |t| && IsDigit(t[bonus]) then Some(bonus) else None
    else None
  }

  /** The end of group 1 from the digit at `k`: the primary digits, then the bonus if present. */
  function QuantityEnd(t: string, k: nat): (e: nat)
    requires k < |t| && IsDigit(t[k])
    ensures DigitsEnd(t, k) <= e <= |t|
  {
    var primary := DigitsEnd(t, k);
    match BonusStart(t, primary)
    case None => primary
    case Some(bonus) => DigitsEnd(t, bonus)
  }

  /** Digits, white space, `+`, white space, digits: the sum of the two numbers. */
  lemma BonusSum(t: string, k: nat, primary: nat, plus: nat, bonus: nat, e: nat)
    requires k <= primary <= plus < bonus <= e <= |t| && t[plus] == '+'
    requires forall m :: k <= m < primary ==> IsDigit(t[m])
    requires forall m :: primary <= m < plus ==> IsSpace(t[m])
    requires forall m :: plus + 1 <= m < bonus ==> IsSpace(t[m])
    requires forall m :: bonus <= m < e ==> IsDigit(t[m])
    ensures ParseQuantity(t[k..e]) == DigitsValue(t[k..primary]) + DigitsValue(t[bonus..e])
  {
    var d1, s1, s2, d2 := t[k..primary], t[primary..plus], t[plus + 1..bonus], t[bonus..e];
    assert IsBlank(s1) && IsBlank(s2);
    var a := [] + d1 + s1;
    var b := s2 + d2 + [];
    assert t[k..e] == a + "+" + b;
    PaddedDigits([], d1, s1);
    PaddedDigits(s2, d2, []);
    AdditiveTerms(a, b);
  }

  /**
   * Group 1 is worth what the source promises: the primary count, plus the bonus count
   * when a `+` and a second number follow.
   */
  lemma QuantityValue(t: string, k: nat)
    requires k < |t| && IsDigit(t[k])
    ensures var primary := DigitsEnd(t, k);
            BonusStart(t, primary).None? ==>
              ParseQuantity(t[k..QuantityEnd(t, k)]) == DigitsValue(t[k..primary])
    ensures var primary := DigitsEnd(t, k);
            BonusStart(t, primary).Some? ==>
              var bonus := BonusStart(t, primary).value;
              ParseQuantity(t[k..QuantityEnd(t, k)]) == DigitsValue(t[k..primary]) + DigitsValue(t[bonus..DigitsEnd(t, bonus)])
  {
    var primary := DigitsEnd(t, k);
    match BonusStart(t, primary)
    case None =>
      DigitsParse(t[k..primary]);
    case Some(bonus) =>
      var plus := SpacesEnd(t, primary);
      BonusSum(t, k, primary, plus, bonus, DigitsEnd(t, bonus));
  }

  /** The first alternative of `units` that starts `s`, compared without regard to case. */
  function MatchUnit(s: string, units: seq<string>): (r: Option<nat>)
    ensures r.Some? ==> r.value < |units| && PrefixIgnoringCase(units[r.value], s)
    ensures r.Some? ==> forall j :: 0 <= j < r.value ==> !PrefixIgnoringCase(units[j], s)
    ensures r.None? ==> forall j :: 0 <= j < |units| ==> !PrefixIgnoringCase(units[j], s)
  {
    if units == [] then None
    else if PrefixIgnoringCase(units[0], s) then Some(0)
    else match MatchUnit(s, units[1..])
      case None => None
      case Some(j) => Some(j + 1)
  }

  /**
   * One match: where it starts, where group 1 starts, the texts of groups 1 and 2
   * (group 2 is "" when no unit follows), and where the match ends.
   */
  datatype Occurrence = Occurrence(start: nat, quantityStart: nat, quantity: string, unit: string, end: nat)

  /** The match of the pattern for `anchor` anchored at index `i`, if there is one. */
  function MatchAt(t: string, i: nat, anchor: string): (r: Option<Occurrence>)
    requires i <= |t|
    ensures r.Some? ==> r.value.start == i && i + |anchor| < r.value.end <= |t|
    ensures r.Some? ==> r.value.quantityStart < |t| && IsDigit(t[r.value.quantityStart])
  {
    if !PrefixIgnoringCase(anchor, t[i..]) then None
    else match FirstDigitOnLine(t, i + |anchor|)
      case None => None
      case Some(k) =>
        var qe := QuantityEnd(t, k);
        var u := SpacesEnd(t, qe);
        var unitLength := UnitLength(t, u);
        Some(Occurrence(i, k, t[k..qe], t[u..u + unitLength], u + unitLength))
  }

  /** The length of group 2 at `u`: the first unit alternative there, or 0 when none matches. */
  function UnitLength(t: string, u: nat): (n: nat)
    requires u <= |t|
    ensures u + n <= |t|
    ensures n == 0 <==> MatchUnit(t[u..], UNITS).None?
    ensures n > 0 ==> Lower(t[u..u + n]) == Lower(UNITS[MatchUnit(t[u..], UNITS).value])
  {
    match MatchUnit(t[u..], UNITS)
    case None => 0
    case Some(j) =>
      assert t[u..][..|UNITS[j]|] == t[u..u + |UNITS[j]|];
      |UNITS[j]|
  }

  /** A match exists exactly when the label is there and a digit follows it on the same line. */
  lemma MatchAtExists(t: string, i: nat, anchor: string)
    requires i <= |t|
    ensures MatchAt(t, i, anchor).Some? <==>
              && PrefixIgnoringCase(anchor, t[i..])
              && exists k :: i + |anchor| <= k < |t| && OnSameLine(t, i + |anchor|, k) && IsDigit(t[k])
  {
    if PrefixIgnoringCase(anchor, t[i..]) {
      match FirstDigitOnLine(t, i + |anchor|)
      case None =>
      case Some(k) =>
        assert OnSameLine(t, i + |anchor|, k) && IsDigit(t[k]);
    }
  }

  /** Group 1 of a match starts at the first digit after the label and runs to the end of the quantity. */
  lemma MatchAtQuantity(t: string, i: nat, anchor: string)
    requires i <= |t| && MatchAt(t, i, anchor).Some?
    ensures var o := MatchAt(t, i, anchor).value;
            && Some(o.quantityStart) == FirstDigitOnLine(t, i + |anchor|)
            && o.quantity == t[o.quantityStart..QuantityEnd(t, o.quantityStart)]
  {
  }

  /**
   * Group 2 of a match is the first unit alternative that follows the white space after
   * group 1, or "" when none does, and the match ends after it.
   */
  lemma MatchAtUnit(t: string, i: nat, anchor: string)
    requires i <= |t| && MatchAt(t, i, anchor).Some?
    ensures var o := MatchAt(t, i, anchor).value;
            var u := SpacesEnd(t, QuantityEnd(t, o.quantityStart));
            && (o.unit == [] <==> MatchUnit(t[u..], UNITS).None?)
            && (o.unit != [] ==> Lower(o.unit) == Lower(UNITS[MatchUnit(t[u..], UNITS).value]))
            && o.end == u + |o.unit|
  {
  }

  /** Every occurrence in `occs` is the match anchored at its own start and ends after it. */
  predicate AllMatches(t: string, anchor: string, from: nat, occs: seq<Occurrence>)
  {
    forall j :: 0 <= j < |occs| ==>
      from <= occs[j].start < occs[j].end <= |t| && MatchAt(t, occs[j].start, anchor) == Some(occs[j])
  }

  /** Each occurrence ends before the next begins. */
  predicate Ordered(occs: seq<Occurrence>)
  {
    forall j, k :: 0 <= j < k < |occs| ==> occs[j].end <= occs[k].start
  }

  /** The indexes of `t` at which the pattern for `anchor` matches. */
  function StartsAt(t: string, anchor: string): (at: nat -> bool)
    ensures forall p: nat :: at(p) <==> p <= |t| && MatchAt(t, p, anchor).Some?
  {
    (p: nat) => p <= |t| && MatchAt(t, p, anchor).Some?
  }

  /** Every index in `from..last` at which `at` holds lies inside some occurrence. */
  predicate CoveredBy(at: nat -> bool, from: nat, last: nat, occs: seq<Occurrence>)
  {
    forall p :: from <= p <= last && at(p) ==> exists j :: 0 <= j < |occs| && occs[j].start <= p < occs[j].end
  }

  /** Every index from `from` on at which a match could start lies inside some occurrence. */
  predicate Covers(t: string, anchor: string, from: nat, occs: seq<Occurrence>)
  {
    CoveredBy(StartsAt(t, anchor), from, |t|, occs)
  }

  /**
   * `matchAll` from index `from`: try each index in turn; after a match, resume at its end.
   */
  function Occurrences(t: string, anchor: string, from: nat): (r: seq<Occurrence>)
    requires from <= |t|
    ensures forall j :: 0 <= j < |r| ==> from <= r[j].start < r[j].end <= |t|
    decreases |t| - from
  {
    if from == |t| then []
    else match MatchAt(t, from, anchor)
      case None => Occurrences(t, anchor, from + 1)
      case Some(o) => [o] + Occurrences(t, anchor, o.end)
  }

  /** Each occurrence found is the match anchored at its own start. */
  lemma {:induction false} OccurrencesMatch(t: string, anchor: string, from: nat)
    requires from <= |t|
    ensures AllMatches(t, anchor, from, Occurrences(t, anchor, from))
    decreases |t| - from
  {
    if from < |t| {
      match MatchAt(t, from, anchor)
      case None =>
        OccurrencesMatch(t, anchor, from + 1);
      case Some(o) =>
        OccurrencesMatch(t, anchor, o.end);
        var r := Occurrences(t, anchor, from);
        assert r[1..] == Occurrences(t, anchor, o.end);
    }
  }

  /** The occurrences do not overlap and come in the order of the text. */
  lemma {:induction false} OccurrencesOrdered(t: string, anchor: string, from: nat)
    requires from <= |t|
    ensures Ordered(Occurrences(t, anchor, from))
    decreases |t| - from
  {
    if from < |t| {
      match MatchAt(t, from, anchor)
      case None =>
        OccurrencesOrdered(t, anchor, from + 1);
      case Some(o) =>
        OccurrencesOrdered(t, anchor, o.end);
        OrderedCons(o, Occurrences(t, anchor, o.end));
    }
  }

  /** An occurrence that ends before all of an ordered sequence begin can go in front of it. */
  lemma OrderedCons(o: Occurrence, rest: seq<Occurrence>)
    requires Ordered(rest) && forall j :: 0 <= j < |rest| ==> o.end <= rest[j].start
    ensures Ordered([o] + rest)
  {
    var r := [o] + rest;
    forall j, k | 0 <= j < k < |r| ensures r[j].end <= r[k].start {
      assert r[k] == rest[k - 1];
      if j > 0 {
        assert r[j] == rest[j - 1];
      }
    }
  }

  /** No match is missed: every index at which one could start lies inside an occurrence found. */
  lemma {:induction false} OccurrencesCover(t: string, anchor: string, from: nat)
    requires from <= |t|
    ensures Covers(t, anchor, from, Occurrences(t, anchor, from))
    decreases |t| - from
  {
    if from < |t| {
      var at := StartsAt(t, anchor);
      match MatchAt(t, from, anchor)
      case None =>
        OccurrencesCover(t, anchor, from + 1);
        CoverSkip(at, from, |t|, Occurrences(t, anchor, from + 1));
      case Some(o) =>
        OccurrencesCover(t, anchor, o.end);
        CoverCons(at, from, |t|, o, Occurrences(t, anchor, o.end));
    }
  }

  /** An index at which no match starts needs no occurrence to cover it. */
  lemma CoverSkip(at: nat -> bool, from: nat, last: nat, rest: seq<Occurrence>)
    requires !at(from) && CoveredBy(at, from + 1, last, rest)
    ensures CoveredBy(at, from, last, rest)
  {
  }

  /** An occurrence from `from` to `o.end` followed by ones covering the rest covers everything from `from`. */
  lemma CoverCons(at: nat -> bool, from: nat, last: nat, o: Occurrence, rest: seq<Occurrence>)
    requires from == o.start < o.end && CoveredBy(at, o.end, last, rest)
    ensures CoveredBy(at, from, last, [o] + rest)
  {
    var r := [o] + rest;
    forall p | from <= p <= last && at(p)
      ensures exists j :: 0 <= j < |r| && r[j].start <= p < r[j].end
    {
      if p < o.end {
        assert r[0].start <= p < r[0].end;
      } else {
        var j :| 0 <= j < |rest| && rest[j].start <= p < rest[j].end;
        assert r[j + 1] == rest[j];
      }
    }
  }

  /** One match converted to cases for product `id`. */
  function OccurrenceCases(o: Occurrence, id: string): (r: real)
    ensures 0.0 <= r
    ensures r * BottlesPerCase(id, o.unit) as real == ParseQuantity(o.quantity) as real
  {
    ToCases(id, o.unit, ParseQuantity(o.quantity))
  }

  /** The running sum of the converted quantities of `occs`, from the left. */
  function TotalCases(occs: seq<Occurrence>, id: string): (r: real)
    ensures 0.0 <= r
    ensures occs == [] ==> r == 0.0
  {
    if occs == [] then 0.0 else TotalCases(occs[..|occs| - 1], id) + OccurrenceCases(occs[|occs| - 1], id)
  }

  /** The total of one match is that match converted. */
  lemma TotalCasesSingle(o: Occurrence, id: string)
    ensures TotalCases([o], id) == OccurrenceCases(o, id)
  {
    assert [o][..0] == [];
  }

  /** The total over two runs of matches is the sum of their totals: the running sum adds each match once. */
  lemma {:induction false} TotalCasesAppend(a: seq<Occurrence>, b: seq<Occurrence>, id: string)
    ensures TotalCases(a + b, id) == TotalCases(a, id) + TotalCases(b, id)
    decreases |b|
  {
    if b == [] {
      assert a + b == a;
    } else {
      var n := |b| - 1;
      assert (a + b)[..|a + b| - 1] == a + b[..n];
      TotalCasesAppend(a, b[..n], id);
    }
  }

  /** A line of the app's sample invoice text. */
  const SAMPLE_LINE: string := "MC2 YELLOW 30 Btl"

  /** The sample line starts with the label "MC2". */
  lemma SampleLineLabel()
    ensures PrefixIgnoringCase("MC2", SAMPLE_LINE[0..])
  {
    assert SAMPLE_LINE[0..][..3] == "MC2";
  }

  /** In the sample line, the first digit after the label "MC2" is the 3 of "30". */
  lemma SampleLineDigit()
    ensures FirstDigitOnLine(SAMPLE_LINE, 3) == Some(11)
  {
    var t := SAMPLE_LINE;
    assert forall m :: 3 <= m < 11 ==> !IsDigit(t[m]) && !IsLineTerminator(t[m]);
    FirstDigitAt(t, 3, 11);
  }

  /** In the sample line, group 1 is "30" and group 2 is "Btl". */
  lemma SampleLineGroups()
    ensures QuantityEnd(SAMPLE_LINE, 11) == 13
    ensures SpacesEnd(SAMPLE_LINE, 13) == 14
    ensures UnitLength(SAMPLE_LINE, 14) == 3
  {
    var t := SAMPLE_LINE;
    assert DigitsEnd(t, 11) == 13;
    assert SpacesEnd(t, 13) == 14;
    assert BonusStart(t, 13) == None;
    assert t[14..][..3] == "Btl";
    assert MatchUnit(t[14..], UNITS) == Some(3) by {
      var u := t[14..];
      assert u == "Btl";
      MismatchAt("Box", u, 1);
      MismatchAt("Cs", u, 0);
      assert PrefixIgnoringCase("Btl", u);
    }
  }

  /** The match of the label "MC2" at the start of the sample line: 30 bottles. */
  lemma SampleLineMatch()
    ensures MatchAt(SAMPLE_LINE, 0, "MC2") == Some(Occurrence(0, 11, "30", "Btl", 17))
  {
    var t := SAMPLE_LINE;
    SampleLineLabel();
    SampleLineDigit();
    SampleLineGroups();
    assert t[11..13] == "30" && t[14..17] == "Btl";
  }

  /** It is the only match of that label in the line. */
  lemma SampleLineOccurrences()
    ensures Occurrences(SAMPLE_LINE, "MC2", 0) == [Occurrence(0, 11, "30", "Btl", 17)]
  {
    SampleLineMatch();
    assert Occurrences(SAMPLE_LINE, "MC2", 17) == [];
  }
}
