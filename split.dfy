/**
 * `String.prototype.split` with the three separators the application uses: a single
 * character (`'\t'`, `'|'`, `'+'`), the line break `/\r?\n/`, and the invoice-boundary
 * pattern `/FY25-|Invoice|Bill No/i` that cuts pasted invoice text into transaction blocks.
 *
 * The scan tries each position from the left; where the separator matches, the part
 * ends, the matched text is dropped and scanning resumes after it. So there is always
 * one more part than separator occurrences, even for the empty string.
 */
module Split {
  import opened Text

  datatype Separator = OnChar(c: char) | LineBreak | InvoiceMarker

  /** The length of the separator match at the very start of `s` (0: no match there). */
  function MatchLength(sep: Separator, s: string): (n: nat)
    ensures n <= |s|
  {
    match sep
    case OnChar(c) => if s != [] && s[0] == c then 1 else 0
    case LineBreak => if "\r\n" <= s then 2 else if "\n" <= s then 1 else 0
    case InvoiceMarker =>
      if PrefixIgnoringCase("FY25-", s) then 5
      else if PrefixIgnoringCase("Invoice", s) then 7
      else if PrefixIgnoringCase("Bill No", s) then 7
      else 0
  }

  /** A match at the start of `s` depends only on the characters it covers. */
  lemma MatchExtends(sep: Separator, s: string, u: string)
    requires MatchLength(sep, s) > 0
    ensures MatchLength(sep, s + u) == MatchLength(sep, s)
  {
    var t := s + u;
    forall k | 0 <= k <= |s| ensures t[..k] == s[..k] {
    }
    if sep.LineBreak? && !("\r\n" <= s) {
      assert t[0] == s[0] == '\n';
    }
  }

  /** A match at the start of `s` is also a match of exactly the text it covers. */
  lemma MatchCovers(sep: Separator, s: string)
    requires MatchLength(sep, s) > 0
    ensures MatchLength(sep, s[..MatchLength(sep, s)]) == MatchLength(sep, s)
  {
    var n := MatchLength(sep, s);
    var m := s[..n];
    forall k | 0 <= k <= n ensures m[..k] == s[..k] {
    }
  }

  /** No separator match starts anywhere inside `p`. */
  predicate Free(sep: Separator, p: string)
  {
    forall i :: 0 <= i < |p| ==> MatchLength(sep, p[i..]) == 0
  }

  datatype Pieces = Pieces(parts: seq<string>, separators: seq<string>)

  function Split(s: string, sep: Separator): (r: Pieces)
    ensures |r.parts| == |r.separators| + 1
    decreases |s|
  {
    if s == [] then Pieces([""], [])
    else
      var n := MatchLength(sep, s);
      if n > 0 then
        var rest := Split(s[n..], sep);
        Pieces([""] + rest.parts, [s[..n]] + rest.separators)
      else
        var rest := Split(s[1..], sep);
        Pieces([[s[0]] + rest.parts[0]] + rest.parts[1..], rest.separators)
  }

  /** The parts of `s`, as `s.split(sep)` returns them. */
  function Parts(s: string, sep: Separator): (r: seq<string>)
    ensures |r| > 0
  {
    Split(s, sep).parts
  }

  /** The parts interleaved with the separator texts between them. */
  function Join(parts: seq<string>, separators: seq<string>): (r: string)
    requires |parts| == |separators| + 1
    decreases |separators|
  {
    if separators == [] then parts[0]
    else parts[0] + separators[0] + Join(parts[1..], separators[1..])
  }

  /** The first part starts the joined string. */
  lemma JoinPrefix(parts: seq<string>, separators: seq<string>)
    requires |parts| == |separators| + 1
    ensures parts[0] <= Join(parts, separators)
  {
  }

  lemma JoinHead(c: char, parts: seq<string>, separators: seq<string>)
    requires |parts| == |separators| + 1
    ensures Join([[c] + parts[0]] + parts[1..], separators) == [c] + Join(parts, separators)
  {
    var ps := [[c] + parts[0]] + parts[1..];
    if separators != [] {
      assert ps[1..] == parts[1..];
      var rest := Join(parts[1..], separators[1..]);
      calc {
        Join(ps, separators);
        ([c] + parts[0]) + separators[0] + rest;
        [c] + (parts[0] + separators[0] + rest);
      }
    }
  }

  /** One step of the split: a match at the start ends an empty part; any other character joins the first part. */
  lemma SplitStep(s: string, sep: Separator)
    requires s != []
    ensures var n := MatchLength(sep, s);
            n > 0 ==> Split(s, sep) == Pieces([""] + Split(s[n..], sep).parts, [s[..n]] + Split(s[n..], sep).separators)
    ensures var rest := Split(s[1..], sep);
            MatchLength(sep, s) == 0 ==> Split(s, sep) == Pieces([[s[0]] + rest.parts[0]] + rest.parts[1..], rest.separators)
  {
  }

  /** An empty first part followed by separator text `t` joins to `t` and then the rest. */
  lemma JoinEmptyFirst(t: string, parts: seq<string>, separators: seq<string>)
    requires |parts| == |separators| + 1
    ensures Join([""] + parts, [t] + separators) == t + Join(parts, separators)
  {
    assert ([""] + parts)[1..] == parts;
    assert ([t] + separators)[1..] == separators;
  }

  /** A match at the start of `s` puts its text back in front of what the rest joins to. */
  lemma JoinsAfterMatch(s: string, sep: Separator)
    requires s != [] && MatchLength(sep, s) > 0
    requires var n := MatchLength(sep, s); Join(Split(s[n..], sep).parts, Split(s[n..], sep).separators) == s[n..]
    ensures Join(Split(s, sep).parts, Split(s, sep).separators) == s
  {
    var n := MatchLength(sep, s);
    var rest := Split(s[n..], sep);
    SplitStep(s, sep);
    JoinEmptyFirst(s[..n], rest.parts, rest.separators);
    assert s[..n] + s[n..] == s;
  }

  /** A character that starts no match goes back in front of what the rest joins to. */
  lemma JoinsAfterChar(s: string, sep: Separator)
    requires s != [] && MatchLength(sep, s) == 0
    requires Join(Split(s[1..], sep).parts, Split(s[1..], sep).separators) == s[1..]
    ensures Join(Split(s, sep).parts, Split(s, sep).separators) == s
  {
    var rest := Split(s[1..], sep);
    SplitStep(s, sep);
    JoinHead(s[0], rest.parts, rest.separators);
    assert [s[0]] + s[1..] == s;
  }

  /** Splitting loses nothing and keeps order: parts and separator texts, put back together in order, are the input. */
  lemma {:induction false} SplitJoins(s: string, sep: Separator)
    ensures Join(Split(s, sep).parts, Split(s, sep).separators) == s
    decreases |s|
  {
    if s != [] {
      var n := MatchLength(sep, s);
      if n > 0 {
        SplitJoins(s[n..], sep);
        JoinsAfterMatch(s, sep);
      } else {
        SplitJoins(s[1..], sep);
        JoinsAfterChar(s, sep);
      }
    }
  }

  /** Every dropped separator text is one whole separator match. */
  lemma {:induction false} SplitSeparators(s: string, sep: Separator)
    ensures forall m :: m in Split(s, sep).separators ==> |m| > 0 && MatchLength(sep, m) == |m|
    decreases |s|
  {
    if s != [] {
      var n := MatchLength(sep, s);
      SplitStep(s, sep);
      if n > 0 {
        SplitSeparators(s[n..], sep);
        MatchCovers(sep, s);
      } else {
        SplitSeparators(s[1..], sep);
      }
    }
  }

  /** A string with no match at its start has none at the start of any of its prefixes. */
  lemma PrefixNoMatch(sep: Separator, s: string, first: string)
    requires first <= s && MatchLength(sep, s) == 0
    ensures MatchLength(sep, first) == 0
  {
    match sep
    case OnChar(c) =>
      if first != [] {
        assert first[0] == s[0];
      }
    case LineBreak =>
    case InvoiceMarker =>
      if PrefixIgnoringCase("FY25-", first) {
        PrefixIgnoringCaseWithin("FY25-", first, s);
      } else if PrefixIgnoringCase("Invoice", first) {
        PrefixIgnoringCaseWithin("Invoice", first, s);
      } else if PrefixIgnoringCase("Bill No", first) {
        PrefixIgnoringCaseWithin("Bill No", first, s);
      }
  }

  /** Putting a character before a free part whose string has no match at its start keeps it free. */
  lemma ConsFree(sep: Separator, s: string, p: string)
    requires s != [] && MatchLength(sep, s) == 0 && p <= s[1..] && Free(sep, p)
    ensures Free(sep, [s[0]] + p)
  {
    var first := [s[0]] + p;
    forall i | 0 <= i < |first| ensures MatchLength(sep, first[i..]) == 0 {
      if i == 0 {
        assert first[0..] == first;
        PrefixNoMatch(sep, s, first);
      } else {
        assert first[i..] == p[i - 1..];
      }
    }
  }

  /** No part contains a separator match. */
  lemma {:induction false} SplitPartsFree(s: string, sep: Separator)
    ensures forall p :: p in Split(s, sep).parts ==> Free(sep, p)
    decreases |s|
  {
    if s != [] {
      var n := MatchLength(sep, s);
      if n > 0 {
        SplitPartsFree(s[n..], sep);
      } else {
        var rest := Split(s[1..], sep);
        SplitPartsFree(s[1..], sep);
        SplitJoins(s[1..], sep);
        JoinPrefix(rest.parts, rest.separators);
        assert rest.parts[0] in rest.parts;
        ConsFree(sep, s, rest.parts[0]);
        assert Split(s, sep).parts == [[s[0]] + rest.parts[0]] + rest.parts[1..];
        forall p | p in Split(s, sep).parts ensures Free(sep, p) {
          if p != [s[0]] + rest.parts[0] {
            assert p in rest.parts[1..];
          }
        }
      }
    }
  }

  /**
   * The split is the leftmost scan, part one: the first part is the text before the first
   * index at which the separator matches, or all of `s` when it matches nowhere.
   */
  lemma {:induction false} SplitFirstPart(s: string, sep: Separator)
    ensures var first := Split(s, sep).parts[0];
            && first <= s
            && (forall i :: 0 <= i < |first| ==> MatchLength(sep, s[i..]) == 0)
            && (Split(s, sep).separators == [] ==> first == s)
    decreases |s|
  {
    if s != [] {
      SplitStep(s, sep);
      if MatchLength(sep, s) == 0 {
        var rest := Split(s[1..], sep);
        SplitFirstPart(s[1..], sep);
        var first := [s[0]] + rest.parts[0];
        forall i | 0 <= i < |first| ensures MatchLength(sep, s[i..]) == 0 {
          if i == 0 {
            assert s[0..] == s;
          } else {
            assert s[i..] == s[1..][i - 1..];
          }
        }
      }
    }
  }

  /**
   * Pieces `r` of `s` resume right after their first match: after the first part comes
   * the whole separator match at that index, and what follows the match is split into
   * the remaining pieces.
   */
  predicate Resumes(s: string, sep: Separator, r: Pieces)
  {
    && |r.parts| > 0
    && var p := |r.parts[0]|;
       r.separators != [] ==>
         && p < |s|
         && var n := MatchLength(sep, s[p..]);
         && n > 0
         && r.separators[0] == s[p..p + n]
         && Split(s[p + n..], sep) == Pieces(r.parts[1..], r.separators[1..])
  }

  /** A split that starts with a match resumes right after it. */
  lemma ResumesAtStart(s: string, sep: Separator)
    requires s != [] && MatchLength(sep, s) > 0
    ensures Resumes(s, sep, Split(s, sep))
  {
    SplitStep(s, sep);
    assert s[0..] == s;
  }

  /** A character put in front of the first part moves the first match one index on. */
  lemma ResumesPastChar(s: string, sep: Separator, rest: Pieces)
    requires s != [] && Resumes(s[1..], sep, rest)
    ensures Resumes(s, sep, Pieces([[s[0]] + rest.parts[0]] + rest.parts[1..], rest.separators))
  {
    if rest.separators != [] {
      var p := |rest.parts[0]|;
      SlicesAfterFirst(s, p, MatchLength(sep, s[1..][p..]));
      assert ([[s[0]] + rest.parts[0]] + rest.parts[1..])[1..] == rest.parts[1..];
    }
  }

  /** Slices of `s[1..]` are the slices of `s` one index further on. */
  lemma SlicesAfterFirst(s: string, p: nat, n: nat)
    requires p + n < |s|
    ensures s[p + 1..] == s[1..][p..]
    ensures s[p + 1..p + 1 + n] == s[1..][p..p + n]
    ensures s[p + 1 + n..] == s[1..][p + n..]
  {
  }

  /** The split is the leftmost scan, part two: every split resumes right after its first match. */
  lemma {:induction false} SplitAfterFirst(s: string, sep: Separator)
    ensures Resumes(s, sep, Split(s, sep))
    decreases |s|
  {
    if s != [] {
      if MatchLength(sep, s) > 0 {
        ResumesAtStart(s, sep);
      } else {
        SplitAfterFirst(s[1..], sep);
        SplitStep(s, sep);
        ResumesPastChar(s, sep, Split(s[1..], sep));
      }
    }
  }
}
