/**
 * Outlet identity matching of the text reconciliation: `normalize` and the predicate
 * `invoiceBlocks.find` applies to pick the block that belongs to an outlet.
 */
module Identity {
  import opened Wrappers
  import opened Text

  /** The characters `normalize` deletes: `\s`, `-`, `_` and `.`. */
  predicate IsIgnorable(c: char)
  {
    IsSpace(c) || c == '-' || c == '_' || c == '.'
  }

  function Strip(s: string): (r: string)
    ensures |r| <= |s|
    ensures forall i :: 0 <= i < |r| ==> !IsIgnorable(r[i])
    ensures (forall i :: 0 <= i < |s| ==> !IsIgnorable(s[i])) ==> r == s
  {
    if s == [] then []
    else if IsIgnorable(s[0]) then Strip(s[1..])
    else [s[0]] + Strip(s[1..])
  }

  lemma {:induction false} StripConcat(a: string, b: string)
    ensures Strip(a + b) == Strip(a) + Strip(b)
    decreases |a|
  {
    if a == [] {
      assert a + b == b;
    } else {
      assert (a + b)[1..] == a[1..] + b;
      StripConcat(a[1..], b);
    }
  }

  /** `normalize`: lower-case, then delete white space, `-`, `_` and `.`. */
  function Normalize(s: string): (r: string)
    ensures |r| <= |s|
    ensures forall i :: 0 <= i < |r| ==> !IsIgnorable(r[i]) && !IsUpper(r[i])
    ensures |s| == 1 && !IsIgnorable(s[0]) ==> r == [LowerChar(s[0])]
  {
    var lowered := Lower(s);
    assert forall i :: 0 <= i < |lowered| ==> !IsUpper(lowered[i]);
    StripKeepsLower(lowered);
    Strip(lowered)
  }

  lemma {:induction false} StripKeepsLower(s: string)
    requires forall i :: 0 <= i < |s| ==> !IsUpper(s[i])
    ensures forall i :: 0 <= i < |Strip(s)| ==> !IsUpper(Strip(s)[i])
    decreases |s|
  {
    if s != [] {
      StripKeepsLower(s[1..]);
    }
  }

  /** Normalizing twice is normalizing once. */
  lemma NormalizeIdempotent(s: string)
    ensures Normalize(Normalize(s)) == Normalize(s)
  {
    var n := Normalize(s);
    assert Lower(n) == n;
  }

  lemma NormalizeConcat(a: string, b: string)
    ensures Normalize(a + b) == Normalize(a) + Normalize(b)
  {
    assert Lower(a + b) == Lower(a) + Lower(b);
    StripConcat(Lower(a), Lower(b));
  }

  /** Deleting one white-space, `-`, `_` or `.` character does not change the normalized form. */
  lemma NormalizeDropsIgnorable(a: string, c: char, b: string)
    requires IsIgnorable(c)
    ensures Normalize(a + [c] + b) == Normalize(a + b)
  {
    assert Normalize([c]) == [] by {
      assert Lower([c]) == [c];
      assert Strip([c]) == Strip([]);
    }
    calc {
      Normalize(a + [c] + b);
      { NormalizeConcat(a + [c], b); }
      Normalize(a + [c]) + Normalize(b);
      { NormalizeConcat(a, [c]); }
      Normalize(a) + Normalize([c]) + Normalize(b);
      Normalize(a) + Normalize(b);
      { NormalizeConcat(a, b); }
      Normalize(a + b);
    }
  }

  /** Strings that differ only in the case of their letters normalize alike. */
  lemma NormalizeIgnoresCase(a: string, b: string)
    requires |a| == |b|
    requires forall i :: 0 <= i < |a| ==> LowerChar(a[i]) == LowerChar(b[i])
    ensures Normalize(a) == Normalize(b)
  {
    assert Lower(a) == Lower(b);
  }

  /**
   * An outlet owns a block when its normalized contact (longer than 5 characters) or
   * its normalized name (longer than 3) occurs in the normalized block.
   */
  function BlockMatches(name: string, contact: string, block: string): (r: bool)
    ensures r <==>
              || (|Normalize(contact)| > 5 && exists i :: OccursAt(Normalize(block), Normalize(contact), i))
              || (|Normalize(name)| > 3 && exists i :: OccursAt(Normalize(block), Normalize(name), i))
  {
    var normName := Normalize(name);
    var normContact := Normalize(contact);
    var normBlock := Normalize(block);
    (|normContact| > 5 && Contains(normBlock, normContact))
    || (|normName| > 3 && Contains(normBlock, normName))
  }

  /** A block that spells out a name longer than 3 characters, in any surroundings, belongs to that outlet. */
  lemma NameInBlock(name: string, contact: string, before: string, after: string)
    requires |Normalize(name)| > 3
    ensures BlockMatches(name, contact, before + name + after)
  {
    NormalizeConcat(before + name, after);
    NormalizeConcat(before, name);
    var nb := Normalize(before + name + after);
    assert OccursAt(nb, Normalize(name), |Normalize(before)|);
  }

  /** `invoiceBlocks.find(...)`: the index of the first block the outlet matches. */
  function FirstMatch(blocks: seq<string>, name: string, contact: string): (r: Option<nat>)
    ensures r.Some? ==> r.value < |blocks| && BlockMatches(name, contact, blocks[r.value])
    ensures r.Some? ==> forall j :: 0 <= j < r.value ==> !BlockMatches(name, contact, blocks[j])
    ensures r.None? ==> forall j :: 0 <= j < |blocks| ==> !BlockMatches(name, contact, blocks[j])
  {
    if blocks == [] then None
    else if BlockMatches(name, contact, blocks[0]) then Some(0)
    else match FirstMatch(blocks[1..], name, contact)
      case None => None
      case Some(k) => Some(k + 1)
  }

  /**
   * Identities too short to be trusted match nothing; and a matched block is never
   * empty, so the truthiness test on the found block is the same as an index test.
   */
  lemma MatchNeedsIdentity(name: string, contact: string, block: string)
    ensures |Normalize(name)| <= 3 && |Normalize(contact)| <= 5 ==> !BlockMatches(name, contact, block)
    ensures BlockMatches(name, contact, block) ==> |block| > 3
  {
    if BlockMatches(name, contact, block) {
      var nb := Normalize(block);
      if |Normalize(contact)| > 5 && Contains(nb, Normalize(contact)) {
        var i :| OccursAt(nb, Normalize(contact), i);
      } else {
        var i :| OccursAt(nb, Normalize(name), i);
      }
    }
  }
}
