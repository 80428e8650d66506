/**
 * The application state and its handlers: the outlet list with the text fields the
 * handlers read, the reconciliation against pasted invoice text, the bulk paste, the
 * manual add, the table edits, the reset, and the step navigation.
 */
module Ledger {
  import opened Wrappers
  import opened Text
  import opened Split
  import opened Catalogue
  import opened Identity
  import opened Scanner
  import opened Rounding
  import opened Outlets

  datatype ReportStep = TcEntry | PcEntry | F2Preview | F1Preview

  /** What the reconciliation reports: no text to read, or how many outlets matched. */
  datatype TextOutcome = NoText | Matched(count: nat)

  /** What the bulk paste reports: nothing pasted, nothing readable, or how many outlets were added. */
  datatype PasteOutcome = NoPaste | NothingParsed | Added(count: nat)

  /** Writing one product over a record with overrides is writing it into the overrides. */
  lemma OverrideStep(skus: map<string, real>, scanned: map<string, real>, id: string, v: real)
    ensures (skus + scanned)[id := v] == skus + scanned[id := v]
  {
  }

  /** Overrides wholly overwritten by later ones leave no trace. */
  lemma OverrideCovered(m: map<string, real>, s: map<string, real>, t: map<string, real>)
    requires s.Keys <= t.Keys
    ensures (m + s) + t == m + t
  {
  }

  /** Writing 0 over a product the reset left at 0 and the refill has not reached changes nothing. */
  lemma ZeroStays(zeroed: map<string, real>, done: map<string, real>, id: string)
    requires id in zeroed && zeroed[id] == 0.0 && id !in done
    ensures (zeroed + done)[id := 0.0] == zeroed + done
  {
  }

  /** The reset loop: every product of `list` set to 0. */
  method ResetQuantities(skus: map<string, real>, list: seq<SkuDefinition>) returns (r: map<string, real>)
    requires DistinctIds(list)
    ensures r == skus + Record(list, ZeroOf)
  {
    r := skus;
    var i := 0;
    while i < |list|
      invariant 0 <= i <= |list|
      invariant DistinctIds(list[..i])
      invariant r == skus + Record(list[..i], ZeroOf)
    {
      RecordSnoc(list, i, ZeroOf);
      OverrideStep(skus, Record(list[..i], ZeroOf), list[i].id, 0.0);
      r := r[list[i].id := 0.0];
      i := i + 1;
    }
    assert list[..i] == list;
  }

  /** Every product of `list` is in the record, at 0. */
  predicate ZeroedFor(zeroed: map<string, real>, list: seq<SkuDefinition>)
  {
    forall i :: 0 <= i < |list| ==> list[i].id in zeroed && zeroed[list[i].id] == 0.0
  }

  /** No product of `list` has a negative value. */
  predicate NonNegativeOn(list: seq<SkuDefinition>, value: SkuDefinition -> real)
  {
    forall i :: 0 <= i < |list| ==> 0.0 <= value(list[i])
  }

  /**
   * One more product refilled: a positive value written over the record, and a 0 left
   * out, which changes nothing because the reset left a 0 there.
   */
  lemma FillStep(zeroed: map<string, real>, list: seq<SkuDefinition>, value: SkuDefinition -> real, i: nat)
    requires DistinctIds(list) && ZeroedFor(zeroed, list) && NonNegativeOn(list, value) && i < |list|
    ensures DistinctIds(list[..i]) && DistinctIds(list[..i + 1])
    ensures var done := zeroed + Record(list[..i], value);
            0.0 < value(list[i]) ==> zeroed + Record(list[..i + 1], value) == done[list[i].id := value(list[i])]
    ensures value(list[i]) <= 0.0 ==> zeroed + Record(list[..i + 1], value) == zeroed + Record(list[..i], value)
  {
    RecordSnoc(list, i, value);
    var done := Record(list[..i], value);
    OverrideStep(zeroed, done, list[i].id, value(list[i]));
    ZeroStays(zeroed, done, list[i].id);
  }

  /**
   * The refill loop over a reset record: for each product of `list`, its scanned
   * quantity `value` written when positive; a product scanned as 0 keeps the reset's 0.
   */
  method FillQuantities(zeroed: map<string, real>, list: seq<SkuDefinition>, value: SkuDefinition -> real) returns (r: map<string, real>)
    requires DistinctIds(list) && ZeroedFor(zeroed, list) && NonNegativeOn(list, value)
    ensures r == zeroed + Record(list, value)
  {
    r := zeroed;
    var i := 0;
    while i < |list|
      invariant i <= |list| && DistinctIds(list[..i])
      invariant r == zeroed + Record(list[..i], value)
    {
      FillStep(zeroed, list, value, i);
      var q := value(list[i]);
      if 0.0 < q {
        r := r[list[i].id := q];
      }
      i := i + 1;
    }
    assert list[..i] == list;
  }

  /** The reset and refill of one outlet's record from its block. */
  method Rescan(skus: map<string, real>, block: string, list: seq<SkuDefinition>) returns (r: map<string, real>)
    requires DistinctIds(list)
    ensures r == skus + Record(list, ScanOf(block))
  {
    var zeroed := ResetQuantities(skus, list);
    RecordValues(list, ZeroOf);
    r := FillQuantities(zeroed, list, ScanOf(block));
    OverrideCovered(skus, Record(list, ZeroOf), Record(list, ScanOf(block)));
  }

  /** The reset and refill of one outlet's record over the whole catalogue. */
  method RescanCatalogue(skus: map<string, real>, block: string) returns (r: map<string, real>)
    ensures r == Refilled(skus, block)
  {
    IdsDistinct();
    r := Rescan(skus, block, SKU_LIST);
  }

  /** One outlet of the auto-fill: its block looked up, and when found, marked productive and rescanned. */
  method ReconcileOutlet(outlet: Outlet, blocks: seq<string>) returns (r: Outlet, matched: bool)
    ensures r == ReconcileOne(outlet, blocks)
    ensures matched <==> Claim(outlet, blocks).Some?
  {
    var target := FirstMatch(blocks, outlet.name, outlet.contactNo);
    if target.Some? {
      var skus := RescanCatalogue(outlet.skus, blocks[target.value]);
      r := outlet.(isProductive := true, skus := skus);
      matched := true;
    } else {
      r := outlet;
      matched := false;
    }
  }

  /** One more outlet through the list loop: its image appended, and counted when `hit` accepts it. */
  lemma ListStep(outlets: seq<Outlet>, i: nat, step: Outlet -> Outlet, hit: Outlet -> bool)
    requires i < |outlets|
    ensures Each(outlets[..i + 1], step) == Each(outlets[..i], step) + [step(outlets[i])]
    ensures CountWhere(outlets[..i + 1], hit) == CountWhere(outlets[..i], hit) + (if hit(outlets[i]) then 1 else 0)
  {
    assert outlets[..i + 1] == outlets[..i] + [outlets[i]];
    assert outlets[..i + 1][..i] == outlets[..i];
    EachSnoc(outlets[..i], outlets[i], step);
  }

  method ReconcileList(outlets: seq<Outlet>, blocks: seq<string>) returns (updated: seq<Outlet>, matchCount: nat)
    ensures updated == ReconcileAll(outlets, blocks)
    ensures matchCount == MatchCount(outlets, blocks)
  {
    updated := [];
    matchCount := 0;
    var i := 0;
    assert outlets[..0] == [];
    while i < |outlets|
      invariant 0 <= i <= |outlets|
      invariant updated == ReconcileAll(outlets[..i], blocks)
      invariant matchCount == MatchCount(outlets[..i], blocks)
    {
      var outlet, matched := ReconcileOutlet(outlets[i], blocks);
      ListStep(outlets, i, Reconciler(blocks), Claimed(blocks));
      if matched {
        matchCount := matchCount + 1;
      }
      updated := updated + [outlet];
      i := i + 1;
    }
    assert outlets[..i] == outlets;
  }

  /** The bulk-paste loop over the pasted rows: one new outlet per row `parse` accepts, numbered from `firstId` on. */
  method ReadRows(rows: seq<string>, firstId: nat, parse: string -> Option<Entry>) returns (newOutlets: seq<Outlet>)
    ensures newOutlets == Enrol(Collect(rows, parse), firstId)
  {
    newOutlets := [];
    var i := 0;
    assert rows[..0] == [];
    while i < |rows|
      invariant 0 <= i <= |rows|
      invariant newOutlets == Enrol(Collect(rows[..i], parse), firstId)
    {
      ReadStep(rows, i, firstId, parse);
      var parsed := parse(rows[i]);
      if parsed.Some? {
        newOutlets := newOutlets + [NewOutlet(firstId + |newOutlets|, parsed.value.name, parsed.value.contact)];
      }
      i := i + 1;
    }
    assert rows[..i] == rows;
  }

  /** The rows of a bulk paste, one per line, read into new outlets numbered from `firstId` on. */
  method ReadPaste(text: string, firstId: nat) returns (newOutlets: seq<Outlet>)
    ensures newOutlets == Enrol(BulkEntries(text), firstId)
  {
    newOutlets := ReadRows(Parts(text, LineBreak), firstId, ParseRow);
  }

  /**
   * The application state: the current step, the outlet list, and the text boxes the
   * handlers read. `nextId` stands for the generator of fresh outlet identifiers.
   */
  class Ledger {
    var step: ReportStep
    var outlets: seq<Outlet>
    var nextId: nat
    var pastedText: string
    var bulkPasteText: string
    var newOutletName: string
    var newOutletContact: string

    /** Outlet ids are unique and not yet handed out again; every record holds one non-negative quantity per product. */
    ghost predicate Valid()
      reads this
    {
      UniqueIds(outlets) && IdsBelow(outlets, nextId) && AllWellFormed(outlets)
    }

    /** The state on first load: the outlet step, no outlets, empty text boxes. */
    constructor ()
      ensures Valid()
      ensures step == TcEntry && outlets == [] && nextId == 0
      ensures pastedText == "" && bulkPasteText == "" && newOutletName == "" && newOutletContact == ""
    {
      step := TcEntry;
      outlets := [];
      nextId := 0;
      pastedText := "";
      bulkPasteText := "";
      newOutletName := "";
      newOutletContact := "";
    }

    /**
     * The auto-fill from pasted invoice text: nothing when the text is blank; otherwise
     * every outlet reconciled against the text's blocks, and the number that matched.
     */
    method ProcessText() returns (outcome: TextOutcome)
      requires Valid()
      modifies this
      ensures Valid()
      ensures Trim(old(pastedText)) == [] ==> outcome == NoText && outlets == old(outlets)
      ensures Trim(old(pastedText)) != [] ==>
                && outlets == ReconcileAll(old(outlets), Blocks(old(pastedText)))
                && outcome == Matched(MatchCount(old(outlets), Blocks(old(pastedText))))
      ensures step == old(step) && nextId == old(nextId) && pastedText == old(pastedText)
      ensures bulkPasteText == old(bulkPasteText)
      ensures newOutletName == old(newOutletName) && newOutletContact == old(newOutletContact)
    {
      if Trim(pastedText) == [] {
        return NoText;
      }
      var blocks := Parts(pastedText, InvoiceMarker);
      var updated, matchCount := ReconcileList(outlets, blocks);
      ReconcileAllKeeps(outlets, blocks, nextId);
      outlets := updated;
      return Matched(matchCount);
    }

    /**
     * The bulk paste of name/contact rows: nothing when the box is blank; otherwise one
     * new outlet per readable row, appended in row order, and the box cleared when any
     * row was read.
     */
    method BulkPaste() returns (outcome: PasteOutcome)
      requires Valid()
      modifies this
      ensures Valid()
      ensures Trim(old(bulkPasteText)) == [] ==>
                outcome == NoPaste && outlets == old(outlets) && nextId == old(nextId) && bulkPasteText == old(bulkPasteText)
      ensures Trim(old(bulkPasteText)) != [] && BulkEntries(old(bulkPasteText)) == [] ==>
                outcome == NothingParsed && outlets == old(outlets) && nextId == old(nextId) && bulkPasteText == old(bulkPasteText)
      ensures Trim(old(bulkPasteText)) != [] && BulkEntries(old(bulkPasteText)) != [] ==>
                && outcome == Added(|BulkEntries(old(bulkPasteText))|)
                && outlets == old(outlets) + Enrol(BulkEntries(old(bulkPasteText)), old(nextId))
                && nextId == old(nextId) + |BulkEntries(old(bulkPasteText))|
                && bulkPasteText == ""
      ensures step == old(step) && pastedText == old(pastedText)
      ensures newOutletName == old(newOutletName) && newOutletContact == old(newOutletContact)
    {
      if Trim(bulkPasteText) == [] {
        outcome := NoPaste;
      } else {
        var newOutlets := ReadPaste(bulkPasteText, nextId);
        if |newOutlets| > 0 {
          EnrolKeeps(outlets, BulkEntries(bulkPasteText), nextId);
          outlets := outlets + newOutlets;
          nextId := nextId + |newOutlets|;
          bulkPasteText := "";
          outcome := Added(|newOutlets|);
        } else {
          outcome := NothingParsed;
        }
      }
    }

    /**
     * The manual add: refused when the name or the contact box is empty; otherwise one
     * new outlet with the trimmed name and contact, and both boxes cleared.
     */
    method AddOutlet() returns (added: bool)
      requires Valid()
      modifies this
      ensures Valid()
      ensures added <==> old(newOutletName) != [] && old(newOutletContact) != []
      ensures added ==>
                && outlets == old(outlets) + [NewOutlet(old(nextId), Trim(old(newOutletName)), Trim(old(newOutletContact)))]
                && nextId == old(nextId) + 1 && newOutletName == "" && newOutletContact == ""
      ensures !added ==>
                outlets == old(outlets) && nextId == old(nextId)
                && newOutletName == old(newOutletName) && newOutletContact == old(newOutletContact)
      ensures step == old(step) && pastedText == old(pastedText) && bulkPasteText == old(bulkPasteText)
    {
      if newOutletName == [] || newOutletContact == [] {
        return false;
      }
      var outlet := NewOutlet(nextId, Trim(newOutletName), Trim(newOutletContact));
      NewOutletBlank(nextId, Trim(newOutletName), Trim(newOutletContact));
      outlets := outlets + [outlet];
      nextId := nextId + 1;
      newOutletName := "";
      newOutletContact := "";
      return true;
    }

    /** The delete button of an outlet row: every outlet with that id removed. */
    method Delete(id: nat)
      requires Valid()
      modifies this
      ensures Valid()
      ensures outlets == Remove(old(outlets), id)
      ensures step == old(step) && nextId == old(nextId) && pastedText == old(pastedText)
      ensures bulkPasteText == old(bulkPasteText)
      ensures newOutletName == old(newOutletName) && newOutletContact == old(newOutletContact)
    {
      RemoveKeeps(outlets, id, nextId);
      outlets := Remove(outlets, id);
    }

    /** The productive button of an outlet card: that outlet's flag flipped. */
    method ToggleProductive(id: nat)
      requires Valid()
      modifies this
      ensures Valid()
      ensures outlets == Toggle(old(outlets), id)
      ensures step == old(step) && nextId == old(nextId) && pastedText == old(pastedText)
      ensures bulkPasteText == old(bulkPasteText)
      ensures newOutletName == old(newOutletName) && newOutletContact == old(newOutletContact)
    {
      outlets := Toggle(outlets, id);
    }

    /**
     * A quantity box of an outlet card: the typed value, read as a number (`None` when
     * it is not one), stored for that product with negatives and unreadable input as 0.
     */
    method EditQuantity(id: nat, skuId: string, input: Option<real>)
      requires Valid()
      requires skuId in CATALOGUE_IDS
      modifies this
      ensures Valid()
      ensures outlets == Edit(old(outlets), id, skuId, input)
      ensures step == old(step) && nextId == old(nextId) && pastedText == old(pastedText)
      ensures bulkPasteText == old(bulkPasteText)
      ensures newOutletName == old(newOutletName) && newOutletContact == old(newOutletContact)
    {
      EditKeepsWellFormed(outlets, id, skuId, input);
      outlets := Edit(outlets, id, skuId, input);
    }

    /** The reset button: when the user confirms, back to the outlet step with no outlets and empty boxes. */
    method Reset(confirmed: bool)
      requires Valid()
      modifies this
      ensures Valid()
      ensures confirmed ==>
                && step == TcEntry && outlets == []
                && pastedText == "" && bulkPasteText == "" && newOutletName == "" && newOutletContact == ""
      ensures !confirmed ==>
                && step == old(step) && outlets == old(outlets)
                && pastedText == old(pastedText) && bulkPasteText == old(bulkPasteText)
                && newOutletName == old(newOutletName) && newOutletContact == old(newOutletContact)
      ensures nextId == old(nextId)
    {
      if confirmed {
        step := TcEntry;
        outlets := [];
        newOutletName := "";
        newOutletContact := "";
        pastedText := "";
        bulkPasteText := "";
      }
    }

    /** The step bar: any step once there are outlets, and the outlet step always. */
    method Navigate(target: ReportStep)
      requires Valid()
      modifies this
      ensures Valid()
      ensures step == (if |outlets| > 0 || target == TcEntry then target else old(step))
      ensures outlets == old(outlets) && nextId == old(nextId) && pastedText == old(pastedText)
      ensures bulkPasteText == old(bulkPasteText)
      ensures newOutletName == old(newOutletName) && newOutletContact == old(newOutletContact)
    {
      if |outlets| > 0 || target == TcEntry {
        step := target;
      }
    }
  }
}
