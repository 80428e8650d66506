/**
 * The outlet record and the pure meaning of every change the application makes to
 * the outlet list: the SKU scan of one transaction block, the reconciliation of the
 * whole list against pasted invoice text, the bulk paste of name/contact rows, and
 * the delete, productive toggle and quantity edit of the outlet table.
 */
module Outlets {
  import opened Wrappers
  import opened Text
  import opened Split
  import opened Catalogue
  import opened Quantity
  import opened Identity
  import opened Scanner
  import opened Rounding

  /** An outlet visited on the beat; `id` stands for the generated unique identifier. */
  datatype Outlet = Outlet(
    id: nat,
    name: string,
    contactNo: string,
    isProductive: bool,
    skus: map<string, real>,
    dbName: string,
    beatName: string,
    contactPerson: string)

  /** The SKU record every new outlet starts with. */
  function ZeroSkus(): (r: map<string, real>)
    ensures r.Keys == CATALOGUE_IDS
    ensures forall id :: id in r ==> r[id] == 0.0
  {
    map id | id in CATALOGUE_IDS :: 0.0
  }

  /** An outlet whose record holds exactly one non-negative quantity per catalogue product. */
  predicate WellFormed(o: Outlet)
  {
    o.skus.Keys == CATALOGUE_IDS && forall id :: id in o.skus ==> 0.0 <= o.skus[id]
  }

  /** A fresh, non-productive outlet for the distributor's main beat. */
  function NewOutlet(id: nat, name: string, contactNo: string): (o: Outlet)
    ensures !o.isProductive
    ensures o.id == id && o.name == name && o.contactNo == contactNo
  {
    Outlet(id, name, contactNo, false, ZeroSkus(), SS_NAME, "Main Beat", "Owner")
  }

  /** A new outlet is well formed, with every product at 0. */
  lemma NewOutletBlank(id: nat, name: string, contactNo: string)
    ensures var o := NewOutlet(id, name, contactNo);
            WellFormed(o) && forall sku :: sku in o.skus ==> o.skus[sku] == 0.0
  {
  }

  /** No two outlets of the list share an id. */
  predicate UniqueIds(outlets: seq<Outlet>)
  {
    forall i, j :: 0 <= i < j < |outlets| ==> outlets[i].id != outlets[j].id
  }

  /** Every id of the list is below `bound`, so `bound` and its successors are still free. */
  predicate IdsBelow(outlets: seq<Outlet>, bound: nat)
  {
    forall i :: 0 <= i < |outlets| ==> outlets[i].id < bound
  }

  predicate AllWellFormed(outlets: seq<Outlet>)
  {
    forall i :: 0 <= i < |outlets| ==> WellFormed(outlets[i])
  }

  // ----- The SKU scan of one block -----

  /**
   * The quantity stored for `sku` after scanning `block`: the sum of the converted
   * matches rounded to two decimals when that sum is positive, otherwise the 0 the
   * reset left there.
   */
  function SkuQuantity(block: string, sku: SkuDefinition): (r: real)
    ensures 0.0 <= r
  {
    var matches := Occurrences(block, sku.caption, 0);
    if |matches| > 0 then
      var total := TotalCases(matches, sku.id);
      if 0.0 < total then ToFixed2(total) else 0.0
    else 0.0
  }

  /** The stored quantity is 0 or the positive total of the matches to within half a hundredth. */
  lemma SkuQuantityNearTotal(block: string, sku: SkuDefinition)
    ensures var total := TotalCases(Occurrences(block, sku.caption, 0), sku.id);
            var q := SkuQuantity(block, sku);
            && (total == 0.0 ==> q == 0.0)
            && (0.0 < total ==> total - 0.005 <= q <= total + 0.005)
  {
  }

  /** Thirty bottles of MC2 are one case. */
  lemma SampleLineCases()
    ensures OccurrenceCases(Occurrence(0, 11, "30", "Btl", 17), MC2_ID) == 1.0
  {
    ValueOfThirty();
    DigitsParse("30");
    assert Lower("Btl") == "btl";
    assert BottlesPerCase(MC2_ID, "Btl") == 30;
  }

  /** The matches of the sample line add up to one case of MC2. */
  lemma SampleLineTotal()
    ensures TotalCases(Occurrences(SAMPLE_LINE, "MC2", 0), MC2_ID) == 1.0
  {
    SampleLineOccurrences();
    SampleLineCases();
    TotalCasesSingle(Occurrence(0, 11, "30", "Btl", 17), MC2_ID);
  }

  /** The sample line stores 30 bottles of MC2 as exactly one case. */
  lemma SampleLineMC2()
    ensures SkuQuantity(SAMPLE_LINE, SKU_LIST[10]) == 1.0
  {
    ConversionTargets();
    SampleLineTotal();
    assert ToFixed2(1.0) == 1.0;
  }

  /** A block in which the label never occurs leaves the product at 0. */
  lemma AbsentLabelGivesZero(block: string, sku: SkuDefinition)
    requires forall i :: 0 <= i <= |block| ==> !PrefixIgnoringCase(sku.caption, block[i..])
    ensures SkuQuantity(block, sku) == 0.0
  {
    var matches := Occurrences(block, sku.caption, 0);
    OccurrencesMatch(block, sku.caption, 0);
    if |matches| > 0 {
      MatchAtExists(block, matches[0].start, sku.caption);
      assert false;
    }
  }

  /** The record built by writing `value(sku)` under the id of each entry of `list` in turn. */
  function Record(list: seq<SkuDefinition>, value: SkuDefinition -> real): (r: map<string, real>)
    requires DistinctIds(list)
    ensures r.Keys == Ids(list)
    decreases |list|
  {
    if list == [] then map[]
    else
      var n := |list| - 1;
      assert DistinctIds(list[..n]);
      IdsSnoc(list);
      Record(list[..n], value)[list[n].id := value(list[n])]
  }

  /** Under each entry's id the record holds that entry's value. */
  lemma {:induction false} RecordValues(list: seq<SkuDefinition>, value: SkuDefinition -> real)
    requires DistinctIds(list)
    ensures forall i :: 0 <= i < |list| ==> Record(list, value)[list[i].id] == value(list[i])
    decreases |list|
  {
    if list != [] {
      var n := |list| - 1;
      var front := list[..n];
      assert DistinctIds(front);
      RecordValues(front, value);
      forall i | 0 <= i < n ensures Record(list, value)[list[i].id] == value(list[i]) {
        assert front[i] == list[i];
      }
    }
  }

  /** A prefix of a list with distinct ids has distinct ids. */
  lemma DistinctPrefix(list: seq<SkuDefinition>, i: nat)
    requires DistinctIds(list) && i <= |list|
    ensures DistinctIds(list[..i])
  {
  }

  /** Extending the list by one entry writes that entry's value over the record of the shorter list, under a fresh id. */
  lemma RecordSnoc(list: seq<SkuDefinition>, i: nat, value: SkuDefinition -> real)
    requires DistinctIds(list) && i < |list|
    ensures DistinctIds(list[..i]) && DistinctIds(list[..i + 1])
    ensures list[i].id !in Record(list[..i], value)
    ensures Record(list[..i + 1], value) == Record(list[..i], value)[list[i].id := value(list[i])]
  {
    DistinctPrefix(list, i);
    DistinctPrefix(list, i + 1);
    var front := list[..i + 1];
    assert front[..i] == list[..i];
  }

  /** The quantity of every product after the reset, before any refill. */
  function ZeroOf(sku: SkuDefinition): (r: real)
    ensures r == 0.0
  {
    0.0
  }

  /** The quantity scanned for every product from `block`. */
  function ScanOf(block: string): (f: SkuDefinition -> real)
    ensures forall sku :: f(sku) == SkuQuantity(block, sku)
  {
    sku => SkuQuantity(block, sku)
  }

  /** A record without negative quantities. */
  predicate NonNegative(skus: map<string, real>)
  {
    forall id :: id in skus ==> 0.0 <= skus[id]
  }

  /** Every id of `before` outside `ids` is still in `after`, with the same value. */
  predicate KeptOutside(before: map<string, real>, after: map<string, real>, ids: set<string>)
  {
    forall id :: id in before && id !in ids ==> id in after && after[id] == before[id]
  }

  /** The record after the reset and the refill from `block`: every catalogue product rescanned. */
  function Refilled(skus: map<string, real>, block: string): (r: map<string, real>)
    ensures r.Keys == skus.Keys + CATALOGUE_IDS
    ensures forall i :: 0 <= i < |SKU_LIST| ==> r[SKU_LIST[i].id] == SkuQuantity(block, SKU_LIST[i])
    ensures NonNegative(skus) ==> NonNegative(r)
  {
    IdsDistinct();
    OverrideRecord(skus, SKU_LIST, ScanOf(block));
    skus + Record(SKU_LIST, ScanOf(block))
  }

  /** Rescanning leaves every quantity kept under an id outside the catalogue as it was. */
  lemma RefilledKeepsOthers(skus: map<string, real>, block: string)
    ensures KeptOutside(skus, Refilled(skus, block), CATALOGUE_IDS)
  {
    IdsDistinct();
    OverrideRecord(skus, SKU_LIST, ScanOf(block));
  }

  /** Writing a record over `skus` adds its ids to the keys and puts each entry's value under its id. */
  lemma OverrideRecord(skus: map<string, real>, list: seq<SkuDefinition>, value: SkuDefinition -> real)
    requires DistinctIds(list)
    ensures var r := skus + Record(list, value);
            && r.Keys == skus.Keys + Ids(list)
            && (forall i :: 0 <= i < |list| ==> r[list[i].id] == value(list[i]))
            && KeptOutside(skus, r, Ids(list))
    ensures (forall i :: 0 <= i < |list| ==> 0.0 <= value(list[i])) && NonNegative(skus) ==>
              NonNegative(skus + Record(list, value))
  {
    var written := Record(list, value);
    RecordValues(list, value);
    forall id | id in written ensures written[id] == value(list[IndexOf(list, id)]) {
    }
  }

  /** The position of an id in a list that has it. */
  function IndexOf(list: seq<SkuDefinition>, id: string): (i: nat)
    requires id in Ids(list)
    ensures i < |list| && list[i].id == id
  {
    if list[0].id == id then 0 else IndexOf(list[1..], id) + 1
  }

  // ----- Reconciliation against invoice text -----

  /** The transaction blocks of pasted invoice text. */
  function Blocks(text: string): (r: seq<string>)
    ensures |r| > 0
  {
    Parts(text, InvoiceMarker)
  }

  /** The index of the block an outlet claims, by its name and contact. */
  function Claim(o: Outlet, blocks: seq<string>): (r: Option<nat>)
    ensures r.Some? ==> r.value < |blocks|
  {
    FirstMatch(blocks, o.name, o.contactNo)
  }

  /**
   * One outlet after the scan: an outlet that claims a block becomes productive and
   * gets its record rescanned from that block; any other outlet is left as it was.
   */
  function ReconcileOne(o: Outlet, blocks: seq<string>): (r: Outlet)
    ensures r.id == o.id && r.name == o.name && r.contactNo == o.contactNo
    ensures r.dbName == o.dbName && r.beatName == o.beatName && r.contactPerson == o.contactPerson
    ensures Claim(o, blocks).None? ==> r == o
    ensures Claim(o, blocks).Some? ==>
              r.isProductive && r.skus == Refilled(o.skus, blocks[Claim(o, blocks).value])
  {
    match Claim(o, blocks)
    case None => o
    case Some(j) => o.(isProductive := true, skus := Refilled(o.skus, blocks[j]))
  }

  /** `outlets.map(step)`: every outlet of the list put through `step`, in order. */
  function Each(outlets: seq<Outlet>, step: Outlet -> Outlet): (r: seq<Outlet>)
    ensures |r| == |outlets|
  {
    if outlets == [] then []
    else [step(outlets[0])] + Each(outlets[1..], step)
  }

  /** The mapped list holds, at each position, the image of the outlet there. */
  lemma {:induction false} EachAt(outlets: seq<Outlet>, step: Outlet -> Outlet)
    ensures forall i :: 0 <= i < |outlets| ==> Each(outlets, step)[i] == step(outlets[i])
    decreases |outlets|
  {
    if outlets != [] {
      EachAt(outlets[1..], step);
    }
  }

  /** Mapping a list one outlet longer appends that outlet's image. */
  lemma {:induction false} EachSnoc(outlets: seq<Outlet>, o: Outlet, step: Outlet -> Outlet)
    ensures Each(outlets + [o], step) == Each(outlets, step) + [step(o)]
    decreases |outlets|
  {
    if outlets == [] {
      assert [] + [o] == [o];
    } else {
      assert (outlets + [o])[1..] == outlets[1..] + [o];
      EachSnoc(outlets[1..], o, step);
    }
  }

  /** The number of outlets of the list that `hit` accepts. */
  function CountWhere(outlets: seq<Outlet>, hit: Outlet -> bool): (r: nat)
    ensures r <= |outlets|
  {
    if outlets == [] then 0
    else CountWhere(outlets[..|outlets| - 1], hit) + (if hit(outlets[|outlets| - 1]) then 1 else 0)
  }

  /** The reconciliation of one outlet against `blocks`, as the step of the list's `map`. */
  function Reconciler(blocks: seq<string>): Outlet -> Outlet
  {
    o => ReconcileOne(o, blocks)
  }

  /** Whether an outlet claims one of `blocks`: the test that bumps the match count. */
  function Claimed(blocks: seq<string>): Outlet -> bool
  {
    o => Claim(o, blocks).Some?
  }

  /** Every outlet of the list reconciled, in order. */
  function ReconcileAll(outlets: seq<Outlet>, blocks: seq<string>): (r: seq<Outlet>)
    ensures |r| == |outlets|
  {
    Each(outlets, Reconciler(blocks))
  }

  /** The reconciled list holds, at each position, the outlet there reconciled. */
  lemma ReconcileAllAt(outlets: seq<Outlet>, blocks: seq<string>)
    ensures forall i :: 0 <= i < |outlets| ==> ReconcileAll(outlets, blocks)[i] == ReconcileOne(outlets[i], blocks)
  {
    EachAt(outlets, Reconciler(blocks));
  }

  /** The number of outlets that claim a block: the reported match count. */
  function MatchCount(outlets: seq<Outlet>, blocks: seq<string>): (r: nat)
    ensures r <= |outlets|
  {
    CountWhere(outlets, Claimed(blocks))
  }

  function CountProductive(outlets: seq<Outlet>): (r: nat)
    ensures r <= |outlets|
  {
    if outlets == [] then 0
    else (if outlets[0].isProductive then 1 else 0) + CountProductive(outlets[1..])
  }

  lemma OverrideTwice<K, V>(m: map<K, V>, s: map<K, V>)
    ensures (m + s) + s == m + s
  {
  }

  /** Rescanning a rescanned record from the same block changes nothing. */
  lemma RefilledIdempotent(skus: map<string, real>, block: string)
    ensures Refilled(Refilled(skus, block), block) == Refilled(skus, block)
  {
    IdsDistinct();
    OverrideTwice(skus, Record(SKU_LIST, ScanOf(block)));
  }

  /** Reconciliation keeps every outlet well formed: the same keys, no negative quantity. */
  lemma ReconcileKeepsWellFormed(o: Outlet, blocks: seq<string>)
    requires WellFormed(o)
    ensures WellFormed(ReconcileOne(o, blocks))
  {
  }

  /** A reconciled outlet that claims a block holds, for every product, what the scan of that block finds. */
  lemma ReconciledQuantities(o: Outlet, blocks: seq<string>, i: nat)
    requires Claim(o, blocks).Some? && i < |SKU_LIST|
    ensures var r := ReconcileOne(o, blocks);
            SKU_LIST[i].id in r.skus && r.skus[SKU_LIST[i].id] == SkuQuantity(blocks[Claim(o, blocks).value], SKU_LIST[i])
  {
  }

  /** Reconciling an outlet a second time against the same text changes nothing. */
  lemma ReconcileOneIdempotent(o: Outlet, blocks: seq<string>)
    ensures ReconcileOne(ReconcileOne(o, blocks), blocks) == ReconcileOne(o, blocks)
  {
    var r := ReconcileOne(o, blocks);
    assert Claim(r, blocks) == Claim(o, blocks);
    if Claim(o, blocks).Some? {
      RefilledIdempotent(o.skus, blocks[Claim(o, blocks).value]);
    }
  }

  /** Running the reconciliation twice on the same text is running it once. */
  lemma ReconcileAllIdempotent(outlets: seq<Outlet>, blocks: seq<string>)
    ensures ReconcileAll(ReconcileAll(outlets, blocks), blocks) == ReconcileAll(outlets, blocks)
  {
    var once := ReconcileAll(outlets, blocks);
    ReconcileAllAt(outlets, blocks);
    ReconcileAllAt(once, blocks);
    forall i | 0 <= i < |outlets| ensures ReconcileOne(once[i], blocks) == once[i] {
      ReconcileOneIdempotent(outlets[i], blocks);
    }
  }

  /** After reconciliation, an outlet is productive exactly when it was already or it claims a block. */
  lemma ProductiveAfterReconcile(outlets: seq<Outlet>, blocks: seq<string>, i: nat)
    requires i < |outlets|
    ensures ReconcileAll(outlets, blocks)[i].isProductive <==>
              outlets[i].isProductive || Claim(outlets[i], blocks).Some?
  {
    ReconcileAllAt(outlets, blocks);
  }

  /** Every matched outlet is productive afterwards, so the productive count is at least the match count. */
  lemma {:induction false} MatchCountBound(outlets: seq<Outlet>, blocks: seq<string>)
    ensures MatchCount(outlets, blocks) <= CountProductive(ReconcileAll(outlets, blocks))
    decreases |outlets|
  {
    if outlets != [] {
      var n := |outlets| - 1;
      MatchCountBound(outlets[..n], blocks);
      assert outlets == outlets[..n] + [outlets[n]];
      EachSnoc(outlets[..n], outlets[n], Reconciler(blocks));
      CountProductiveSnoc(ReconcileAll(outlets[..n], blocks), ReconcileOne(outlets[n], blocks));
    }
  }

  /** The productive count of a longer list adds the last outlet, if productive. */
  lemma {:induction false} CountProductiveSnoc(outlets: seq<Outlet>, o: Outlet)
    ensures CountProductive(outlets + [o]) == CountProductive(outlets) + (if o.isProductive then 1 else 0)
    decreases |outlets|
  {
    if outlets == [] {
      assert [] + [o] == [o];
    } else {
      assert (outlets + [o])[1..] == outlets[1..] + [o];
      CountProductiveSnoc(outlets[1..], o);
    }
  }

  /** Reconciliation keeps the list's ids, hence their uniqueness and bound, and keeps every record well formed. */
  lemma ReconcileAllKeeps(outlets: seq<Outlet>, blocks: seq<string>, bound: nat)
    ensures var r := ReconcileAll(outlets, blocks);
            && (forall i :: 0 <= i < |r| ==> r[i].id == outlets[i].id)
            && (UniqueIds(outlets) ==> UniqueIds(r))
            && (IdsBelow(outlets, bound) ==> IdsBelow(r, bound))
            && (AllWellFormed(outlets) ==> AllWellFormed(r))
  {
    ReconcileAllAt(outlets, blocks);
    forall i | 0 <= i < |outlets| && WellFormed(outlets[i])
      ensures WellFormed(ReconcileOne(outlets[i], blocks))
    {
      ReconcileKeepsWellFormed(outlets[i], blocks);
    }
  }

  /** Outlets whose identities are too short match no block, however often the text names them. */
  lemma ShortIdentityNeverMatches(o: Outlet, blocks: seq<string>)
    requires |Normalize(o.name)| <= 3 && |Normalize(o.contactNo)| <= 5
    ensures ReconcileOne(o, blocks) == o
  {
    if Claim(o, blocks).Some? {
      MatchNeedsIdentity(o.name, o.contactNo, blocks[Claim(o, blocks).value]);
    }
  }

  // ----- Bulk paste of name/contact rows -----

  /** A name and a contact read from one pasted row. */
  datatype Entry = Entry(name: string, contact: string)

  /** The columns of a row: split at tabs, or at `|` when that leaves one column and the row has a `|`. */
  function RowFields(row: string): (r: seq<string>)
    ensures |r| > 0
  {
    var parts := Parts(row, OnChar('\t'));
    if |parts| < 2 && '|' in row then Parts(row, OnChar('|')) else parts
  }

  /** A column title rather than an outlet name, recognised whatever the case of its letters. */
  function IsHeader(name: string): (r: bool)
    ensures r <==> (exists i :: OccursAt(Lower(name), "name of out let", i)) || Lower(name) == "name"
    ensures r ==> |name| >= 4
  {
    Contains(Lower(name), "name of out let") || Lower(name) == "name"
  }

  /** Column titles are recognised without regard to case. */
  lemma HeaderIgnoresCase(name: string)
    ensures IsHeader(Lower(name)) <==> IsHeader(name)
  {
    LowerIdempotent(name);
  }

  /** One row: the trimmed first column as name and the trimmed second (or "") as contact, unless the name is empty or a header. */
  function ParseRow(row: string): (r: Option<Entry>)
    ensures r.Some? ==> r.value.name != [] && !IsHeader(r.value.name)
    ensures r.Some? <==> !IsBlank(RowFields(row)[0]) && !IsHeader(Trim(RowFields(row)[0]))
    ensures r.Some? ==> r.value.name == Trim(RowFields(row)[0])
    ensures r.Some? ==> r.value.contact == if |RowFields(row)| > 1 then Trim(RowFields(row)[1]) else ""
  {
    var fields := RowFields(row);
    var name := Trim(fields[0]);
    var contact := if |fields| > 1 then Trim(fields[1]) else "";
    TrimEmptyIffBlank(fields[0]);
    if name == [] || IsHeader(name) then None else Some(Entry(name, contact))
  }

  /** A row of a name and a contact separated by a tab is read as that name and contact. */
  lemma ParseRowTabbed(name: string, contact: string)
    requires '\t' !in name && '\t' !in contact
    requires Trim(name) == name && Trim(contact) == contact
    requires name != [] && !IsHeader(name)
    ensures ParseRow(name + ['\t'] + contact) == Some(Entry(name, contact))
  {
    SplitAtSeparator(name, '\t', contact);
    SplitWithoutSeparator(name, '\t');
    SplitWithoutSeparator(contact, '\t');
    assert RowFields(name + ['\t'] + contact) == [name, contact];
  }

  /** The bare column title "Name", in any case, is skipped. */
  lemma ParseRowHeaderExample()
    ensures ParseRow("NAME") == None
  {
    SplitWithoutSeparator("NAME", '\t');
    assert RowFields("NAME") == ["NAME"];
    assert Trim("NAME") == "NAME";
    assert Lower("NAME") == "name";
  }

  /** A string holding the separator character splits into at least two parts. */
  lemma {:induction false} SeparatorSplits(s: string, c: char)
    requires c in s
    ensures |Parts(s, OnChar(c))| >= 2
    decreases |s|
  {
    if s[0] != c {
      assert c in s[1..];
      SeparatorSplits(s[1..], c);
    }
  }

  /** Which separator a row is cut at: tabs when it has one, else `|` when it has one, else none. */
  lemma RowFieldsSeparator(row: string)
    ensures '\t' in row ==> RowFields(row) == Parts(row, OnChar('\t'))
    ensures '\t' !in row && '|' in row ==> RowFields(row) == Parts(row, OnChar('|'))
    ensures '\t' !in row && '|' !in row ==> RowFields(row) == [row]
  {
    if '\t' in row {
      SeparatorSplits(row, '\t');
    } else {
      SplitWithoutSeparator(row, '\t');
    }
  }

  /** An accepted name is trimmed: it neither starts nor ends with white space. */
  lemma ParsedNameTrimmed(row: string)
    requires ParseRow(row).Some?
    ensures var name := ParseRow(row).value.name;
            !IsSpace(name[0]) && !IsSpace(name[|name| - 1])
  {
    TrimSlice(RowFields(row)[0]);
  }

  /** The entries one parsed row contributes: its entry when it was accepted, none otherwise. */
  function Accepted(parsed: Option<Entry>): (r: seq<Entry>)
    ensures |r| <= 1
    ensures r == [] <==> parsed.None?
  {
    match parsed
    case None => []
    case Some(e) => [e]
  }

  /** The entries `parse` accepts from the rows, in row order. */
  function Collect(rows: seq<string>, parse: string -> Option<Entry>): (r: seq<Entry>)
    ensures |r| <= |rows|
  {
    if rows == [] then [] else Accepted(parse(rows[0])) + Collect(rows[1..], parse)
  }

  /** Every collected entry comes from a row, and every accepted row contributes its entry. */
  lemma {:induction false} CollectExactly(rows: seq<string>, parse: string -> Option<Entry>)
    ensures forall e :: e in Collect(rows, parse) ==> exists row :: row in rows && parse(row) == Some(e)
    ensures forall row :: row in rows && parse(row).Some? ==> parse(row).value in Collect(rows, parse)
    decreases |rows|
  {
    if rows != [] {
      CollectExactly(rows[1..], parse);
      forall e | e in Collect(rows, parse) ensures exists row :: row in rows && parse(row) == Some(e) {
        if e !in Accepted(parse(rows[0])) {
          var row :| row in rows[1..] && parse(row) == Some(e);
          assert row in rows;
        }
      }
      forall row | row in rows && parse(row).Some? ensures parse(row).value in Collect(rows, parse) {
        if row != rows[0] {
          assert row in rows[1..];
        }
      }
    }
  }

  /** The rows of a longer paste contribute their entries after those of the shorter one. */
  lemma {:induction false} CollectSnoc(rows: seq<string>, row: string, parse: string -> Option<Entry>)
    ensures Collect(rows + [row], parse) == Collect(rows, parse) + Accepted(parse(row))
    decreases |rows|
  {
    if rows == [] {
      assert [] + [row] == [row];
      assert Collect([row][1..], parse) == [];
    } else {
      assert (rows + [row])[1..] == rows[1..] + [row];
      CollectSnoc(rows[1..], row, parse);
    }
  }

  /** The entries a bulk paste reads from its text, one row per line. */
  function BulkEntries(text: string): (r: seq<Entry>)
    ensures |r| <= |Parts(text, LineBreak)|
  {
    Collect(Parts(text, LineBreak), ParseRow)
  }

  /** The new outlets of a paste, numbered from `firstId` on. */
  function Enrol(entries: seq<Entry>, firstId: nat): (r: seq<Outlet>)
    ensures |r| == |entries|
  {
    if entries == [] then []
    else [NewOutlet(firstId, entries[0].name, entries[0].contact)] + Enrol(entries[1..], firstId + 1)
  }

  /** The `k`-th enrolled outlet is a new outlet for the `k`-th entry, with the `k`-th id from `firstId`. */
  lemma {:induction false} EnrolAt(entries: seq<Entry>, firstId: nat, k: nat)
    requires k < |entries|
    ensures Enrol(entries, firstId)[k] == NewOutlet(firstId + k, entries[k].name, entries[k].contact)
    decreases k
  {
    if k > 0 {
      EnrolAt(entries[1..], firstId + 1, k - 1);
    }
  }

  /** Enrolling two batches in turn is enrolling them together, the second numbered after the first. */
  lemma {:induction false} EnrolAppend(entries: seq<Entry>, more: seq<Entry>, firstId: nat)
    ensures Enrol(entries + more, firstId) == Enrol(entries, firstId) + Enrol(more, firstId + |entries|)
    decreases |entries|
  {
    if entries == [] {
      assert entries + more == more;
    } else {
      var o := NewOutlet(firstId, entries[0].name, entries[0].contact);
      assert (entries + more)[1..] == entries[1..] + more;
      EnrolAppend(entries[1..], more, firstId + 1);
      assert Enrol(entries + more, firstId) == [o] + (Enrol(entries[1..], firstId + 1) + Enrol(more, firstId + |entries|));
    }
  }

  /** One more row read: the outlets enrolled from the rows so far, then the one of that row if it is accepted, numbered next. */
  lemma ReadStep(rows: seq<string>, i: nat, firstId: nat, parse: string -> Option<Entry>)
    requires i < |rows|
    ensures var before := Collect(rows[..i], parse);
            Enrol(Collect(rows[..i + 1], parse), firstId) ==
              Enrol(before, firstId) + (match parse(rows[i])
                                        case None => []
                                        case Some(e) => [NewOutlet(firstId + |before|, e.name, e.contact)])
  {
    assert rows[..i + 1] == rows[..i] + [rows[i]];
    CollectSnoc(rows[..i], rows[i], parse);
    EnrolAppend(Collect(rows[..i], parse), Accepted(parse(rows[i])), firstId);
  }

  /** Appending outlets numbered from `bound` on to a list whose ids are below it keeps the ids unique. */
  lemma EnrolKeeps(outlets: seq<Outlet>, entries: seq<Entry>, bound: nat)
    requires UniqueIds(outlets) && IdsBelow(outlets, bound) && AllWellFormed(outlets)
    ensures var r := outlets + Enrol(entries, bound);
            UniqueIds(r) && IdsBelow(r, bound + |entries|) && AllWellFormed(r)
  {
    var r := outlets + Enrol(entries, bound);
    forall i | |outlets| <= i < |r|
      ensures r[i] == NewOutlet(bound + i - |outlets|, entries[i - |outlets|].name, entries[i - |outlets|].contact)
      ensures WellFormed(r[i])
    {
      var k := i - |outlets|;
      EnrolAt(entries, bound, k);
      NewOutletBlank(bound + k, entries[k].name, entries[k].contact);
    }
  }

  // ----- The outlet table: delete, productive toggle, quantity edit -----

  /** The list without the outlet with id `id`. */
  function Remove(outlets: seq<Outlet>, id: nat): (r: seq<Outlet>)
    ensures |r| <= |outlets|
    ensures forall o :: o in r <==> o in outlets && o.id != id
  {
    if outlets == [] then []
    else if outlets[0].id == id then Remove(outlets[1..], id)
    else [outlets[0]] + Remove(outlets[1..], id)
  }

  /**
   * Deleting works outlet by outlet, as `filter` does: the list is cut anywhere and each
   * piece filtered, one outlet stays exactly when its id differs, and order is kept.
   */
  lemma {:induction false} RemoveAppend(a: seq<Outlet>, b: seq<Outlet>, id: nat)
    ensures Remove(a + b, id) == Remove(a, id) + Remove(b, id)
    decreases |a|
  {
    if a == [] {
      assert a + b == b;
    } else {
      assert (a + b)[1..] == a[1..] + b;
      RemoveAppend(a[1..], b, id);
    }
  }

  /** A single outlet stays exactly when its id differs from the deleted one. */
  lemma RemoveSingle(o: Outlet, id: nat)
    ensures Remove([o], id) == if o.id == id then [] else [o]
  {
    assert [o][1..] == [];
  }

  /** With distinct ids, deleting a listed outlet shortens the list by exactly one. */
  lemma {:induction false} RemoveOne(outlets: seq<Outlet>, id: nat)
    requires forall i, j :: 0 <= i < j < |outlets| ==> outlets[i].id != outlets[j].id
    requires exists i :: 0 <= i < |outlets| && outlets[i].id == id
    ensures |Remove(outlets, id)| == |outlets| - 1
    decreases |outlets|
  {
    if outlets[0].id == id {
      RemoveNone(outlets[1..], id);
    } else {
      var i :| 0 <= i < |outlets| && outlets[i].id == id;
      assert outlets[1..][i - 1].id == id;
      RemoveOne(outlets[1..], id);
    }
  }

  /** Deleting an id no outlet has changes nothing. */
  lemma {:induction false} RemoveNone(outlets: seq<Outlet>, id: nat)
    requires forall i :: 0 <= i < |outlets| ==> outlets[i].id != id
    ensures Remove(outlets, id) == outlets
    decreases |outlets|
  {
    if outlets != [] {
      RemoveNone(outlets[1..], id);
    }
  }

  /** Deleting keeps the ids of the list unique and under their bound, and every record well formed. */
  lemma {:induction false} RemoveKeeps(outlets: seq<Outlet>, id: nat, bound: nat)
    requires UniqueIds(outlets)
    ensures var r := Remove(outlets, id);
            && UniqueIds(r)
            && (IdsBelow(outlets, bound) ==> IdsBelow(r, bound))
            && (AllWellFormed(outlets) ==> AllWellFormed(r))
    decreases |outlets|
  {
    if outlets != [] {
      var rest := Remove(outlets[1..], id);
      RemoveKeeps(outlets[1..], id, bound);
      forall k | 0 <= k < |rest| ensures rest[k] in outlets[1..] {
        assert rest[k] in rest;
      }
      forall k | 0 <= k < |rest| ensures rest[k].id != outlets[0].id {
        var j :| 0 <= j < |outlets[1..]| && outlets[1..][j] == rest[k];
        assert outlets[j + 1] == rest[k];
      }
      var r := Remove(outlets, id);
      forall k | 0 <= k < |r| ensures r[k] in outlets {
        assert r[k] in r;
      }
    }
  }

  /** The list with the productive flag of the outlet with id `id` flipped. */
  function Toggle(outlets: seq<Outlet>, id: nat): (r: seq<Outlet>)
    ensures |r| == |outlets|
    ensures forall i :: 0 <= i < |r| ==> r[i].(isProductive := outlets[i].isProductive) == outlets[i]
    ensures forall i :: 0 <= i < |r| ==> (r[i].isProductive <==> (outlets[i].isProductive <==> outlets[i].id != id))
  {
    seq(|outlets|, i requires 0 <= i < |outlets| =>
      if outlets[i].id == id then outlets[i].(isProductive := !outlets[i].isProductive) else outlets[i])
  }

  /** Toggling the same outlet twice restores the list. */
  lemma ToggleTwice(outlets: seq<Outlet>, id: nat)
    ensures Toggle(Toggle(outlets, id), id) == outlets
  {
  }

  /** `Math.max(0, parseFloat(input) || 0)`: a typed quantity, with unreadable input (`None`) and negatives as 0. */
  function EditedValue(input: Option<real>): (r: real)
    ensures 0.0 <= r
    ensures input.Some? && 0.0 <= input.value ==> r == input.value
    ensures input.None? || input.value <= 0.0 ==> r == 0.0
  {
    match input
    case None => 0.0
    case Some(v) => if 0.0 < v then v else 0.0
  }

  /** The list with product `skuId` of the outlet with id `id` set to the edited value of `input`. */
  function Edit(outlets: seq<Outlet>, id: nat, skuId: string, input: Option<real>): (r: seq<Outlet>)
    ensures |r| == |outlets|
    ensures forall i :: 0 <= i < |r| ==> r[i].(skus := outlets[i].skus) == outlets[i]
    ensures forall i :: 0 <= i < |r| && outlets[i].id != id ==> r[i] == outlets[i]
    ensures forall i :: 0 <= i < |r| && outlets[i].id == id ==>
              && r[i].skus.Keys == outlets[i].skus.Keys + {skuId}
              && r[i].skus[skuId] == EditedValue(input)
              && forall k :: k in outlets[i].skus && k != skuId ==> r[i].skus[k] == outlets[i].skus[k]
  {
    seq(|outlets|, i requires 0 <= i < |outlets| =>
      if outlets[i].id == id then outlets[i].(skus := outlets[i].skus[skuId := EditedValue(input)]) else outlets[i])
  }

  /** An edit of a catalogue product keeps every outlet well formed: no key appears, no quantity goes negative. */
  lemma EditKeepsWellFormed(outlets: seq<Outlet>, id: nat, skuId: string, input: Option<real>)
    requires skuId in CATALOGUE_IDS
    requires forall i :: 0 <= i < |outlets| ==> WellFormed(outlets[i])
    ensures forall i :: 0 <= i < |outlets| ==> WellFormed(Edit(outlets, id, skuId, input)[i])
  {
  }

  /** The same edit twice is the edit once. */
  lemma EditIdempotent(outlets: seq<Outlet>, id: nat, skuId: string, input: Option<real>)
    ensures Edit(Edit(outlets, id, skuId, input), id, skuId, input) == Edit(outlets, id, skuId, input)
  {
    var once := Edit(outlets, id, skuId, input);
    forall i | 0 <= i < |outlets| && outlets[i].id == id
      ensures once[i].skus[skuId := EditedValue(input)] == once[i].skus
    {
    }
  }
}
