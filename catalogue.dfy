/**
 * The static configuration in constants.ts: the reporting constants, the SKU catalogue
 * with its price list, and the three time slots with their shares of the day.
 */
module Catalogue {

  /** A catalogue entry; `caption` is the product label, the anchor searched for in invoice text. */
  datatype SkuDefinition = SkuDefinition(id: string, caption: string, price: int)

  datatype TimeSlot = TimeSlot(caption: string, ratio: real)

  const SALES_PERSON: string := "Shubham"
  const DESIGNATION: string := "SO"
  const MANAGER: string := "Sanjay Sharma Ji"
  const CITY: string := "Amritsar"
  const SS_NAME: string := "Sumit Enterprises"

  /** The id of the product invoiced at 30 bottles to the case. */
  const MC2_ID: string := "sku_mc2"
  /** Every id starting with this prefix is a 2-litre product, invoiced at 6 bottles to the case. */
  const TWO_LITRE_PREFIX: string := "sku_2l"

  const SKU_LIST: seq<SkuDefinition> := [
    SkuDefinition("sku_160ml", "160 ML Juice", 165),
    SkuDefinition("sku_apple", "APPLE", 155),
    SkuDefinition("sku_sparkel200", "SPARKEL 200 ML", 155),
    SkuDefinition("sku_nimbu_soda200", "Nimbu Soda 200 ml", 155),
    SkuDefinition("sku_nimbu_pani300", "Nimbu Pani 300 ml", 300),
    SkuDefinition("sku_zeera", "Mr. Fresh Zeera", 155),
    SkuDefinition("sku_juice_misc", "JUICE 300/500/600 ML", 300),
    SkuDefinition("sku_1ltr", "1 Ltr", 400),
    SkuDefinition("sku_2ltr", "2 Ltr", 370),
    SkuDefinition("sku_coconut", "Coconut Water", 1280),
    SkuDefinition("sku_mc2", "MC2", 420),
    SkuDefinition("sku_energy", "D1 CAN ENERGY DRINK/ BASIL SEEDS", 155)
  ]

  const TIME_SLOTS: seq<TimeSlot> := [
    TimeSlot("9 AM - 12 PM", 0.3),
    TimeSlot("12:01 PM - 3 PM", 0.4),
    TimeSlot("3 PM - 6 PM", 0.3)
  ]

  /** The ids of the entries of `list`. */
  function Ids(list: seq<SkuDefinition>): (r: set<string>)
    ensures forall i :: 0 <= i < |list| ==> list[i].id in r
  {
    set i | 0 <= i < |list| :: list[i].id
  }

  /** The ids of a list are those of all but its last entry, and the last entry's. */
  lemma IdsSnoc(list: seq<SkuDefinition>)
    requires |list| > 0
    ensures Ids(list) == Ids(list[..|list| - 1]) + {list[|list| - 1].id}
  {
    var front := list[..|list| - 1];
    forall k | k in Ids(list) ensures k in Ids(front) + {list[|list| - 1].id} {
      var i :| 0 <= i < |list| && list[i].id == k;
      if i < |front| {
        assert front[i] == list[i];
      }
    }
  }

  /** The entries of `list` have pairwise distinct ids. */
  predicate DistinctIds(list: seq<SkuDefinition>)
  {
    forall i, j :: 0 <= i < j < |list| ==> list[i].id != list[j].id
  }

  /** The keys of the per-outlet quantity record built from the catalogue. */
  const CATALOGUE_IDS: set<string> := Ids(SKU_LIST)

  /** Catalogue ids are pairwise distinct, so a record keyed by id holds one entry per product. */
  lemma IdsDistinct()
    ensures DistinctIds(SKU_LIST)
  {
  }

  /** Every price is positive and is the one the pricing matrix gives the product's category. */
  lemma PricesFollowMatrix()
    ensures forall i :: 0 <= i < |SKU_LIST| ==> SKU_LIST[i].price > 0
    ensures SKU_LIST[0].price == 165
    ensures forall i :: 1 <= i <= 3 ==> SKU_LIST[i].price == 155
    ensures SKU_LIST[5].price == 155 && SKU_LIST[11].price == 155
    ensures SKU_LIST[4].price == 300 && SKU_LIST[6].price == 300
    ensures SKU_LIST[7].price == 400 && SKU_LIST[8].price == 370
    ensures SKU_LIST[9].price == 1280 && SKU_LIST[10].price == 420
  {
  }

  /** The two bottle-to-case conversions each apply to exactly one catalogue entry: MC2 and 2 Ltr. */
  lemma ConversionTargets()
    ensures forall i :: 0 <= i < |SKU_LIST| ==> (SKU_LIST[i].id == MC2_ID <==> i == 10)
    ensures forall i :: 0 <= i < |SKU_LIST| ==> (TWO_LITRE_PREFIX <= SKU_LIST[i].id <==> i == 8)
    ensures SKU_LIST[10].caption == "MC2" && SKU_LIST[8].caption == "2 Ltr"
  {
    forall i | 0 <= i < |SKU_LIST|
      ensures TWO_LITRE_PREFIX <= SKU_LIST[i].id <==> i == 8
    {
      var id := SKU_LIST[i].id;
      // the fifth character already tells the 2-litre id apart from every other one
      assert |id| > 5 && (id[4] == '2' <==> i == 8);
      if TWO_LITRE_PREFIX <= id {
        assert id[4] == TWO_LITRE_PREFIX[4];
      }
      if i == 8 {
        assert id[..6] == TWO_LITRE_PREFIX;
      }
    }
  }

  /** Every label is non-empty: labels are the anchors the SKU scanner looks for. */
  lemma LabelsNonEmpty()
    ensures forall i :: 0 <= i < |SKU_LIST| ==> |SKU_LIST[i].caption| > 0
  {
  }

  /** Three slots in order, whose first two ratios are the literals of the remainder rule. */
  lemma TimeSlotRatios()
    ensures |TIME_SLOTS| == 3
    ensures TIME_SLOTS[0].ratio == 0.3 && TIME_SLOTS[1].ratio == 0.4 && TIME_SLOTS[2].ratio == 0.3
    ensures TIME_SLOTS[0].ratio + TIME_SLOTS[1].ratio + TIME_SLOTS[2].ratio == 1.0
  {
  }
}
