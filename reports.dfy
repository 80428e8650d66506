/**
 * The two report tables: F2, one row per outlet with its total cases and value, and
 * F1, the day split into the three time slots with the calls, productive calls, cases
 * and value of each, the last slot taking whatever the first two leave.
 */
module Reports {
  import opened Catalogue
  import opened Rounding
  import opened Outlets

  /** The quantity an outlet holds of product `id`, 0 when it has none recorded. */
  function Held(skus: map<string, real>, id: string): (r: real)
    ensures id in skus ==> r == skus[id]
  {
    if id in skus then skus[id] else 0.0
  }

  /** The cases of the products of `list`, summed. */
  function SumCases(skus: map<string, real>, list: seq<SkuDefinition>): (r: real)
    ensures (forall id :: id in skus ==> 0.0 <= skus[id]) ==> 0.0 <= r
  {
    if list == [] then 0.0
    else SumCases(skus, list[..|list| - 1]) + Held(skus, list[|list| - 1].id)
  }

  /** The value of the products of `list` at their list prices, summed. */
  function SumValue(skus: map<string, real>, list: seq<SkuDefinition>): (r: real)
    ensures (forall i :: 0 <= i < |list| ==> 0 <= list[i].price) && (forall id :: id in skus ==> 0.0 <= skus[id]) ==> 0.0 <= r
  {
    if list == [] then 0.0
    else
      var last := list[|list| - 1];
      SumValue(skus, list[..|list| - 1]) + Held(skus, last.id) * last.price as real
  }

  /** An F2 row: the outlet, the reporting constants, and its total cases and value. */
  datatype F2Row = F2Row(
    outlet: Outlet,
    date: string,
    salesPerson: string,
    desig: string,
    manager: string,
    city: string,
    ss: string,
    totalQuantity: real,
    totalValue: int)

  /** The F2 row of one outlet: cases rounded to two decimals, value to the rupee. */
  function F2RowOf(o: Outlet, date: string): (r: F2Row)
    ensures r.outlet == o && r.date == date
    ensures WellFormed(o) ==> 0.0 <= r.totalQuantity && 0 <= r.totalValue
    ensures SumCases(o.skus, SKU_LIST) - 0.005 <= r.totalQuantity <= SumCases(o.skus, SKU_LIST) + 0.005
  {
    PricesFollowMatrix();
    var value := SumValue(o.skus, SKU_LIST);
    F2Row(o, date, SALES_PERSON, DESIGNATION, MANAGER, CITY, SS_NAME,
          ToFixed2(SumCases(o.skus, SKU_LIST)), MathRound(value))
  }

  /** The value of an F2 row is the priced total rounded to the nearest rupee. */
  lemma F2ValueRounded(o: Outlet, date: string)
    ensures var v := SumValue(o.skus, SKU_LIST);
            v - 0.5 < F2RowOf(o, date).totalValue as real <= v + 0.5
  {
  }

  function F2Data(outlets: seq<Outlet>, date: string): (r: seq<F2Row>)
    ensures |r| == |outlets|
    ensures forall i :: 0 <= i < |r| ==> r[i] == F2RowOf(outlets[i], date)
  {
    if outlets == [] then [] else [F2RowOf(outlets[0], date)] + F2Data(outlets[1..], date)
  }

  /** The cases of the day: the F2 rows' totals, summed. */
  function TotalQuantity(rows: seq<F2Row>): (r: real)
    ensures (forall i :: 0 <= i < |rows| ==> 0.0 <= rows[i].totalQuantity) ==> 0.0 <= r
  {
    if rows == [] then 0.0 else rows[0].totalQuantity + TotalQuantity(rows[1..])
  }

  /** The value of the day: the F2 rows' values, summed. */
  function TotalValue(rows: seq<F2Row>): (r: int)
    ensures (forall i :: 0 <= i < |rows| ==> 0 <= rows[i].totalValue) ==> 0 <= r
  {
    if rows == [] then 0 else rows[0].totalValue + TotalValue(rows[1..])
  }

  /** A day of well-formed outlets has non-negative totals. */
  lemma DayTotalsNonNegative(outlets: seq<Outlet>, date: string)
    requires AllWellFormed(outlets)
    ensures 0.0 <= TotalQuantity(F2Data(outlets, date)) && 0 <= TotalValue(F2Data(outlets, date))
  {
    var f2 := F2Data(outlets, date);
    forall i | 0 <= i < |f2| ensures 0.0 <= f2[i].totalQuantity && 0 <= f2[i].totalValue {
      assert WellFormed(outlets[i]);
    }
  }

  /** One F1 row; the kilometre columns are always left empty. */
  datatype F1Row = F1Row(
    date: string,
    timeSlot: string,
    name: string,
    tc: int,
    pc: int,
    salesInBox: real,
    salesValue: int,
    dbConfirmation: string,
    openingKm: string,
    closingKm: string)

  /**
   * The share of slot `i` of a whole-number total under the rounding `round`: the
   * rounded ratio for the first two slots, and for the last what they leave.
   */
  function SlotCount(total: int, i: nat, round: real -> int): (r: int)
    requires i < |TIME_SLOTS|
    ensures i < 2 ==> r == round(total as real * TIME_SLOTS[i].ratio)
  {
    if i == 2 then total - (round(total as real * 0.3) + round(total as real * 0.4))
    else round(total as real * TIME_SLOTS[i].ratio)
  }

  /** The share of slot `i` of the total cases, on the same rule; only the last slot can be fractional. */
  function SlotCases(total: real, i: nat, round: real -> int): (r: real)
    requires i < |TIME_SLOTS|
    ensures i < 2 ==> r == round(total * TIME_SLOTS[i].ratio) as real
  {
    if i == 2 then total - (round(total * 0.3) + round(total * 0.4)) as real
    else round(total * TIME_SLOTS[i].ratio) as real
  }

  /** The F1 table of the day, with `Math.round` as `round`. */
  function F1Data(outlets: seq<Outlet>, date: string, round: real -> int): (r: seq<F1Row>)
    ensures |r| == |TIME_SLOTS|
    ensures forall i :: 0 <= i < |r| ==>
              && r[i].timeSlot == TIME_SLOTS[i].caption && r[i].name == SALES_PERSON && r[i].date == date
              && r[i].dbConfirmation == "OK" && r[i].openingKm == "" && r[i].closingKm == ""
  {
    var f2 := F2Data(outlets, date);
    var totalTC := |outlets|;
    var totalPC := CountProductive(outlets);
    var totalQty := TotalQuantity(f2);
    var totalVal := TotalValue(f2);
    seq(|TIME_SLOTS|, i requires 0 <= i < |TIME_SLOTS| =>
      F1Row(date, TIME_SLOTS[i].caption, SALES_PERSON,
            SlotCount(totalTC, i, round), SlotCount(totalPC, i, round),
            SlotCases(totalQty, i, round), SlotCount(totalVal, i, round),
            "OK", "", ""))
  }

  /** Whatever the rounding, the three slots of a whole-number total add up to it. */
  lemma SlotCountsAddUp(total: int, round: real -> int)
    ensures SlotCount(total, 0, round) + SlotCount(total, 1, round) + SlotCount(total, 2, round) == total
  {
  }

  /** Whatever the rounding, the three slots of the total cases add up to it. */
  lemma SlotCasesAddUp(total: real, round: real -> int)
    ensures SlotCases(total, 0, round) + SlotCases(total, 1, round) + SlotCases(total, 2, round) == total
  {
  }

  /** F1 loses nothing, whatever the rounding: its slots sum to the calls, productive calls, cases and value of the day. */
  lemma F1Conservation(outlets: seq<Outlet>, date: string, round: real -> int)
    ensures var r := F1Data(outlets, date, round);
            var f2 := F2Data(outlets, date);
            && r[0].tc + r[1].tc + r[2].tc == |outlets|
            && r[0].pc + r[1].pc + r[2].pc == CountProductive(outlets)
            && r[0].salesInBox + r[1].salesInBox + r[2].salesInBox == TotalQuantity(f2)
            && r[0].salesValue + r[1].salesValue + r[2].salesValue == TotalValue(f2)
  {
    var f2 := F2Data(outlets, date);
    SlotCountsAddUp(|outlets|, round);
    SlotCountsAddUp(CountProductive(outlets), round);
    SlotCasesAddUp(TotalQuantity(f2), round);
    SlotCountsAddUp(TotalValue(f2), round);
  }

  /** For whole-number totals, as calls are, no slot ever gets a negative count. */
  lemma SlotCountNonNegative(total: nat, i: nat)
    requires i < |TIME_SLOTS|
    ensures 0 <= SlotCount(total, i, MathRound)
  {
    if i == 2 && total >= 4 {
      var a := MathRound(total as real * 0.3);
      var b := MathRound(total as real * 0.4);
      assert a as real <= total as real * 0.3 + 0.5;
      assert b as real <= total as real * 0.4 + 0.5;
    }
  }

  /** Under `Math.round`, a day of well-formed outlets gives every F1 slot non-negative calls, productive calls and value. */
  lemma F1CountsNonNegative(outlets: seq<Outlet>, date: string, i: nat)
    requires AllWellFormed(outlets) && i < |TIME_SLOTS|
    ensures var row := F1Data(outlets, date, MathRound)[i];
            0 <= row.tc && 0 <= row.pc && 0 <= row.salesValue
  {
    DayTotalsNonNegative(outlets, date);
    SlotCountNonNegative(|outlets|, i);
    SlotCountNonNegative(CountProductive(outlets), i);
    SlotCountNonNegative(TotalValue(F2Data(outlets, date)), i);
  }

  /** A day of 1.7 cases puts -0.3 cases in the last slot: for fractional totals the remainder rule can go negative. */
  lemma LastSlotCanBeNegative()
    ensures SlotCases(1.7, 2, MathRound) == -0.3
  {
    assert MathRound(1.7 * 0.3) == 1;
    assert MathRound(1.7 * 0.4) == 1;
  }
}
