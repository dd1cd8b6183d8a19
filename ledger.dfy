/**
 * The client-side invoice ledger of the point-of-sale page: an ordered table
 * of line rows and four page-level figures (grand total, discount, net payable
 * and the next row number), updated in place by three click handlers.
 *
 * The module first gives the ledger as a value (`Ledger`) with one step
 * function per handler and the lemmas about them, then the page state as a
 * class (`Invoice`) whose methods update its fields and are tied to the step
 * functions.
 */
module InvoiceLedger {

  datatype Option<T> = None | Some(value: T)

  /** One table row: its element id, the item text, the quantity and price
      inputs, and the row-total cell. */
  datatype Row = Row(id: nat, name: string, qty: int, price: int, total: int)

  /** Everything the handlers read or write: the rows of the table body, the
      globals gTotal, disc, netPayable and rowNumber, and the discount
      percentage last read from the discount input. */
  datatype Ledger = Ledger(
    rows: seq<Row>,
    gTotal: int,
    disc: real,
    netPayable: real,
    rowNumber: nat,
    discPer: real)

  /** Quantity and price a clicked item starts with (both hard-coded to 1). */
  const NewRowQty: int := 1
  const NewRowPrice: int := 1

  // ---------------------------------------------------------------------
  // Reference definitions
  // ---------------------------------------------------------------------

  /** The grand total recomputed from scratch: the sum of the row totals. */
  function SumTotals(rows: seq<Row>): int
  {
    if rows == [] then 0 else rows[0].total + SumTotals(rows[1..])
  }

  /** The discount on grand total g at percentage p. */
  function Discount(g: int, p: real): real
  {
    (g as real) * p / 100.0
  }

  /** The grand total is the sum of the row totals. */
  ghost predicate GrandTotalIsSum(s: Ledger)
  {
    s.gTotal == SumTotals(s.rows)
  }

  /** Discount and net payable are derived from the grand total. */
  ghost predicate FiguresDerived(s: Ledger)
  {
    s.disc == Discount(s.gTotal, s.discPer) &&
    s.netPayable == s.gTotal as real - s.disc
  }

  /** Every row total is its quantity times its price. */
  ghost predicate RowsPriced(rows: seq<Row>)
  {
    forall i :: 0 <= i < |rows| ==> rows[i].total == rows[i].qty * rows[i].price
  }

  /** The k-th row added carries id k, and rowNumber is the next id. */
  ghost predicate RowsNumbered(s: Ledger)
  {
    (forall i :: 0 <= i < |s.rows| ==> s.rows[i].id == i + 1) &&
    s.rowNumber == |s.rows| + 1
  }

  /** The invariant every handler keeps. */
  ghost predicate ValidState(s: Ledger)
  {
    GrandTotalIsSum(s) && FiguresDerived(s) && RowsPriced(s.rows) && RowsNumbered(s)
  }

  // ---------------------------------------------------------------------
  // The handlers as step functions
  // ---------------------------------------------------------------------

  /** The state at page load. */
  function Init(): Ledger
  {
    Ledger([], 0, 0.0, 0.0, 1, 0.0)
  }

  /** The row with element id `id` that the page would find: the first one. */
  function Find(rows: seq<Row>, id: nat): (r: Option<nat>)
    ensures r.Some? ==> r.value < |rows| && rows[r.value].id == id
    ensures r.Some? ==> forall j :: 0 <= j < r.value ==> rows[j].id != id
    ensures r.None? <==> forall j :: 0 <= j < |rows| ==> rows[j].id != id
  {
    if rows == [] then None
    else if rows[0].id == id then Some(0)
    else match Find(rows[1..], id)
      case None => None
      case Some(k) => Some(k + 1)
  }

  /** liClick: append a row for the clicked item and update the figures,
      the grand total incrementally. */
  function AfterLiClick(s: Ledger, itemText: string, discPercent: real): Ledger
  {
    var total := NewRowQty * NewRowPrice;
    var g := s.gTotal + total;
    var d := Discount(g, discPercent);
    Ledger(s.rows + [Row(s.rowNumber, itemText, NewRowQty, NewRowPrice, total)],
           g, d, g as real - d, s.rowNumber + 1, discPercent)
  }

  /** rowClick: recompute the clicked row's total from the current quantity
      and price inputs, and adjust the grand total by the difference. A row id
      that names no row leaves everything as it was. */
  function AfterRowClick(s: Ledger, rowId: nat, curQty: int, curPrice: int, discPercent: real): Ledger
  {
    match Find(s.rows, rowId)
    case None => s
    case Some(i) =>
      var oldRow := s.rows[i];
      var curRowTotal := curQty * curPrice;
      var g := s.gTotal - oldRow.total + curRowTotal;
      var d := Discount(g, discPercent);
      Ledger(s.rows[i := oldRow.(qty := curQty, price := curPrice, total := curRowTotal)],
             g, d, g as real - d, s.rowNumber, discPercent)
  }

  /** updateDisc: recompute discount and net payable from the grand total. */
  function AfterUpdateDisc(s: Ledger, discPercent: real): Ledger
  {
    var d := Discount(s.gTotal, discPercent);
    s.(disc := d, netPayable := s.gTotal as real - d, discPer := discPercent)
  }

  /** A user action on the page, with the input values the handler reads. */
  datatype Event =
    | ItemClicked(itemText: string, discPercent: real)
    | RowClicked(rowId: nat, curQty: int, curPrice: int, discPercent: real)
    | DiscountClicked(discPercent: real)

  function Step(s: Ledger, e: Event): Ledger
  {
    match e
    case ItemClicked(t, p) => AfterLiClick(s, t, p)
    case RowClicked(id, q, pr, p) => AfterRowClick(s, id, q, pr, p)
    case DiscountClicked(p) => AfterUpdateDisc(s, p)
  }

  /** The state after a sequence of user actions. */
  function Run(s: Ledger, events: seq<Event>): Ledger
    decreases |events|
  {
    if events == [] then s else Run(Step(s, events[0]), events[1..])
  }

  // ---------------------------------------------------------------------
  // Sums
  // ---------------------------------------------------------------------

  lemma {:induction false} SumTotalsAppend(rows: seq<Row>, r: Row)
    ensures SumTotals(rows + [r]) == SumTotals(rows) + r.total
  {
    if rows == [] {
      assert [] + [r] == [r];
    } else {
      assert (rows + [r])[1..] == rows[1..] + [r];
      SumTotalsAppend(rows[1..], r);
    }
  }

  lemma {:induction false} SumTotalsUpdate(rows: seq<Row>, i: nat, r: Row)
    requires i < |rows|
    ensures SumTotals(rows[i := r]) == SumTotals(rows) - rows[i].total + r.total
  {
    if i > 0 {
      assert rows[i := r][1..] == rows[1..][i - 1 := r];
      SumTotalsUpdate(rows[1..], i - 1, r);
    }
  }

  /** Rows numbered consecutively from `base` are found at offset id - base. */
  lemma {:induction false} FindNumbered(rows: seq<Row>, id: nat, base: nat)
    requires forall i :: 0 <= i < |rows| ==> rows[i].id == i + base
    ensures Find(rows, id) == if base <= id < base + |rows| then Some(id - base) else None
  {
    if rows != [] && rows[0].id != id {
      FindNumbered(rows[1..], id, base + 1);
    }
  }

  // ---------------------------------------------------------------------
  // liClick
  // ---------------------------------------------------------------------

  /** A click appends exactly one row, whose id is the current rowNumber, with
      quantity 1, price 1 and total 1; earlier rows are untouched, rowNumber
      goes up by one and the grand total by the new row's total. */
  lemma LiClickAppends(s: Ledger, itemText: string, discPercent: real)
    ensures var t := AfterLiClick(s, itemText, discPercent);
      |t.rows| == |s.rows| + 1 && t.rows[..|s.rows|] == s.rows &&
      t.rows[|s.rows|] == Row(s.rowNumber, itemText, 1, 1, 1) &&
      t.rowNumber == s.rowNumber + 1 &&
      t.gTotal == s.gTotal + t.rows[|s.rows|].total
  {
  }

  /** The incremental grand total of liClick agrees with the sum of the rows. */
  lemma LiClickKeepsSum(s: Ledger, itemText: string, discPercent: real)
    requires GrandTotalIsSum(s)
    ensures GrandTotalIsSum(AfterLiClick(s, itemText, discPercent))
  {
    SumTotalsAppend(s.rows, Row(s.rowNumber, itemText, NewRowQty, NewRowPrice, NewRowQty * NewRowPrice));
  }

  lemma LiClickPreservesValid(s: Ledger, itemText: string, discPercent: real)
    requires ValidState(s)
    ensures ValidState(AfterLiClick(s, itemText, discPercent))
  {
    LiClickKeepsSum(s, itemText, discPercent);
  }

  // ---------------------------------------------------------------------
  // rowClick
  // ---------------------------------------------------------------------

  /** rowClick changes the clicked row's quantity, price and total and the
      figures, and nothing else: the other rows, the row's id and name, the
      number of rows and rowNumber stay. An unknown id changes nothing. */
  lemma RowClickFrame(s: Ledger, rowId: nat, curQty: int, curPrice: int, discPercent: real)
    ensures var t := AfterRowClick(s, rowId, curQty, curPrice, discPercent);
      |t.rows| == |s.rows| && t.rowNumber == s.rowNumber &&
      match Find(s.rows, rowId)
      case None => t == s
      case Some(i) =>
        t.rows[i].id == s.rows[i].id == rowId && t.rows[i].name == s.rows[i].name &&
        t.rows[i].total == curQty * curPrice &&
        t.gTotal == s.gTotal - s.rows[i].total + curQty * curPrice &&
        forall j :: 0 <= j < |s.rows| && j != i ==> t.rows[j] == s.rows[j]
  {
  }

  /** The incremental update old gTotal - old row total + new row total gives
      the same grand total as summing the rows from scratch. */
  lemma RowClickKeepsSum(s: Ledger, rowId: nat, curQty: int, curPrice: int, discPercent: real)
    requires GrandTotalIsSum(s)
    ensures GrandTotalIsSum(AfterRowClick(s, rowId, curQty, curPrice, discPercent))
  {
    match Find(s.rows, rowId)
    case None =>
    case Some(i) =>
      SumTotalsUpdate(s.rows, i, s.rows[i].(qty := curQty, price := curPrice, total := curQty * curPrice));
  }

  lemma RowClickPreservesValid(s: Ledger, rowId: nat, curQty: int, curPrice: int, discPercent: real)
    requires ValidState(s)
    ensures ValidState(AfterRowClick(s, rowId, curQty, curPrice, discPercent))
  {
    RowClickKeepsSum(s, rowId, curQty, curPrice, discPercent);
  }

  /** In a valid ledger, rowClick finds row k exactly when k is an id already
      handed out. */
  lemma RowClickFindsIssuedIds(s: Ledger, rowId: nat)
    requires ValidState(s)
    ensures Find(s.rows, rowId).Some? <==> 1 <= rowId < s.rowNumber
    ensures Find(s.rows, rowId).Some? ==> Find(s.rows, rowId).value == rowId - 1
  {
    FindNumbered(s.rows, rowId, 1);
  }

  /** Clicking a row again with the quantity and price it already shows, and
      the percentage already applied, leaves the whole ledger unchanged. */
  lemma RowClickRefire(s: Ledger, i: nat)
    requires ValidState(s) && i < |s.rows|
    ensures AfterRowClick(s, s.rows[i].id, s.rows[i].qty, s.rows[i].price, s.discPer) == s
  {
  }

  // ---------------------------------------------------------------------
  // updateDisc
  // ---------------------------------------------------------------------

  /** updateDisc touches only the discount, net payable and percentage, and a
      second application with the same percentage changes nothing more. */
  lemma UpdateDiscFrame(s: Ledger, discPercent: real)
    ensures var t := AfterUpdateDisc(s, discPercent);
      t.rows == s.rows && t.gTotal == s.gTotal && t.rowNumber == s.rowNumber &&
      FiguresDerived(t) && t.discPer == discPercent &&
      AfterUpdateDisc(t, discPercent) == t
  {
  }

  lemma UpdateDiscPreservesValid(s: Ledger, discPercent: real)
    requires ValidState(s)
    ensures ValidState(AfterUpdateDisc(s, discPercent))
  {
  }

  // ---------------------------------------------------------------------
  // Derived figures and whole sessions
  // ---------------------------------------------------------------------

  /** Discount and net payable split the grand total; no discount leaves the
      grand total payable and a full one leaves nothing. */
  lemma FiguresSplitGrandTotal(s: Ledger)
    requires FiguresDerived(s)
    ensures s.disc + s.netPayable == s.gTotal as real
    ensures s.discPer == 0.0 ==> s.disc == 0.0 && s.netPayable == s.gTotal as real
    ensures s.discPer == 100.0 ==> s.disc == s.gTotal as real && s.netPayable == 0.0
  {
  }

  /** Row ids are unique and strictly increasing in table order, and below
      rowNumber, so a fresh row never reuses an id. */
  lemma IdsIncreasing(s: Ledger)
    requires ValidState(s)
    ensures forall i, j :: 0 <= i < j < |s.rows| ==> s.rows[i].id < s.rows[j].id
    ensures forall i :: 0 <= i < |s.rows| ==> 1 <= s.rows[i].id < s.rowNumber
  {
  }

  lemma InitValid()
    ensures ValidState(Init())
    ensures Init().rows == [] && Init().gTotal == 0 && Init().disc == 0.0 &&
            Init().netPayable == 0.0 && Init().rowNumber == 1
  {
  }

  lemma StepPreservesValid(s: Ledger, e: Event)
    requires ValidState(s)
    ensures ValidState(Step(s, e))
  {
    match e
    case ItemClicked(t, p) => LiClickPreservesValid(s, t, p);
    case RowClicked(id, q, pr, p) => RowClickPreservesValid(s, id, q, pr, p);
    case DiscountClicked(p) => UpdateDiscPreservesValid(s, p);
  }

  /** Every sequence of clicks keeps the invariant after every click. */
  lemma {:induction false} RunPreservesValid(s: Ledger, events: seq<Event>)
    requires ValidState(s)
    ensures ValidState(Run(s, events))
    decreases |events|
  {
    if events != [] {
      StepPreservesValid(s, events[0]);
      RunPreservesValid(Step(s, events[0]), events[1..]);
    }
  }

  /** The rows only grow: a session never removes, reorders or renumbers a
      row, and each item click adds one. */
  lemma {:induction false} RunKeepsRowIds(s: Ledger, events: seq<Event>)
    ensures var t := Run(s, events);
      |t.rows| >= |s.rows| && t.rowNumber >= s.rowNumber &&
      forall i :: 0 <= i < |s.rows| ==> t.rows[i].id == s.rows[i].id && t.rows[i].name == s.rows[i].name
    decreases |events|
  {
    if events != [] {
      var s' := Step(s, events[0]);
      match events[0] {
        case ItemClicked(t, p) =>
        case RowClicked(id, q, pr, p) => RowClickFrame(s, id, q, pr, p);
        case DiscountClicked(p) =>
      }
      RunKeepsRowIds(s', events[1..]);
    }
  }

  // ---------------------------------------------------------------------
  // The page state, updated in place
  // ---------------------------------------------------------------------

  class Invoice {
    var rows: seq<Row>
    var gTotal: int
    var disc: real
    var netPayable: real
    var rowNumber: nat
    var discPer: real

    ghost function Snapshot(): Ledger
      reads this
    {
      Ledger(rows, gTotal, disc, netPayable, rowNumber, discPer)
    }

    ghost predicate Valid()
      reads this
    {
      ValidState(Snapshot())
    }

    /** Page load: an empty table, all figures 0, the first row number 1. */
    constructor ()
      ensures Valid() && Snapshot() == Init()
      ensures rows == [] && gTotal == 0 && disc == 0.0 && netPayable == 0.0 && rowNumber == 1
    {
      rows, gTotal, disc, netPayable, rowNumber, discPer := [], 0, 0.0, 0.0, 1, 0.0;
      InitValid();
    }

    method LiClick(itemText: string, discPercent: real)
      requires Valid()
      modifies this
      ensures Valid() && Snapshot() == AfterLiClick(old(Snapshot()), itemText, discPercent)
      ensures rows == old(rows) + [Row(old(rowNumber), itemText, 1, 1, 1)]
      ensures rowNumber == old(rowNumber) + 1 && gTotal == old(gTotal) + 1
    {
      ghost var before := Snapshot();
      var qty := NewRowQty;
      var price := NewRowPrice;
      var total := qty * price;
      gTotal := gTotal + total;
      discPer := discPercent;
      disc := Discount(gTotal, discPer);
      netPayable := gTotal as real - disc;
      rows := rows + [Row(rowNumber, itemText, qty, price, total)];
      rowNumber := rowNumber + 1;
      LiClickPreservesValid(before, itemText, discPercent);
    }

    method RowClick(rowId: nat, curQty: int, curPrice: int, discPercent: real) returns (found: bool)
      requires Valid()
      modifies this
      ensures Valid() && Snapshot() == AfterRowClick(old(Snapshot()), rowId, curQty, curPrice, discPercent)
      ensures found <==> 1 <= rowId < old(rowNumber)
      ensures !found ==> Snapshot() == old(Snapshot())
      ensures found ==> gTotal == SumTotals(rows) && rows[rowId - 1].total == curQty * curPrice
    {
      ghost var before := Snapshot();
      RowClickFindsIssuedIds(before, rowId);
      RowClickPreservesValid(before, rowId, curQty, curPrice, discPercent);
      var k := Find(rows, rowId);
      if k.None? {
        found := false;
        return;
      }
      found := true;
      var i := k.value;
      var curRowTotal := curQty * curPrice;
      var oldRowValue := rows[i].total;
      var oldGTotal := gTotal;
      rows := rows[i := rows[i].(qty := curQty, price := curPrice, total := curRowTotal)];
      gTotal := oldGTotal - oldRowValue + curRowTotal;
      discPer := discPercent;
      disc := Discount(gTotal, discPer);
      netPayable := gTotal as real - disc;
    }

    method UpdateDisc(discPercent: real)
      requires Valid()
      modifies this
      ensures Valid() && Snapshot() == AfterUpdateDisc(old(Snapshot()), discPercent)
      ensures rows == old(rows) && gTotal == old(gTotal) && rowNumber == old(rowNumber)
    {
      discPer := discPercent;
      disc := Discount(gTotal, discPer);
      netPayable := gTotal as real - disc;
    }
  }

  /** A session on the seeded catalog: two items clicked, their prices typed
      in, a 10% discount, then the first quantity raised to 3. */
  method ChickenAndFish()
  {
    var inv := new Invoice();
    inv.LiClick(" + Chicken", 0.0);
    inv.LiClick(" + Fish", 0.0);
    assert inv.gTotal == 2;
    var found := inv.RowClick(1, 1, 150, 0.0);
    assert found;
    found := inv.RowClick(2, 1, 350, 0.0);
    assert found && inv.gTotal == 500;
    inv.UpdateDisc(10.0);
    assert inv.disc == 50.0 && inv.netPayable == 450.0;
    found := inv.RowClick(1, 3, 150, 10.0);
    assert inv.gTotal == 800 && inv.disc == 80.0 && inv.netPayable == 720.0;
    found := inv.RowClick(3, 5, 5, 10.0);
    assert !found && inv.gTotal == 800;
  }
}
