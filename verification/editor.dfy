/**
 * The order form of `app.py`: the editable item rows, the preview of the
 * gross total, and saving (customer upsert, then the order). Widgets and
 * page reruns are not modelled; the form's values are inputs.
 */
module Editor {
  import opened Wrappers
  import opened Text
  import opened Seqs
  import opened Store
  import Totals

  /** One editable row; the price is in euros as the widget holds it, the VAT rate in percent. */
  datatype EditorItem = EditorItem(description: string, quantity: real, unitPriceEur: real, vatRate: int)

  /** The row the editor starts with and appends. */
  const NewPosition := EditorItem("", 1.0, 0.0, 19)

  /** `position_hinzufuegen`: append an empty row. */
  function AddPosition(rows: seq<EditorItem>): (r: seq<EditorItem>)
    ensures |r| == |rows| + 1
    ensures r[..|rows|] == rows && r[|rows|] == NewPosition
  {
    rows + [NewPosition]
  }

  /** `letzte_position_entfernen`: drop the last row, but never the only one. */
  function RemoveLastPosition(rows: seq<EditorItem>): (r: seq<EditorItem>)
    ensures |rows| > 1 ==> |r| == |rows| - 1 && rows == r + [rows[|rows| - 1]]
    ensures |rows| <= 1 ==> r == rows
  {
    if |rows| > 1 then rows[..|rows| - 1] else rows
  }

  /** Removing the last row undoes adding one. */
  lemma RemoveUndoesAdd(rows: seq<EditorItem>)
    requires |rows| >= 1
    ensures RemoveLastPosition(AddPosition(rows)) == rows
  {
  }

  datatype EditorOp = Add | RemoveLast

  /** The rows after a sequence of button presses. */
  function ApplyOps(rows: seq<EditorItem>, ops: seq<EditorOp>): seq<EditorItem>
  {
    if |ops| == 0 then rows
    else
      var before := ApplyOps(rows, ops[..|ops| - 1]);
      match ops[|ops| - 1]
      case Add => AddPosition(before)
      case RemoveLast => RemoveLastPosition(before)
  }

  /**
   * However the buttons are pressed, the editor keeps at least one row and
   * grows by at most one row per press.
   */
  lemma {:induction false} AlwaysOneRow(rows: seq<EditorItem>, ops: seq<EditorOp>)
    requires |rows| >= 1
    ensures 1 <= |ApplyOps(rows, ops)| <= |rows| + |ops|
  {
    if |ops| > 0 {
      AlwaysOneRow(rows, ops[..|ops| - 1]);
    }
  }

  /** `it["description"].strip()` is truthy: the row counts and is saved. */
  predicate Described(it: EditorItem) {
    !IsBlank(it.description)
  }

  /** The preview's amount for one row: `round(euro_zu_cent(price) * quantity)`. */
  function PreviewLine(it: EditorItem, toCent: real -> int, lineGross: (real, int) -> int): int {
    lineGross(it.quantity, toCent(it.unitPriceEur))
  }

  function PreviewLineOf(toCent: real -> int, lineGross: (real, int) -> int): EditorItem -> int {
    it => PreviewLine(it, toCent, lineGross)
  }

  /** The preview as a reference sum: described rows' amounts, plus the fee, minus the discount. */
  function Preview(rows: seq<EditorItem>, feeEur: real, discountEur: real, toCent: real -> int, lineGross: (real, int) -> int): int {
    SumOf(Filter(rows, Described), PreviewLineOf(toCent, lineGross)) + toCent(feeEur) - toCent(discountEur)
  }

  /**
   * The preview loop of the form: skip rows without description, add each
   * row's rounded amount, add the delivery fee and subtract the discount (all
   * converted to cents by `toCent`).
   */
  method PreviewTotal(rows: seq<EditorItem>, feeEur: real, discountEur: real, toCent: real -> int, lineGross: (real, int) -> int)
    returns (total: int)
    ensures total == Preview(rows, feeEur, discountEur, toCent, lineGross)
  {
    total := SumKept(rows, Described, PreviewLineOf(toCent, lineGross));
    total := total + toCent(feeEur);
    total := total - toCent(discountEur);
  }

  /** The item handed to `create_order` for a described row. */
  function ToPosition(it: EditorItem, toCent: real -> int): ItemInput {
    ItemInput(None, Some(it.description), Some(it.quantity), None, Some(toCent(it.unitPriceEur)), Some(it.vatRate))
  }

  /** `positionen`: the described rows, in order, as order items with their price in cents. */
  function Positions(rows: seq<EditorItem>, toCent: real -> int): (r: seq<ItemInput>)
    ensures |r| == |Filter(rows, Described)|
    ensures forall j :: 0 <= j < |r| ==> Kept(r[j]) && r[j].unitPriceCents.Some?
    ensures forall j :: 0 <= j < |r| ==> r[j] == ToPosition(Filter(rows, Described)[j], toCent)
  {
    var kept := Filter(rows, Described);
    seq(|kept|, j requires 0 <= j < |kept| => ToPosition(kept[j], toCent))
  }

  /** The form fields besides the item rows. */
  datatype Form = Form(
    eventDate: string,
    eventTime: string,
    fulfilment: string,
    notes: string,
    customerName: string,
    customerPhone: string,
    customerAddress: string,
    deliveryFeeEur: real,
    discountEur: real)

  /** The outcome of pressing save: the database, the editor rows, and the new order id or the error shown. */
  datatype Saved = Saved(store: Store, rows: seq<EditorItem>, outcome: Result<int, Error>)

  /** The customer step of saving: upsert only when a name or a phone is entered. */
  function SaveCustomer(s: Store, form: Form): (r: (Store, Option<int>))
    ensures IsBlank(form.customerName) && IsBlank(form.customerPhone) ==> r == (s, None)
    ensures !(IsBlank(form.customerName) && IsBlank(form.customerPhone)) ==>
      var (s', id) := UpsertCustomer(s, CustomerName(form.customerName), Some(form.customerPhone), Some(form.customerAddress));
      r == (s', Some(id))
  {
    if !IsBlank(form.customerName) || !IsBlank(form.customerPhone) then
      var (s', id) := UpsertCustomer(s, CustomerName(form.customerName), Some(form.customerPhone), Some(form.customerAddress));
      (s', Some(id))
    else (s, None)
  }

  /**
   * The order step of saving, after the customer step left `s1` and
   * `customerId`: a form without a described row is refused; otherwise the
   * described rows become the order's items and the editor is reset to one
   * empty row. On an error the rows stay and `s1` is kept.
   */
  function PlaceOrder(s1: Store, customerId: Option<int>, form: Form, rows: seq<EditorItem>, toCent: real -> int): (r: Saved)
    ensures r.outcome.Failure? ==> r.store == s1 && r.rows == rows
    ensures Filter(rows, Described) == [] ==> r.outcome == Failure(NoItems)
    ensures Filter(rows, Described) != [] && FulfilmentOf(form.fulfilment).Some? ==> r.outcome.Success?
    ensures FulfilmentOf(form.fulfilment).None? ==> r.outcome.Failure?
    ensures r.outcome.Success? ==>
      var id := r.outcome.value;
      && r.rows == [NewPosition]
      && CreateOrder(s1, customerId, form.eventDate, form.eventTime, form.fulfilment, Some(form.notes),
           toCent(form.discountEur), toCent(form.deliveryFeeEur), Some(Positions(rows, toCent))) == Success((r.store, id))
      && r.store.customers == s1.customers
      && r.store.invoiceCounter == s1.invoiceCounter
      && r.store.orders == s1.orders[id := r.store.orders[id]]
      && r.store.items == s1.items[id := r.store.items[id]]
      && id == s1.nextOrderId
      && id in r.store.orders
      && r.store.orders[id].customerId == customerId
      && r.store.orders[id].discountCents == toCent(form.discountEur)
      && r.store.orders[id].deliveryFeeCents == toCent(form.deliveryFeeEur)
      && |ItemsOf(r.store, id)| == |Filter(rows, Described)|
      && (forall j :: 0 <= j < |ItemsOf(r.store, id)| ==>
            ItemsOf(r.store, id)[j] == Snapshot(Positions(rows, toCent)[j]))
  {
    var positions := Positions(rows, toCent);
    if |positions| == 0 then Saved(s1, rows, Failure(NoItems))
    else
      FilterAll(positions, Kept);
      match CreateOrder(s1, customerId, form.eventDate, form.eventTime, form.fulfilment, Some(form.notes),
        toCent(form.discountEur), toCent(form.deliveryFeeEur), Some(positions))
      case Failure(e) => Saved(s1, rows, Failure(e))
      case Success(p) => Saved(p.0, [NewPosition], Success(p.1))
  }

  /**
   * Pressing save: the customer is stored first, in its own transaction, and
   * is not undone when the order step then fails.
   */
  function SaveOrder(s: Store, form: Form, rows: seq<EditorItem>, toCent: real -> int): (r: Saved)
    ensures var (s1, customerId) := SaveCustomer(s, form);
      && r == PlaceOrder(s1, customerId, form, rows, toCent)
      && (r.outcome.Failure? ==> r.store == s1)
      && (r.outcome.Success? ==> r.store.orders[r.outcome.value].customerId == customerId)
  {
    var (s1, customerId) := SaveCustomer(s, form);
    PlaceOrder(s1, customerId, form, rows, toCent)
  }

  /** Normalising a name twice is normalising it once: the form's own `strip() or "Unbekannt"` does no harm. */
  lemma CustomerNameIdempotent(name: string)
    ensures CustomerName(CustomerName(name)) == CustomerName(name)
  {
    if IsBlank(name) {
      assert IsWord(UnknownName) by {
        assert UnknownName == ['U', 'n', 'b', 'e', 'k', 'a', 'n', 'n', 't'];
      }
      StripWord(UnknownName);
    } else {
      StripNonBlank(name);
    }
  }

  /** The amount the stored order charges for a row: `create_order` turns a zero quantity into one. */
  function SavedLine(it: EditorItem, toCent: real -> int, lineGross: (real, int) -> int): int {
    lineGross(if it.quantity == 0.0 then 1.0 else it.quantity, toCent(it.unitPriceEur))
  }

  function SavedLineOf(toCent: real -> int, lineGross: (real, int) -> int): EditorItem -> int {
    it => SavedLine(it, toCent, lineGross)
  }

  /** The gross total of a saved order: every described row at its stored quantity, plus the fee, minus the discount. */
  lemma SavedGrossTotal(
    s: Store, form: Form, rows: seq<EditorItem>, toCent: real -> int, lineGross: (real, int) -> int, netPart: Totals.NetPart)
    requires SaveOrder(s, form, rows, toCent).outcome.Success?
    ensures var r := SaveOrder(s, form, rows, toCent);
      var t := OrderTotals(r.store, r.outcome.value, lineGross, netPart);
      && t.Success?
      && t.value.grossTotal ==
           SumOf(Filter(rows, Described), SavedLineOf(toCent, lineGross)) + toCent(form.deliveryFeeEur) - toCent(form.discountEur)
  {
    var r := SaveOrder(s, form, rows, toCent);
    assert r.outcome.Success?;
    StoredLinesSum(rows, ItemsOf(r.store, r.outcome.value), toCent, lineGross);
  }

  /** The stored snapshots of the described rows add up to the rows' amounts at their stored quantities. */
  lemma StoredLinesSum(rows: seq<EditorItem>, items: seq<OrderItem>, toCent: real -> int, lineGross: (real, int) -> int)
    requires |items| == |Positions(rows, toCent)|
    requires forall j :: 0 <= j < |items| ==> items[j] == Snapshot(Positions(rows, toCent)[j])
    ensures SumOf(OrderLines(items, lineGross), Totals.LineGross)
      == SumOf(Filter(rows, Described), SavedLineOf(toCent, lineGross))
  {
    var positions := Positions(rows, toCent);
    var described := Filter(rows, Described);
    var lines := OrderLines(items, lineGross);
    forall j | 0 <= j < |lines|
      ensures Totals.LineGross(lines[j]) == SavedLineOf(toCent, lineGross)(described[j])
    {
      assert positions[j] == ToPosition(described[j], toCent);
    }
    SumOfPointwise(lines, described, Totals.LineGross, SavedLineOf(toCent, lineGross));
  }

  /**
   * When no described row has quantity zero, the previewed total is exactly
   * the gross total of the order that saving stores.
   */
  lemma PreviewMatchesSavedTotal(
    s: Store, form: Form, rows: seq<EditorItem>, toCent: real -> int, lineGross: (real, int) -> int, netPart: Totals.NetPart)
    requires SaveOrder(s, form, rows, toCent).outcome.Success?
    requires forall i :: 0 <= i < |rows| && Described(rows[i]) ==> rows[i].quantity != 0.0
    ensures var r := SaveOrder(s, form, rows, toCent);
      OrderTotals(r.store, r.outcome.value, lineGross, netPart).value.grossTotal
        == Preview(rows, form.deliveryFeeEur, form.discountEur, toCent, lineGross)
  {
    SavedGrossTotal(s, form, rows, toCent, lineGross, netPart);
    SavedRowsArePreviewed(rows, toCent, lineGross);
  }

  /** Without zero quantities among the described rows, the stored amounts are the previewed ones. */
  lemma SavedRowsArePreviewed(rows: seq<EditorItem>, toCent: real -> int, lineGross: (real, int) -> int)
    requires forall i :: 0 <= i < |rows| && Described(rows[i]) ==> rows[i].quantity != 0.0
    ensures SumOf(Filter(rows, Described), SavedLineOf(toCent, lineGross))
      == SumOf(Filter(rows, Described), PreviewLineOf(toCent, lineGross))
  {
    var described := Filter(rows, Described);
    forall j | 0 <= j < |described|
      ensures SavedLineOf(toCent, lineGross)(described[j]) == PreviewLineOf(toCent, lineGross)(described[j])
    {
      assert described[j] in rows;
    }
    SumOfPointwise(described, described, SavedLineOf(toCent, lineGross), PreviewLineOf(toCent, lineGross));
  }
}
