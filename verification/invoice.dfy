/**
 * The data side of `rechnung_pdf_erzeugen` in `invoice_pdf.py`: look the
 * order up, call the assignment when its number is missing or empty, read
 * the order again and gather what the document shows. Drawing the PDF is not
 * modelled.
 */
module Invoice {
  import opened Wrappers
  import opened Store
  import opened Sequencer
  import opened Decimal
  import Totals

  /** What the invoice document is made from. */
  datatype Invoice = Invoice(
    number: string,
    date: Option<string>,
    fileName: string,
    items: seq<OrderItem>,
    totals: Totals.Totals)

  function FileName(number: string): (r: string)
    ensures |r| == |number| + 13
    ensures r[..9] == "Rechnung_" && r[9..9 + |number|] == number && r[9 + |number|..] == ".pdf"
  {
    "Rechnung_" + number + ".pdf"
  }

  /**
   * Prepares invoice `id`. The number step runs only when the order's number
   * is missing or empty, as `GuardedAssignment` describes. Unknown orders
   * fail. A numbered order keeps its number and the store does not change. An
   * order without number gets the counter's value and the counter advances.
   * An order whose number is the empty text keeps it, the counter still
   * advances, and the invoice carries the empty number. The invoice shows the
   * number the order holds afterwards.
   */
  function PrepareInvoice(s: Store, id: int, today: string, lineGross: (real, int) -> int, netPart: Totals.NetPart)
    : (r: Result<(Store, Invoice), Error>)
    ensures id !in s.orders ==> r == Failure(OrderNotFound)
    ensures r.Failure? <==> id !in s.orders || (NeedsNumber(s.orders[id]) && ReadCounter(s.invoiceCounter).None?)
    ensures r.Failure? && id in s.orders ==> r.error == BadInvoiceCounter
    ensures r.Success? ==>
      var (s', inv) := r.value;
      && id in s'.orders
      && s'.orders[id].invoiceNumber == Some(inv.number)
      && s'.orders[id].invoiceDate == inv.date
      && inv.fileName == FileName(inv.number)
      && inv.items == ItemsOf(s, id)
      && OrderTotals(s', id, lineGross, netPart) == Success(inv.totals)
    ensures id in s.orders && !NeedsNumber(s.orders[id]) ==>
      r.Success? && r.value.0 == s && Some(r.value.1.number) == s.orders[id].invoiceNumber
    ensures id in s.orders && s.orders[id].invoiceNumber.None? && r.Success? ==>
      var (s', inv) := r.value;
      var n := ReadCounter(s.invoiceCounter).value;
      && inv.number == IntToDecimal(n)
      && inv.date == Some(today)
      && s' == s.(orders := s.orders[id := s.orders[id].(invoiceNumber := Some(inv.number), invoiceDate := Some(today))],
                  invoiceCounter := Some(IntToDecimal(n + 1)))
    ensures id in s.orders && s.orders[id].invoiceNumber == Some("") && r.Success? ==>
      var (s', inv) := r.value;
      && inv.number == "" && inv.fileName == "Rechnung_.pdf"
      && s' == s.(invoiceCounter := Some(IntToDecimal(ReadCounter(s.invoiceCounter).value + 1)))
  {
    if id !in s.orders then Failure(OrderNotFound)
    else
      match NumberStep(s, id, today)
      case Failure(e) => Failure(e)
      case Success(s') => Success((s', InvoiceOf(s', id, lineGross, netPart)))
  }

  /**
   * `if not order.get("invoice_number"): db.assign_invoice_number(order_id)`:
   * the store after the number step of an existing order.
   */
  function NumberStep(s: Store, id: int, today: string): (r: Result<Store, Error>)
    requires id in s.orders
    ensures r.Failure? <==> NeedsNumber(s.orders[id]) && ReadCounter(s.invoiceCounter).None?
    ensures r.Failure? ==> r.error == BadInvoiceCounter
    ensures !NeedsNumber(s.orders[id]) ==> r == Success(s)
    ensures s.orders[id].invoiceNumber.None? && r.Success? ==>
      var n := ReadCounter(s.invoiceCounter).value;
      r.value == s.(orders := s.orders[id := s.orders[id].(invoiceNumber := Some(IntToDecimal(n)), invoiceDate := Some(today))],
                    invoiceCounter := Some(IntToDecimal(n + 1)))
    ensures s.orders[id].invoiceNumber == Some("") && r.Success? ==>
      r.value == s.(invoiceCounter := Some(IntToDecimal(ReadCounter(s.invoiceCounter).value + 1)))
    ensures r.Success? ==> id in r.value.orders && r.value.orders[id].invoiceNumber.Some? && r.value.items == s.items
  {
    if !NeedsNumber(s.orders[id]) then Success(s)
    else
      match AssignInvoiceNumber(s, id, today)
      case Failure(e) => Failure(e)
      case Success(p) =>
        AssignedStore(s, id, today);
        Success(p.0)
  }

  /** The invoice of order `id` as the store holds it after the number step: its number and date, items and totals. */
  function InvoiceOf(s: Store, id: int, lineGross: (real, int) -> int, netPart: Totals.NetPart): (inv: Invoice)
    requires id in s.orders && s.orders[id].invoiceNumber.Some?
    ensures s.orders[id].invoiceNumber == Some(inv.number)
    ensures s.orders[id].invoiceDate == inv.date
    ensures inv.fileName == FileName(inv.number)
    ensures inv.items == ItemsOf(s, id)
    ensures OrderTotals(s, id, lineGross, netPart) == Success(inv.totals)
  {
    var o := s.orders[id];
    var number := o.invoiceNumber.value;
    Invoice(number, o.invoiceDate, FileName(number), ItemsOf(s, id), OrderTotals(s, id, lineGross, netPart).value)
  }

  /**
   * Preparing the same invoice twice gives the same invoice and leaves the
   * store as the first call left it, unless the number is the empty text.
   */
  lemma PrepareInvoiceIdempotent(
    s: Store, id: int, today1: string, today2: string, lineGross: (real, int) -> int, netPart: Totals.NetPart)
    requires PrepareInvoice(s, id, today1, lineGross, netPart).Success?
    requires s.orders[id].invoiceNumber != Some("")
    ensures var (s1, inv) := PrepareInvoice(s, id, today1, lineGross, netPart).value;
      PrepareInvoice(s1, id, today2, lineGross, netPart) == Success((s1, inv))
  {
    var (s1, inv) := PrepareInvoice(s, id, today1, lineGross, netPart).value;
    assert s1.orders[id].invoiceNumber == Some(inv.number);
    if s.orders[id].invoiceNumber.None? {
      assert inv.number == IntToDecimal(ReadCounter(s.invoiceCounter).value);
    }
    assert inv.number != "";
    assert !NeedsNumber(s1.orders[id]);
  }

  /** For an order numbered with the empty text, every preparation uses up a counter value and names the file `Rechnung_.pdf`. */
  lemma EmptyNumberInvoice(
    s: Store, id: int, today: string, lineGross: (real, int) -> int, netPart: Totals.NetPart)
    requires id in s.orders && s.orders[id].invoiceNumber == Some("")
    requires ReadCounter(s.invoiceCounter).Some?
    ensures var r := PrepareInvoice(s, id, today, lineGross, netPart);
      && r.Success?
      && r.value.1.fileName == "Rechnung_.pdf"
      && r.value.0.orders == s.orders
      && ReadCounter(r.value.0.invoiceCounter) == Some(ReadCounter(s.invoiceCounter).value + 1)
  {
    EmptyNumberConsumesCounter(s, id, today);
  }

  /** Preparing an invoice keeps invoice numbers unique. */
  lemma PrepareInvoicePreservesNumbering(
    s: Store, id: int, today: string, lineGross: (real, int) -> int, netPart: Totals.NetPart)
    requires NumberingValid(s)
    ensures var r := PrepareInvoice(s, id, today, lineGross, netPart);
      r.Success? ==> NumberingValid(r.value.0)
  {
    if id in s.orders {
      GuardedAssignmentPreservesNumbering(s, id, today);
    }
  }
}
