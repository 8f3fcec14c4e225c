/**
 * Sequential invoice numbers (`assign_invoice_number` in `db.py`). The
 * counter lives as text in the settings row `next_invoice_number`; a missing
 * row reads as 1001. The number is written only into an order that has none,
 * but the counter advances on every call.
 */
module Sequencer {
  import opened Wrappers
  import opened Decimal
  import opened Store

  const FirstInvoiceNumber := 1001

  /** The counter value: 1001 when the settings row is missing, `int(value)` otherwise. */
  function ReadCounter(counter: Option<string>): (r: Option<int>)
    ensures counter.None? ==> r == Some(FirstInvoiceNumber)
    ensures counter.Some? ==> r == ParseInt(counter.value)
  {
    match counter
    case None => Some(FirstInvoiceNumber)
    case Some(text) => ParseInt(text)
  }

  /**
   * `assign_invoice_number` as written: reads the counter `n`, writes `str(n)`
   * and `today` into order `id` if it has no number yet, stores `str(n + 1)` as
   * the new counter and returns `str(n)`, whether or not it was written.
   */
  function AssignInvoiceNumber(s: Store, id: int, today: string): (r: Result<(Store, string), Error>)
    ensures r.Failure? <==> ReadCounter(s.invoiceCounter).None?
    ensures r.Failure? ==> r.error == BadInvoiceCounter
    ensures r.Success? ==>
      var (s', number) := r.value;
      var n := ReadCounter(s.invoiceCounter).value;
      && number == IntToDecimal(n)
      && s'.invoiceCounter == Some(IntToDecimal(n + 1))
      && ParseInt(number) == Some(n)
      && ReadCounter(s'.invoiceCounter) == Some(n + 1)
      && s'.(orders := s.orders, invoiceCounter := s.invoiceCounter) == s
      && s'.orders.Keys == s.orders.Keys
      && (forall k :: k in s.orders && k != id ==> s'.orders[k] == s.orders[k])
      && (id in s.orders && s.orders[id].invoiceNumber.None? ==>
            s'.orders[id] == s.orders[id].(invoiceNumber := Some(number), invoiceDate := Some(today)))
      && (id in s.orders && s.orders[id].invoiceNumber.Some? ==> s'.orders[id] == s.orders[id])
  {
    match ReadCounter(s.invoiceCounter)
    case None => Failure(BadInvoiceCounter)
    case Some(n) =>
      var number := IntToDecimal(n);
      var orders :=
        if id in s.orders && s.orders[id].invoiceNumber.None? then
          s.orders[id := s.orders[id].(invoiceNumber := Some(number), invoiceDate := Some(today))]
        else s.orders;
      ParseIntToDecimal(n);
      ParseIntToDecimal(n + 1);
      Success((s.(orders := orders, invoiceCounter := Some(IntToDecimal(n + 1))), number))
  }

  /** The store after an assignment to an existing order, in one piece. */
  lemma AssignedStore(s: Store, id: int, today: string)
    requires id in s.orders && ReadCounter(s.invoiceCounter).Some?
    ensures var n := ReadCounter(s.invoiceCounter).value;
      var o := s.orders[id];
      AssignInvoiceNumber(s, id, today) == Success((
        s.(orders := if o.invoiceNumber.None? then s.orders[id := o.(invoiceNumber := Some(IntToDecimal(n)), invoiceDate := Some(today))] else s.orders,
           invoiceCounter := Some(IntToDecimal(n + 1))),
        IntToDecimal(n)))
  {
  }

  /**
   * The invoice numbering invariant: the counter is readable, every assigned
   * number is a decimal below it, and no two orders share a number.
   */
  predicate NumberingValid(s: Store) {
    && ReadCounter(s.invoiceCounter).Some?
    && (forall k :: k in s.orders && s.orders[k].invoiceNumber.Some? ==>
          && ParseInt(s.orders[k].invoiceNumber.value).Some?
          && ParseInt(s.orders[k].invoiceNumber.value).value < ReadCounter(s.invoiceCounter).value)
    && (forall k1, k2 :: k1 in s.orders && k2 in s.orders && k1 != k2 && s.orders[k1].invoiceNumber.Some? ==>
          s.orders[k1].invoiceNumber != s.orders[k2].invoiceNumber)
  }

  lemma EmptyNumberingValid()
    ensures NumberingValid(Empty)
  {
  }

  /** Assigning a number keeps numbers unique and below the counter. */
  lemma AssignPreservesNumbering(s: Store, id: int, today: string)
    requires NumberingValid(s)
    ensures AssignInvoiceNumber(s, id, today).Success?
    ensures NumberingValid(AssignInvoiceNumber(s, id, today).value.0)
  {
    var (s', number) := AssignInvoiceNumber(s, id, today).value;
    var n := ReadCounter(s.invoiceCounter).value;
    if id in s.orders && s.orders[id].invoiceNumber.None? {
      assert s'.orders == s.orders[id := s.orders[id].(invoiceNumber := Some(number), invoiceDate := Some(today))];
      forall k | k in s.orders && k != id && s.orders[k].invoiceNumber.Some?
        ensures s.orders[k].invoiceNumber != Some(number)
      {
        assert ParseInt(s.orders[k].invoiceNumber.value).value < n;
      }
    } else {
      assert s'.orders == s.orders;
    }
  }

  /** Two assignments in a row hand out consecutive numbers. */
  lemma ConsecutiveNumbers(s: Store, id1: int, id2: int, today1: string, today2: string)
    requires ReadCounter(s.invoiceCounter).Some?
    ensures var r1 := AssignInvoiceNumber(s, id1, today1);
      && r1.Success?
      && var r2 := AssignInvoiceNumber(r1.value.0, id2, today2);
      && r2.Success?
      && ParseInt(r2.value.1).value == ParseInt(r1.value.1).value + 1
  {
  }

  /** A number once written into an order is never replaced by a later assignment. */
  lemma NeverRenumbers(s: Store, id: int, k: int, today: string)
    requires k in s.orders && s.orders[k].invoiceNumber.Some?
    requires AssignInvoiceNumber(s, id, today).Success?
    ensures AssignInvoiceNumber(s, id, today).value.0.orders[k] == s.orders[k]
  {
  }

  /**
   * Calling the function for an order that already has a number returns a
   * fresh number that is not the order's, and still consumes it.
   */
  lemma RenumberingConsumesANumber(s: Store, id: int, today: string)
    requires NumberingValid(s)
    requires id in s.orders && s.orders[id].invoiceNumber.Some?
    ensures var r := AssignInvoiceNumber(s, id, today);
      && r.Success?
      && r.value.0.orders[id].invoiceNumber == s.orders[id].invoiceNumber
      && Some(r.value.1) != s.orders[id].invoiceNumber
      && ReadCounter(r.value.0.invoiceCounter).value == ReadCounter(s.invoiceCounter).value + 1
  {
  }

  /** `not order.get("invoice_number")`: the number is missing or the empty text. */
  predicate NeedsNumber(o: Order) {
    o.invoiceNumber.None? || o.invoiceNumber.value == ""
  }

  /**
   * What both callers of `assign_invoice_number` do: call it only when the
   * order's number is missing or empty. An empty number passes this test but
   * not the `IS NULL` of the update, so it stays empty while the counter
   * still advances.
   */
  function GuardedAssignment(s: Store, id: int, today: string): (r: Result<(Store, string), Error>)
    ensures id in s.orders && !NeedsNumber(s.orders[id]) ==> r == Success((s, s.orders[id].invoiceNumber.value))
    ensures !(id in s.orders && !NeedsNumber(s.orders[id])) ==> r == AssignInvoiceNumber(s, id, today)
    ensures r.Success? ==> r.value.0.orders.Keys == s.orders.Keys
    ensures r.Success? && id in s.orders && s.orders[id].invoiceNumber != Some("") ==>
      r.value.0.orders[id].invoiceNumber == Some(r.value.1)
    ensures r.Success? && id in s.orders && s.orders[id].invoiceNumber == Some("") ==>
      r.value.0.orders[id] == s.orders[id] && r.value.1 != ""
  {
    if id in s.orders && !NeedsNumber(s.orders[id]) then Success((s, s.orders[id].invoiceNumber.value))
    else AssignInvoiceNumber(s, id, today)
  }

  /**
   * Behind the guard an order is numbered once: asking again gives the same
   * number and changes nothing. This needs a number other than the empty text.
   */
  lemma GuardedAssignmentIdempotent(s: Store, id: int, today1: string, today2: string)
    requires id in s.orders && s.orders[id].invoiceNumber != Some("")
    requires GuardedAssignment(s, id, today1).Success?
    ensures var (s1, number) := GuardedAssignment(s, id, today1).value;
      GuardedAssignment(s1, id, today2) == Success((s1, number))
  {
    var (s1, number) := GuardedAssignment(s, id, today1).value;
    if NeedsNumber(s.orders[id]) {
      var n := ReadCounter(s.invoiceCounter).value;
      assert number == IntToDecimal(n);
      assert s1.orders[id].invoiceNumber == Some(number);
      assert number != "";
    }
  }

  /** An order whose number is the empty text passes the guard every time, and every time a counter value is used up. */
  lemma EmptyNumberConsumesCounter(s: Store, id: int, today: string)
    requires id in s.orders && s.orders[id].invoiceNumber == Some("")
    requires ReadCounter(s.invoiceCounter).Some?
    ensures var r := GuardedAssignment(s, id, today);
      && r.Success?
      && r.value.0.orders == s.orders
      && ReadCounter(r.value.0.invoiceCounter) == Some(ReadCounter(s.invoiceCounter).value + 1)
  {
    var (s1, _) := GuardedAssignment(s, id, today).value;
    assert s1.orders == s.orders;
  }

  /** The guarded assignment keeps numbers unique and below the counter. */
  lemma GuardedAssignmentPreservesNumbering(s: Store, id: int, today: string)
    requires NumberingValid(s)
    ensures GuardedAssignment(s, id, today).Success?
    ensures NumberingValid(GuardedAssignment(s, id, today).value.0)
  {
    if !(id in s.orders && !NeedsNumber(s.orders[id])) {
      AssignPreservesNumbering(s, id, today);
    }
  }

  /** Upserting a customer does not touch invoice numbers. */
  lemma UpsertPreservesNumbering(s: Store, name: string, phone: Option<string>, address: Option<string>)
    requires NumberingValid(s)
    ensures NumberingValid(UpsertCustomer(s, name, phone, address).0)
  {
  }

  /** Changing the payment method does not touch invoice numbers. */
  lemma SetPaymentPreservesNumbering(s: Store, id: int, payment: Option<string>)
    requires NumberingValid(s)
    ensures NumberingValid(SetPaymentMethod(s, id, payment))
  {
  }

  /** Changing the status does not touch invoice numbers. */
  lemma UpdateStatusPreservesNumbering(s: Store, id: int, status: string)
    requires NumberingValid(s)
    ensures UpdateStatus(s, id, status).Success? ==> NumberingValid(UpdateStatus(s, id, status).value)
  {
  }

  /** A new order starts without invoice number, so creating one keeps the numbering valid. */
  lemma CreateOrderPreservesNumbering(
    s: Store, customerId: Option<int>, eventDate: string, eventTime: string, fulfilment: string,
    notes: Option<string>, discountCents: int, deliveryFeeCents: int, items: Option<seq<ItemInput>>)
    requires NumberingValid(s)
    ensures var r := CreateOrder(s, customerId, eventDate, eventTime, fulfilment, notes, discountCents, deliveryFeeCents, items);
      r.Success? ==> NumberingValid(r.value.0)
  {
    var r := CreateOrder(s, customerId, eventDate, eventTime, fulfilment, notes, discountCents, deliveryFeeCents, items);
    if r.Success? {
      var (s', id) := r.value;
      AddUnnumberedKeepsNumbering(s, s', id);
    }
  }

  /** Adding or replacing one order by an order without invoice number keeps the numbering valid. */
  lemma AddUnnumberedKeepsNumbering(s: Store, s': Store, id: int)
    requires NumberingValid(s)
    requires s'.invoiceCounter == s.invoiceCounter
    requires id in s'.orders && s'.orders[id].invoiceNumber.None?
    requires s'.orders == s.orders[id := s'.orders[id]]
    ensures NumberingValid(s')
  {
  }
}
