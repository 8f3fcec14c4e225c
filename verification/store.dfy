/**
 * The order store of `db.py` as an immutable state: customers, orders, the
 * item snapshots of each order and the invoice counter of the settings table.
 * Every operation is one transaction: it returns the new state on success, and
 * on failure the caller keeps the old one (the rollback).
 */
module Store {
  import opened Wrappers
  import opened Text
  import opened Seqs
  import Totals

  datatype Fulfilment = Pickup | Delivery
  datatype Status = Open | Paid

  datatype Customer = Customer(name: string, phone: Option<string>, address: Option<string>)

  datatype Order = Order(
    customerId: Option<int>,
    eventDate: string,
    eventTime: string,
    fulfilment: Fulfilment,
    notes: Option<string>,
    discountCents: int,
    deliveryFeeCents: int,
    status: Status,
    paymentMethod: Option<string>,
    invoiceNumber: Option<string>,
    invoiceDate: Option<string>)

  /** A stored order line: a snapshot of text, quantity, unit, unit price and VAT rate (percent). */
  datatype OrderItem = OrderItem(
    productId: Option<int>,
    description: string,
    quantity: real,
    unit: string,
    unitPriceCents: int,
    vatRate: int)

  /**
   * The database. Customer `k` is `customers[k - 1]` (customers are never
   * deleted, so row ids are positions); `items[id]` are the lines of order `id`
   * in row-id order; `invoiceCounter` is the text of the settings row
   * `next_invoice_number`, `None` while that row does not exist.
   */
  datatype Store = Store(
    customers: seq<Customer>,
    orders: map<int, Order>,
    items: map<int, seq<OrderItem>>,
    nextOrderId: int,
    invoiceCounter: Option<string>)

  datatype Error =
    | InvalidFulfilment
    | NoItems
    | MissingUnitPrice
    | InvalidStatus
    | OrderNotFound
    | BadInvoiceCounter

  const UnknownName := "Unbekannt"
  const DefaultUnit := "Stk"
  const DefaultVatRate := 19

  /** The freshly initialised database. */
  const Empty := Store([], map[], map[], 1, None)

  /** No two customers share a phone number. */
  predicate PhonesUnique(cs: seq<Customer>) {
    forall i, j :: 0 <= i < j < |cs| && cs[i].phone.Some? ==> cs[i].phone != cs[j].phone
  }

  /** The store's structural invariant: order ids are below the next id, every order has its item list, phones are unique. */
  predicate Valid(s: Store) {
    && s.nextOrderId > 0
    && (forall id :: id in s.orders ==> 0 < id < s.nextOrderId)
    && s.orders.Keys == s.items.Keys
    && PhonesUnique(s.customers)
  }

  lemma EmptyValid()
    ensures Valid(Empty)
  {
  }

  // ---------------------------------------------------------------------------
  // Customers
  // ---------------------------------------------------------------------------

  /** `(value or "").strip() or None`: the stripped text, or `None` when missing or blank. */
  function Normalize(value: Option<string>): (r: Option<string>)
    ensures r.None? <==> IsBlank(value.GetOr(""))
    ensures r.Some? ==> r.value == Strip(value.value) && !IsBlank(r.value)
  {
    var t := Strip(value.GetOr(""));
    if t == "" then None else Some(t)
  }

  /** `(name or "").strip() or "Unbekannt"`: a customer name is never blank. */
  function CustomerName(name: string): (r: string)
    ensures !IsBlank(r)
    ensures IsBlank(name) ==> r == UnknownName
    ensures !IsBlank(name) ==> r == Strip(name)
  {
    var t := Strip(name);
    if t == "" then
      assert UnknownName[0] == 'U';
      UnknownName
    else t
  }

  /** Position of the first customer with phone `phone`, or `|cs|` when there is none. */
  function FindByPhone(cs: seq<Customer>, phone: string): (k: nat)
    ensures k <= |cs|
    ensures k < |cs| ==> cs[k].phone == Some(phone)
    ensures forall j :: 0 <= j < k ==> cs[j].phone != Some(phone)
  {
    if |cs| == 0 then 0
    else if cs[0].phone == Some(phone) then 0
    else 1 + FindByPhone(cs[1..], phone)
  }

  predicate HasPhone(cs: seq<Customer>, phone: string) {
    exists k :: 0 <= k < |cs| && cs[k].phone == Some(phone)
  }

  /** The customer row `upsert_customer` writes: normalised name, phone and address. */
  function NormalizedCustomer(name: string, phone: Option<string>, address: Option<string>): Customer {
    Customer(CustomerName(name), Normalize(phone), Normalize(address))
  }

  /**
   * The table step of `upsert_customer`: when `c` has a phone that belongs to
   * a customer, that row is replaced by `c` and keeps its id; otherwise `c` is
   * appended under the next id.
   */
  function UpsertRow(cs: seq<Customer>, c: Customer): (r: (seq<Customer>, int))
    ensures 1 <= r.1 <= |r.0| && r.0[r.1 - 1] == c
    ensures c.phone.Some? && HasPhone(cs, c.phone.value) ==>
      && |r.0| == |cs|
      && cs[r.1 - 1].phone == c.phone
      && (forall j :: 0 <= j < |cs| && j != r.1 - 1 ==> r.0[j] == cs[j])
    ensures !(c.phone.Some? && HasPhone(cs, c.phone.value)) ==> r.0 == cs + [c]
  {
    var k := if c.phone.Some? then FindByPhone(cs, c.phone.value) else |cs|;
    if k < |cs| then (cs[k := c], k + 1) else (cs + [c], |cs| + 1)
  }

  /** Replacing or appending as `UpsertRow` does never creates a second customer with the same phone. */
  lemma UpsertRowKeepsPhonesUnique(cs: seq<Customer>, c: Customer)
    requires PhonesUnique(cs)
    ensures PhonesUnique(UpsertRow(cs, c).0)
  {
    var r := UpsertRow(cs, c);
    var cs' := r.0;
    forall i, j | 0 <= i < j < |cs'| && cs'[i].phone.Some? ensures cs'[i].phone != cs'[j].phone {
      if c.phone.Some? && HasPhone(cs, c.phone.value) {
        var k := r.1 - 1;
        if i != k && j != k {
          assert cs'[i] == cs[i] && cs'[j] == cs[j];
        } else if i == k {
          assert cs'[j] == cs[j];
        } else {
          assert cs'[i] == cs[i];
        }
      } else if j == |cs| {
        assert cs'[i] == cs[i];
        if c.phone.Some? {
          assert !HasPhone(cs, c.phone.value);
        }
      } else {
        assert cs'[i] == cs[i] && cs'[j] == cs[j];
      }
    }
  }

  /**
   * `upsert_customer`: name, phone and address are normalised; when the phone
   * is given and belongs to a customer, that row's name and address are
   * replaced and its id returned; otherwise a new row is appended. Only the
   * customer table changes.
   */
  function UpsertCustomer(s: Store, name: string, phone: Option<string>, address: Option<string>): (r: (Store, int))
    ensures r.0.(customers := s.customers) == s
    ensures (r.0.customers, r.1) == UpsertRow(s.customers, NormalizedCustomer(name, phone, address))
  {
    var (cs, id) := UpsertRow(s.customers, NormalizedCustomer(name, phone, address));
    (s.(customers := cs), id)
  }

  /** Upserting keeps phone numbers unique, and leaves the rest of the store valid. */
  lemma UpsertPreservesValid(s: Store, name: string, phone: Option<string>, address: Option<string>)
    requires Valid(s)
    ensures Valid(UpsertCustomer(s, name, phone, address).0)
  {
    UpsertRowKeepsPhonesUnique(s.customers, NormalizedCustomer(name, phone, address));
  }

  /** Upserting twice with the same (non-blank) phone updates the first row instead of creating a duplicate. */
  lemma UpsertSamePhoneTwice(s: Store, name1: string, name2: string, phone: string, address1: Option<string>, address2: Option<string>)
    requires !IsBlank(phone)
    ensures var (s1, id1) := UpsertCustomer(s, name1, Some(phone), address1);
      var (s2, id2) := UpsertCustomer(s1, name2, Some(phone), address2);
      && id2 == id1
      && |s2.customers| == |s1.customers|
      && s2.customers[id2 - 1] == NormalizedCustomer(name2, Some(phone), address2)
  {
    var c1 := NormalizedCustomer(name1, Some(phone), address1);
    var c2 := NormalizedCustomer(name2, Some(phone), address2);
    assert c1.phone.Some? && c2.phone == c1.phone;
    UpsertRowSamePhoneTwice(s.customers, c1, c2);
    var (s1, id1) := UpsertCustomer(s, name1, Some(phone), address1);
    assert (s1.customers, id1) == UpsertRow(s.customers, c1);
    var (s2, id2) := UpsertCustomer(s1, name2, Some(phone), address2);
    assert (s2.customers, id2) == UpsertRow(s1.customers, c2);
  }

  /** A second row with the same phone lands on the row the first one went to. */
  lemma UpsertRowSamePhoneTwice(cs: seq<Customer>, c1: Customer, c2: Customer)
    requires c1.phone.Some? && c2.phone == c1.phone
    ensures var (cs1, id1) := UpsertRow(cs, c1);
      var (cs2, id2) := UpsertRow(cs1, c2);
      id2 == id1 && |cs2| == |cs1| && cs2[id2 - 1] == c2
  {
    var (cs1, id1) := UpsertRow(cs, c1);
    assert HasPhone(cs1, c1.phone.value) by {
      assert cs1[id1 - 1].phone == c1.phone;
    }
  }

  /** Without a phone every upsert appends a new customer. */
  lemma UpsertWithoutPhoneInserts(s: Store, name: string, phone: Option<string>, address: Option<string>)
    requires IsBlank(phone.GetOr(""))
    ensures UpsertCustomer(s, name, phone, address).1 == |s.customers| + 1
    ensures |UpsertCustomer(s, name, phone, address).0.customers| == |s.customers| + 1
  {
  }

  // ---------------------------------------------------------------------------
  // Orders
  // ---------------------------------------------------------------------------

  /**
   * One element of the `items` argument of `create_order`. `None` stands for a
   * missing key (and, for `productId` and `quantity`, also for a falsy value).
   */
  datatype ItemInput = ItemInput(
    productId: Option<int>,
    description: Option<string>,
    quantity: Option<real>,
    unit: Option<string>,
    unitPriceCents: Option<int>,
    vatRate: Option<int>)

  /** `it.get("description", "").strip()` is truthy: the item is stored. */
  predicate Kept(it: ItemInput) {
    !IsBlank(it.description.GetOr(""))
  }

  /** `(unit or "Stk").strip() or "Stk"`: the stripped unit, `Stk` when missing or blank. */
  function UnitOf(unit: Option<string>): (r: string)
    ensures IsBlank(unit.GetOr("")) ==> r == DefaultUnit
    ensures !IsBlank(unit.GetOr("")) ==> r == Strip(unit.value)
  {
    var u := Strip(unit.GetOr(""));
    if u == "" then DefaultUnit else u
  }

  /** A stored unit is never blank and already stripped. */
  lemma UnitIsClean(unit: Option<string>)
    ensures !IsBlank(UnitOf(unit)) && Strip(UnitOf(unit)) == UnitOf(unit)
  {
    if IsBlank(unit.GetOr("")) {
      DefaultUnitIsClean();
    } else {
      StripNonBlank(unit.value);
    }
  }

  /** The row `create_order` writes for a kept item; `StoredTextIsClean` states what it does to the texts. */
  function Snapshot(it: ItemInput): (r: OrderItem)
    requires it.description.Some? && it.unitPriceCents.Some?
    ensures r.description == Strip(it.description.value)
    ensures r.quantity != 0.0
    ensures it.quantity.None? || it.quantity.value == 0.0 ==> r.quantity == 1.0
    ensures it.quantity.Some? && it.quantity.value != 0.0 ==> r.quantity == it.quantity.value
    ensures r.unit == UnitOf(it.unit)
    ensures r.unitPriceCents == it.unitPriceCents.value
    ensures r.vatRate == it.vatRate.GetOr(DefaultVatRate)
    ensures r.productId.Some? ==> r.productId == it.productId && r.productId.value != 0
    ensures it.productId.Some? && it.productId.value != 0 ==> r.productId == it.productId
  {
    OrderItem(
      if it.productId.Some? && it.productId.value != 0 then it.productId else None,
      Strip(it.description.value),
      if it.quantity.None? || it.quantity.value == 0.0 then 1.0 else it.quantity.value,
      UnitOf(it.unit),
      it.unitPriceCents.value,
      it.vatRate.GetOr(DefaultVatRate))
  }

  /**
   * A stored item's description is stripped and never blank, and so is its
   * unit (see `UnitOf`).
   */
  lemma StoredTextIsClean(it: ItemInput)
    requires Kept(it) && it.unitPriceCents.Some?
    ensures it.description.Some?
    ensures var r := Snapshot(it);
      && !IsBlank(r.description) && Strip(r.description) == r.description
      && r.unit == UnitOf(it.unit)
  {
    StripNonBlank(it.description.value);
  }

  lemma DefaultUnitIsClean()
    ensures !IsBlank(DefaultUnit) && Strip(DefaultUnit) == DefaultUnit
  {
    StripWord(DefaultUnit);
  }

  /** Every kept item carries its unit price (otherwise the source raises `KeyError`). */
  predicate AllPriced(kept: seq<ItemInput>) {
    forall i :: 0 <= i < |kept| ==> kept[i].unitPriceCents.Some?
  }

  function Snapshots(kept: seq<ItemInput>): (r: seq<OrderItem>)
    requires forall i :: 0 <= i < |kept| ==> kept[i].description.Some?
    requires AllPriced(kept)
    ensures |r| == |kept|
    ensures forall i :: 0 <= i < |kept| ==> r[i] == Snapshot(kept[i])
  {
    seq(|kept|, i requires 0 <= i < |kept| => Snapshot(kept[i]))
  }

  function FulfilmentOf(name: string): Option<Fulfilment> {
    if name == "pickup" then Some(Pickup)
    else if name == "delivery" then Some(Delivery)
    else None
  }

  /**
   * `create_order`: rejects a fulfilment type other than `pickup`/`delivery`,
   * then an empty item list; stores a new open order and a snapshot of every
   * item whose description is not blank, in input order. A kept item without
   * unit price aborts the whole transaction.
   */
  function CreateOrder(
    s: Store, customerId: Option<int>, eventDate: string, eventTime: string, fulfilment: string,
    notes: Option<string>, discountCents: int, deliveryFeeCents: int, items: Option<seq<ItemInput>>
  ): (r: Result<(Store, int), Error>)
    ensures FulfilmentOf(fulfilment).None? ==> r == Failure(InvalidFulfilment)
    ensures FulfilmentOf(fulfilment).Some? && |items.GetOr([])| == 0 ==> r == Failure(NoItems)
    ensures FulfilmentOf(fulfilment).Some? && |items.GetOr([])| > 0 && !AllPriced(Filter(items.GetOr([]), Kept)) ==>
      r == Failure(MissingUnitPrice)
    ensures r.Success? <==>
      FulfilmentOf(fulfilment).Some? && |items.GetOr([])| > 0 && AllPriced(Filter(items.GetOr([]), Kept))
    ensures r.Success? ==>
      var (s', id) := r.value;
      var kept := Filter(items.GetOr([]), Kept);
      && id == s.nextOrderId
      && id in s'.orders && id in s'.items
      && s'.nextOrderId == id + 1
      && s'.customers == s.customers
      && s'.invoiceCounter == s.invoiceCounter
      && s'.orders == s.orders[id := s'.orders[id]]
      && s'.items == s.items[id := s'.items[id]]
      && s'.orders[id] == Order(customerId, eventDate, eventTime, FulfilmentOf(fulfilment).value,
           Normalize(notes), discountCents, deliveryFeeCents, Open, None, None, None)
      && |s'.items[id]| == |kept|
      && (forall j :: 0 <= j < |kept| ==> s'.items[id][j] == Snapshot(kept[j]))
  {
    var its := items.GetOr([]);
    if FulfilmentOf(fulfilment).None? then Failure(InvalidFulfilment)
    else if |its| == 0 then Failure(NoItems)
    else
      var kept := Filter(its, Kept);
      if !AllPriced(kept) then Failure(MissingUnitPrice)
      else
        var id := s.nextOrderId;
        var order := Order(customerId, eventDate, eventTime, FulfilmentOf(fulfilment).value,
          Normalize(notes), discountCents, deliveryFeeCents, Open, None, None, None);
        var s' := s.(orders := s.orders[id := order], items := s.items[id := Snapshots(kept)], nextOrderId := id + 1);
        Success((s', id))
  }

  /** A created order gets a fresh id, no existing order changes, and the store stays valid. */
  lemma CreateOrderPreservesValid(
    s: Store, customerId: Option<int>, eventDate: string, eventTime: string, fulfilment: string,
    notes: Option<string>, discountCents: int, deliveryFeeCents: int, items: Option<seq<ItemInput>>)
    requires Valid(s)
    ensures var r := CreateOrder(s, customerId, eventDate, eventTime, fulfilment, notes, discountCents, deliveryFeeCents, items);
      r.Success? ==>
        && r.value.1 !in s.orders
        && (forall id :: id in s.orders ==> id in r.value.0.orders && r.value.0.orders[id] == s.orders[id])
        && Valid(r.value.0)
  {
    var r := CreateOrder(s, customerId, eventDate, eventTime, fulfilment, notes, discountCents, deliveryFeeCents, items);
    if r.Success? {
      var (s', id) := r.value;
      AddOrderPreservesValid(s, s', id);
    }
  }

  /** Adding an order under the next id, with its item list, keeps the store valid and every other order. */
  lemma AddOrderPreservesValid(s: Store, s': Store, id: int)
    requires Valid(s)
    requires id == s.nextOrderId && s'.nextOrderId == id + 1
    requires id in s'.orders && id in s'.items
    requires s'.customers == s.customers
    requires s'.orders == s.orders[id := s'.orders[id]]
    requires s'.items == s.items[id := s'.items[id]]
    ensures id !in s.orders
    ensures forall k :: k in s.orders ==> k in s'.orders && s'.orders[k] == s.orders[k]
    ensures Valid(s')
  {
  }

  /**
   * The emptiness check looks at the raw list: items whose descriptions are all
   * blank pass it and produce an order with no stored items.
   */
  lemma BlankItemsGiveEmptyOrder(
    s: Store, customerId: Option<int>, eventDate: string, eventTime: string, fulfilment: string,
    notes: Option<string>, discountCents: int, deliveryFeeCents: int, items: seq<ItemInput>)
    requires FulfilmentOf(fulfilment).Some?
    requires |items| > 0
    requires forall i :: 0 <= i < |items| ==> IsBlank(items[i].description.GetOr(""))
    ensures var r := CreateOrder(s, customerId, eventDate, eventTime, fulfilment, notes, discountCents, deliveryFeeCents, Some(items));
      r.Success? && r.value.0.items[r.value.1] == []
  {
    FilterEmpty(items, Kept);
  }

  /**
   * The stored descriptions are the stripped non-blank input descriptions in
   * input order: storing `a + b` stores the items of `a`, then those of `b`.
   */
  lemma StoredItemsFollowInput(a: seq<ItemInput>, b: seq<ItemInput>)
    requires AllPriced(Filter(a + b, Kept))
    ensures AllPriced(Filter(a, Kept)) && AllPriced(Filter(b, Kept))
    ensures Snapshots(Filter(a + b, Kept)) == Snapshots(Filter(a, Kept)) + Snapshots(Filter(b, Kept))
  {
    FilterAppend(a, b, Kept);
    var fa, fb := Filter(a, Kept), Filter(b, Kept);
    forall i | 0 <= i < |fb| ensures fb[i].unitPriceCents.Some? {
      assert (fa + fb)[|fa| + i] == fb[i];
    }
    forall i | 0 <= i < |fa| ensures fa[i].unitPriceCents.Some? {
      assert (fa + fb)[i] == fa[i];
    }
    KeptAreDescribed(fa + fb);
    SnapshotsAppend(fa, fb);
  }

  lemma KeptAreDescribed(kept: seq<ItemInput>)
    requires forall i :: 0 <= i < |kept| ==> Kept(kept[i])
    ensures forall i :: 0 <= i < |kept| ==> kept[i].description.Some?
  {
  }

  lemma SnapshotsAppend(a: seq<ItemInput>, b: seq<ItemInput>)
    requires forall i :: 0 <= i < |a + b| ==> (a + b)[i].description.Some?
    requires AllPriced(a + b)
    ensures AllPriced(a) && AllPriced(b)
    ensures forall i :: 0 <= i < |a| ==> a[i].description.Some?
    ensures forall i :: 0 <= i < |b| ==> b[i].description.Some?
    ensures Snapshots(a + b) == Snapshots(a) + Snapshots(b)
  {
    forall i | 0 <= i < |a| ensures a[i].description.Some? && a[i].unitPriceCents.Some? {
      assert (a + b)[i] == a[i];
    }
    forall i | 0 <= i < |b| ensures b[i].description.Some? && b[i].unitPriceCents.Some? {
      assert (a + b)[|a| + i] == b[i];
    }
  }

  // ---------------------------------------------------------------------------
  // Status and payment
  // ---------------------------------------------------------------------------

  function StatusOf(name: string): Option<Status> {
    if name == "open" then Some(Open)
    else if name == "paid" then Some(Paid)
    else None
  }

  /**
   * `update_status`: only `open` and `paid` are accepted; the status of order
   * `id` is set and nothing else changes (an unknown id changes nothing).
   */
  function UpdateStatus(s: Store, id: int, newStatus: string): (r: Result<Store, Error>)
    ensures r.Failure? <==> StatusOf(newStatus).None?
    ensures r.Failure? ==> r.error == InvalidStatus
    ensures r.Success? ==>
      && r.value.(orders := s.orders) == s
      && r.value.orders.Keys == s.orders.Keys
      && (forall k :: k in s.orders && k != id ==> r.value.orders[k] == s.orders[k])
      && (id in s.orders ==> r.value.orders[id] == s.orders[id].(status := StatusOf(newStatus).value))
  {
    match StatusOf(newStatus)
    case None => Failure(InvalidStatus)
    case Some(st) =>
      if id in s.orders then Success(s.(orders := s.orders[id := s.orders[id].(status := st)]))
      else Success(s)
  }

  /**
   * `set_payment_method`: stores the method, or `None` for a missing or empty
   * one (`payment_method or None`; a whitespace-only method is kept as is).
   */
  function SetPaymentMethod(s: Store, id: int, pm: Option<string>): (r: Store)
    ensures r.(orders := s.orders) == s
    ensures r.orders.Keys == s.orders.Keys
    ensures forall k :: k in s.orders && k != id ==> r.orders[k] == s.orders[k]
    ensures id in s.orders ==> r.orders[id].(paymentMethod := s.orders[id].paymentMethod) == s.orders[id]
    ensures id in s.orders ==> (r.orders[id].paymentMethod.None? <==> pm.None? || pm.value == "")
    ensures id in s.orders && r.orders[id].paymentMethod.Some? ==> r.orders[id].paymentMethod == pm
  {
    var stored := if pm.None? || pm.value == "" then None else pm;
    if id in s.orders then s.(orders := s.orders[id := s.orders[id].(paymentMethod := stored)])
    else s
  }

  // ---------------------------------------------------------------------------
  // Totals of a stored order
  // ---------------------------------------------------------------------------

  /** The stored lines of order `id`, in row-id order; none when nothing is stored for it. */
  function ItemsOf(s: Store, id: int): seq<OrderItem> {
    if id in s.items then s.items[id] else []
  }

  /** The totals lines of stored items; `lineGross(q, p)` is the source's `int(round(q * p))`. */
  function OrderLines(items: seq<OrderItem>, lineGross: (real, int) -> int): (r: seq<Totals.Line>)
    ensures |r| == |items|
    ensures forall i :: 0 <= i < |items| ==>
      r[i] == Totals.Line(lineGross(items[i].quantity, items[i].unitPriceCents), items[i].vatRate)
  {
    if |items| == 0 then []
    else
      var last := items[|items| - 1];
      OrderLines(items[..|items| - 1], lineGross) + [Totals.Line(lineGross(last.quantity, last.unitPriceCents), last.vatRate)]
  }

  /**
   * `compute_totals(order_id)`: a missing order raises; otherwise the totals of
   * its stored items with the order's own discount and delivery fee.
   */
  function OrderTotals(s: Store, id: int, lineGross: (real, int) -> int, netPart: Totals.NetPart): (r: Result<Totals.Totals, Error>)
    ensures r.Failure? <==> id !in s.orders
    ensures r.Failure? ==> r.error == OrderNotFound
    ensures r.Success? ==>
      && r.value.discount == s.orders[id].discountCents
      && r.value.deliveryFee == s.orders[id].deliveryFeeCents
      && r.value == Totals.ComputeTotals(OrderLines(ItemsOf(s, id), lineGross), s.orders[id].discountCents, s.orders[id].deliveryFeeCents, netPart)
  {
    if id !in s.orders then Failure(OrderNotFound)
    else
      Success(Totals.ComputeTotals(OrderLines(ItemsOf(s, id), lineGross), s.orders[id].discountCents, s.orders[id].deliveryFeeCents, netPart))
  }
}
