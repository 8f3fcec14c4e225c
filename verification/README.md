# Catering orders: a Dafny model of the order core

This project models the core of a small party-service order system. The
system has three parts:

- an SQLite store for customers, orders and order items (`db.py`);
- an invoice generator (`invoice_pdf.py`);
- a Streamlit form for entering orders (`app.py`).

The model covers these pieces:

- **Store** (`store.dfy`): the database as an immutable value.
  - `upsert_customer` normalises name, phone and address. It then updates the customer with that phone, or appends a new one.
  - `create_order` validates the fulfilment type and the item list. It stores a snapshot of every item whose description is not blank, applying the source's defaults: unit `Stk`, VAT 19 %, and quantity 1 for a missing or zero quantity.
  - `update_status` and `set_payment_method` change one order.
  - A failing operation leaves the caller with the old state, which is the transaction rollback.
- **Totals** (`totals.dfy`): `compute_totals` over integer cents.
  - The lines are bucketed per VAT rate, in first-occurrence order.
  - The delivery fee and the discount go into the bucket with the highest rate only.
  - Net, VAT and gross are then summed.
- **Sequencer** (`sequencer.dfy`): `assign_invoice_number`, and the check its two callers make first.
  - A settings counter is stored as text. A missing counter reads as 1001.
  - The number is written into an order only if the order's number is `NULL`, but the counter advances on every call.
  - Both callers (`rechnung_pdf_erzeugen` and the order view of `app.py`) call it only when the order's number is missing or empty. An empty number passes that check but not the `IS NULL` of the update: the order keeps the empty number while a counter value is used up.
- **Invoice** (`invoice.dfy`): the data side of `rechnung_pdf_erzeugen`.
  - It calls the assignment only when the order's number is missing or empty, then reads the order again.
  - It builds the file name `Rechnung_<number>.pdf` from the number the order then holds, and gathers the items and the totals. For an empty number that name is `Rechnung_.pdf`.
- **Wrap** (`wrap.dfy`): `text_umbrechen`, the greedy word wrap of item descriptions.
- **Money** (`money.dfy`): `cent_zu_euro_text`, German euro formatting with a decimal comma.
- **Editor** (`editor.dfy`): the order form of `app.py`.
  - Adding and removing item rows; the editor never goes below one row.
  - The previewed gross total.
  - Saving: a customer upsert, then filtering the rows and creating the order.
- **Supporting modules.**
  - Text (`text.dfy`): Python's `strip`, `split` and `" ".join`, with Python's whitespace set.
  - Decimal (`decimal.dfy`): `str(int)` and a plain `int(str)`.
  - Seqs (`seqs.dfy`): filtering and sums.
  - Wrappers (`wrappers.dfy`): `Option` and `Result`.

Some computations are inputs to the model rather than part of it:

- **Float roundings.** The model takes these as function parameters:
  - `netPart(gross, rate)` stands for `int(round(gross / (1 + vat)))`.
  - `lineGross(quantity, unitPriceCents)` stands for `int(round(quantity * price))`.
  - `toCent(euros)` stands for `euro_zu_cent`.

  Every property holds whatever these functions return.
- **VAT rates** are integer percents (19 rather than `0.19`).
- **The current date** is the parameter `today`.

Saving the form and previewing it agree in one case and differ in another:

- The previewed total equals the stored order's gross total whenever no described row has quantity 0 (`Editor.PreviewMatchesSavedTotal`).
- A described row with quantity 0 adds 0 to the preview. `create_order` stores the same row with quantity 1, so the stored total includes one unit of it (`Editor.SavedGrossTotal`).

## Model

| member | source | states |
|---|---|---|
| Text.Strip | db.py:42-44 | `strip()`: the result is no longer than the input, has no leading or trailing whitespace, and is empty exactly when the input is blank |
| Text.StripIdempotent | db.py:183-185 | stripping an already stripped text changes nothing |
| Text.StripIsSlice | db.py:42-44 | what `strip()` keeps is one contiguous slice of the text, and everything cut off on either side is whitespace |
| Text.Words | invoice_pdf.py:14 | `split()`: every piece is a non-empty run without whitespace, and there are none exactly when the text is blank |
| Text.WordsFirst | invoice_pdf.py:14 | a non-blank text is a blank prefix, its first word, then the end or whitespace, then a rest that splits into the remaining words |
| Text.WordsOfBlankThen | invoice_pdf.py:14 | `split()` skips leading whitespace |
| Text.WordsOfWordThen | invoice_pdf.py:14 | a word followed by the end or by whitespace splits off as the first word (with `WordsOfBlankThen`, the converse of `WordsFirst`) |
| Text.WordsOfJoin | invoice_pdf.py:18-23 | splitting a line joined from words with single spaces gives back exactly those words |
| Text.JoinLength | invoice_pdf.py:18 | `" ".join` of n > 0 strings is their total length plus n - 1 separators long |
| Text.JoinSnoc | invoice_pdf.py:18-20 | joining one more word appends a single space and the word to the joined line |
| Decimal.IntToDecimal | db.py:305 | `str(n)`: a minus sign exactly for negative numbers, then the decimal digits of the absolute value without leading zeros |
| Decimal.ParseInt | db.py:303 | `int(text)`: a number is read only from a non-empty text, and it is the value of the digits after an optional minus sign; every digit string, with or without a leading minus sign, is accepted |
| Decimal.ParseIntToDecimal | db.py:303-305 | reading back `str(n)` with `int()` gives `n` for every integer |
| Decimal.IntToDecimalInjective | db.py:305 | different counter values give different invoice-number texts |
| Money.CentToEuroText | invoice_pdf.py:8-9 | the text has a minus sign exactly for negative amounts, a comma third from the end, and two digits after it whose value is the absolute amount modulo 100; between sign and comma stand the digits of the whole euros without leading zeros |
| Money.EuroTextRoundTrip | app.py:47-49 | the euro text determines the amount: parsing it back gives the original cents |
| Wrap.WrapText | invoice_pdf.py:12-24 | there is at least one line; the lines hold exactly the words of the text, in order, separated by single spaces; a line with two or more words fits the width; only the first line can be empty, and it is empty exactly when the first word is longer than the width; every break is needed, because the next line's first word would not have fitted; the result is `[""]` exactly when the text has no words |
| Wrap.WrapWords | invoice_pdf.py:15-21 | the loop ends with the emitted lines holding the words read so far, each emitted line well wrapped, and the current line within the width unless it is a single word |
| Wrap.WidthTest | invoice_pdf.py:17 | the source's width test `sum(len) + len(cur) + len(w) > max_len` is exactly "the current line plus a space and `w` is longer than the width" |
| Wrap.AdvanceKeepsInv | invoice_pdf.py:15-21 | one turn of the loop, breaking before a word that would overflow and appending it otherwise, keeps every emitted line well wrapped and the words read so far in place |
| Wrap.FinishWrap | invoice_pdf.py:22-24 | emitting the open line and turning no lines into `[""]` yields the full contract of the wrap |
| Totals.ComputeTotals | db.py:331-386 | the buckets have distinct rates, exactly the rates of the lines, and each splits its gross exactly into net plus VAT; net plus VAT equals gross for the totals; discount and fee are echoed; without lines everything is zero; otherwise gross total = sum of line grosses + fee − discount |
| Totals.MaxLineRate | db.py:359 | the target rate is the rate of some line and at least every line's rate |
| Totals.TopRateOfLines | db.py:358-359 | the highest bucket rate is the highest line rate |
| Totals.MaxRate | db.py:359 | `max(by_vat.keys())`: the rate of some bucket, and at least every bucket's rate |
| Totals.AdjustKeepsBuckets | db.py:358-373 | the adjustment keeps the number, rates and order of the buckets and the balance of each, and moves the gross sum by fee minus discount |
| Totals.OneBucketPerRate | db.py:342-353 | there is exactly one bucket per distinct VAT rate of the lines |
| Totals.AccumulateBuckets | db.py:342-353 | after the loop the buckets have distinct rates, exactly the rates of the lines, and each holds exactly the gross and net sums of its own lines, balanced |
| Totals.AddLineRates | db.py:350 | `setdefault` never creates a second bucket for a rate and adds the line's rate to the rates present |
| Totals.AddLineTracks | db.py:346-353 | adding a line to the buckets of the earlier lines gives buckets that hold exactly the sums of all lines at their rate |
| Totals.AccumulateGrossSum | db.py:343-353 | before the adjustment, the bucket grosses add up to the sum of the line grosses |
| Totals.AccumulateNetSum | db.py:343-353 | before the adjustment, the bucket nets add up to the sum of the lines' net parts |
| Totals.AdjustmentOnlyAtTopRate | db.py:358-373 | the top-rate bucket holds its lines' sums plus the fee minus the discount, with net shifted by the net parts of fee and discount; every other bucket holds exactly its lines' sums |
| Totals.NetTotalOfParts | db.py:345-377 | net total = sum of the line net parts + net part of the fee − net part of the discount, at the top rate; VAT total = gross total − net total |
| Totals.WorkedExample | db.py:343-377 | 20.00 at 19 %, fee 5.00, discount 2.00 with round-half-up net parts gives one bucket of gross 23.00, net 19.33 and VAT 3.67 |
| Store.Normalize | db.py:42-43 | a missing or blank value becomes `None`; any other value is stored stripped and is not blank |
| Store.CustomerName | db.py:44 | a stored name is never blank: the stripped name, or `Unbekannt` for a blank one |
| Store.FindByPhone | db.py:47-49 | the lookup finds the first customer with that phone, or reports that none has it |
| Store.UpsertRow | db.py:47-60 | the returned id points at the row holding the new data; with a phone some row has, that row is overwritten in place and all other rows stay; otherwise the row is appended |
| Store.UpsertRowKeepsPhonesUnique | db.py:47-60 | upserting one row into a table with unique phones keeps them unique |
| Store.UpsertRowSamePhoneTwice | db.py:47-54 | a second row with the same phone lands on the row the first one went to, without growing the table |
| Store.UpsertCustomer | db.py:41-60 | only the customer table changes; the returned id names the row that holds the normalised data; a known phone updates that row in place and keeps every other row; otherwise the customer is appended with the next id |
| Store.UpsertPreservesValid | db.py:47-60 | upserting never creates two customers with the same phone |
| Store.UpsertSamePhoneTwice | db.py:47-54 | a second upsert with the same phone returns the same id, adds no row and stores the new name and address, normalised |
| Store.UpsertWithoutPhoneInserts | db.py:56-60 | without a phone every upsert appends a new customer |
| Store.UnitOf | db.py:185 | the unit is the stripped given unit, or `Stk` when none is given or it is blank |
| Store.UnitIsClean | db.py:185 | a stored unit is never blank and is already stripped |
| Store.Snapshot | db.py:180-188 | a stored item has the stripped description; quantity 1 when the given one is missing or zero and the given one otherwise; the unit as `UnitOf` gives it; the given price; the given VAT rate or 19; and the given product id exactly when it is non-zero |
| Store.StoredTextIsClean | db.py:183-185 | a stored description is never blank and is already stripped |
| Store.CreateOrder | db.py:141-193 | an unknown fulfilment type is refused first, then an empty list; it fails exactly when those checks fail or a kept item lacks a price; on success only the new order and its items are added, under the next id; the order is open, has the given fields and normalised notes, and has no payment or invoice; its items are the snapshots of the non-blank items, in input order |
| Store.CreateOrderPreservesValid | db.py:159-170 | a new order gets an id no order had, existing orders are unchanged, and the store stays valid |
| Store.AddOrderPreservesValid | db.py:159-170 | adding an order and its items under the next id, and advancing that id, keeps the store valid |
| Store.BlankItemsGiveEmptyOrder | db.py:151-191 | a non-empty list whose descriptions are all blank passes the check and stores an order without items |
| Store.StoredItemsFollowInput | db.py:179-191 | the stored items of `a + b` are those of `a` followed by those of `b` |
| Store.UpdateStatus | db.py:256-269 | only `open` and `paid` are accepted; only the status of that order changes, and an unknown id changes nothing |
| Store.SetPaymentMethod | db.py:272-282 | only the payment method of that order changes; it is `None` exactly when the method is missing or empty, and the given text otherwise |
| Store.OrderLines | db.py:343-345 | one totals line per stored item, in order, with the item's VAT rate and the rounded quantity × price |
| Store.OrderTotals | db.py:331-340 | an unknown order is an error; otherwise these are the totals of its stored items with its own discount and fee |
| Sequencer.ReadCounter | db.py:293-303 | a missing counter reads as 1001; otherwise it is parsed |
| Sequencer.AssignInvoiceNumber | db.py:289-323 | fails exactly when the counter cannot be read; otherwise it returns `str(n)` for the counter `n` and stores `str(n + 1)`; it writes the number and date only into that order and only if the order has no number; nothing else changes |
| Sequencer.AssignedStore | db.py:303-321 | with a readable counter `n` on a known order, the assignment returns exactly `str(n)` and the store in which only that order (if it had no number) gains `str(n)` and today's date and the counter becomes `str(n + 1)` |
| Sequencer.AssignPreservesNumbering | db.py:305-321 | assigned numbers stay unique and below the counter |
| Sequencer.ConsecutiveNumbers | db.py:317-321 | two assignments in a row hand out consecutive numbers |
| Sequencer.NeverRenumbers | db.py:307-315 | an order that has a number keeps it through any assignment |
| Sequencer.RenumberingConsumesANumber | db.py:305-323 | called for an already numbered order, the function returns a different number, which the order does not get, and still advances the counter |
| Sequencer.GuardedAssignment | invoice_pdf.py:31-32 | an order with a non-empty number is left alone and its number is returned; in every other case the assignment is called as written; an order without number ends up holding the returned number, and an order with the empty number keeps it |
| Sequencer.GuardedAssignmentIdempotent | invoice_pdf.py:31-32 | behind the check, asking again for an order whose number is not the empty text gives the same number and changes nothing |
| Sequencer.EmptyNumberConsumesCounter | invoice_pdf.py:31-32 | an order whose number is the empty text passes the check on every call, keeps the empty number, and every call advances the counter |
| Sequencer.GuardedAssignmentPreservesNumbering | app.py:378-381 | calling the assignment behind the check keeps numbers unique and below the counter |
| Sequencer.UpsertPreservesNumbering | db.py:41-60 | upserting customers leaves the invoice numbering valid |
| Sequencer.SetPaymentPreservesNumbering | db.py:272-282 | setting the payment method leaves the invoice numbering valid |
| Sequencer.UpdateStatusPreservesNumbering | db.py:256-269 | changing the status leaves the invoice numbering valid |
| Sequencer.CreateOrderPreservesNumbering | db.py:141-193 | creating an order leaves the invoice numbering valid |
| Sequencer.AddUnnumberedKeepsNumbering | db.py:159-170 | putting an order without invoice number into the store keeps the numbering valid |
| Invoice.FileName | invoice_pdf.py:41 | the file name is `Rechnung_`, the number, `.pdf` |
| Invoice.PrepareInvoice | invoice_pdf.py:27-41 | an unknown order is an error, and so is an unreadable counter when a number is needed; a numbered order keeps its number and the store is unchanged; for an order without number the store changes only in that order, which gets `str(n)` for the counter `n` and today's date, and in the counter, which becomes `str(n + 1)`; an order with the empty number keeps it, only the counter advances, and the file is `Rechnung_.pdf`; the invoice carries the number and date the order then holds, its items, the totals of those items and the matching file name |
| Invoice.NumberStep | invoice_pdf.py:30-32 | an order that already has a non-empty number leaves the store as it is; otherwise the step fails exactly when the counter is unreadable; for an order without number the new store differs only in that order (number `str(n)`, today's date) and in the counter (`str(n + 1)`); for the empty number only the counter advances; on success the order has a number and the items are unchanged |
| Invoice.InvoiceOf | invoice_pdf.py:33-41 | the invoice of a numbered order carries the order's number and date, its items, the totals of those items and the file name `Rechnung_<number>.pdf` |
| Invoice.PrepareInvoiceIdempotent | invoice_pdf.py:30-33 | for an order whose number is not the empty text, preparing the same invoice again gives the same invoice and changes nothing |
| Invoice.EmptyNumberInvoice | invoice_pdf.py:30-41 | for an order whose number is the empty text, every preparation succeeds with a readable counter, names the file `Rechnung_.pdf`, leaves the orders alone and advances the counter |
| Invoice.PrepareInvoicePreservesNumbering | invoice_pdf.py:30-33 | preparing invoices keeps invoice numbers unique |
| Editor.AddPosition | app.py:137-143 | one more row: the old rows followed by an empty row |
| Editor.RemoveLastPosition | app.py:145-147 | the last row goes when there are two or more; a single row stays |
| Editor.RemoveUndoesAdd | app.py:137-147 | removing the last row undoes adding one |
| Editor.AlwaysOneRow | app.py:129-153 | whatever the buttons do, at least one row remains, and each press adds at most one |
| Editor.PreviewTotal | app.py:195-204 | the preview equals the sum over the described rows of their rounded amounts, plus the fee, minus the discount |
| Seqs.SumKept | app.py:196-201 | the loop that skips some elements and adds a term for the others computes the sum over the kept elements |
| Editor.Positions | app.py:222-231 | one order item per described row, each kept by `create_order` and priced |
| Editor.SaveCustomer | app.py:214-220 | a customer is upserted exactly when a name or a phone is entered |
| Editor.PlaceOrder | app.py:222-253 | without a described row the save fails with "no items"; with a valid fulfilment type and a described row it succeeds; on success the result is the order `create_order` stores from the described rows with the converted fee and discount, so customers, the invoice counter and every other order and its items stay, and the rows reset to one empty row; on failure rows and store stay |
| Editor.SaveOrder | app.py:212-257 | the customer step comes first and is kept even when the order step then fails; the new order carries that customer's id |
| Editor.CustomerNameIdempotent | app.py:217 | normalising the name in the form before the store normalises it again changes nothing |
| Editor.SavedGrossTotal | app.py:236-245 | the saved order's gross total is the sum over the described rows at their stored quantities (zero counted as one), plus the fee, minus the discount |
| Editor.StoredLinesSum | app.py:226-231 | the stored items of the described rows add up to those rows' amounts at their stored quantities |
| Editor.SavedRowsArePreviewed | app.py:199-201 | without zero quantities, the stored amounts are the previewed amounts |
| Editor.PreviewMatchesSavedTotal | app.py:195-204 | without zero quantities among the described rows, the previewed total is the saved order's gross total |

## Left out

- Connections, transactions and schema (`get_conn`, `init_db`, db.py:13-34). Each operation is a pure state transition, and a failure keeps the old state. `schema.sql` is not part of this model. The column default `status = 'open'` for new orders and the `customer_id` foreign key check are therefore assumed rather than modelled.
- `delete_order`, the list and detail queries, and the product catalogue (`create_product`, `list_products`, `set_product_active`). These lie outside the modelled core. The order lookup appears only as `Store.ItemsOf` and the `OrderNotFound` error.
- `updated_at` timestamps and `date.today()`. Time is not modelled; the invoice date is the parameter `today`.
- Float arithmetic. The net part of a gross amount, the line gross and `euro_zu_cent` are parameters. Python's round-half-even on binary floats is not modelled.
- VAT rates are float fractions in the source and integer percents here. Only their order and equality matter to the model.
- Money.CentToEuroText formats the exact amount. The source goes through `cent / 100` as a float. That float is close enough for `.2f` to give the exact cents while the amount is below 2^46 euros (about 7.0·10^15 cents). Above that the cents can come out wrong: 7036874417766401 cents prints as `…,02`, while the model prints `…,01`.
- Sequencer.ReadCounter parses only an optional `-` followed by digits. Python's `int()` also accepts surrounding whitespace, a `+`, underscores between digits, and Unicode decimal digits (`int("١٠٠١")` is 1001). The model's own counter texts are always of the simple form.
- Store.CreateOrder models a missing dictionary key as `None`. This is also what the source does for a present `None` in `product_id` (no product), `quantity` (1.0) and `unit` (`Stk`), db.py:182-185. Not modelled: the cases where the source raises. These are a present `None` in `description`, `unit_price_cents` or `vat_rate`, and a value that does not convert in `product_id`, `quantity`, `unit_price_cents` or `vat_rate` (db.py:182-189).
- Store.UpsertCustomer takes the first customer with the phone, where the source's query has no `ORDER BY`. While phones are unique (`Store.Valid`), this is the only match.
- The PDF layout and drawing (invoice_pdf.py:43-187), the Streamlit widgets, page reruns and messages of `app.py`, and the launcher `catering_manager.py`.
- The rate selector's `vat_values.index` lookup in the editor (app.py:181-190). Rows are assumed to always hold one of the offered rates.
- Invoice.PrepareInvoiceIdempotent: does not cover an order whose number is the empty text, because there the source uses up a counter value on every call (`Invoice.EmptyNumberInvoice` states that case).
- Sequencer.GuardedAssignmentIdempotent: does not cover the empty number either, for the same reason (`Sequencer.EmptyNumberConsumesCounter`).
- `" ".join`, the bucket update of the loop, the loop itself and the fee/discount adjustment (`Text.Join`, `Totals.AddLine`, `Totals.Accumulate`, `Totals.Adjust`) carry no contract of their own. Their rows are the lemmas about them: `WordsOfJoin`, `JoinLength`, `JoinSnoc`, `AddLineRates`, `AddLineTracks`, `AccumulateBuckets`, `AdjustKeepsBuckets`, `AdjustmentOnlyAtTopRate`.
- The order view of `app.py` calls `db.list_orders_for_day` (app.py:272), which `db.py` does not define (it has `list_orders_for_period`, db.py:205). As written, that view raises before it reaches its invoice-number button (app.py:378-381). The model treats that button as a caller of the assignment anyway.
