# mssales sales-order core in Dafny

This project models the sales-order backend of the mssales application (a Django REST
service). It covers:

- the order lifecycle: confirming a draft order reserves stock for every line, and cancelling
  a confirmed order releases that stock;
- the available-quantity arithmetic on products;
- the money arithmetic of lines and orders;
- the field validators and guards of the serializers and viewsets;
- the customer phone and address string functions;
- the report aggregations of the sales, inventory, product and customer views.

The database is an immutable `Store`. It holds the products, the orders with their lines,
and the reservation table as a sequence of rows in insertion order. Every operation is a
pure function.

An operation that the source runs inside `transaction.atomic()` returns a
`Result<Store, LifecycleError>`. `Lifecycle.StateAfter` gives the store a caller sees
afterwards: the new store on success, the input store on any error. That is how the
rollback is modelled.

`Lifecycle.ReserveLines` models the reservation loop of `confirm_order` itself. It returns
the rows written up to the point where the loop stopped, so the model shows partial work
that the rollback then discards.

The consistency invariant is `Lifecycle.Valid`. It requires three things:

- **References and Constraints.** Foreign keys point at existing rows, and the field and
  table constraints hold: non-negative prices and quantities, reservation qty of at least 1,
  one reservation per (order, product), and one line per (order, product).
- **ReservationsMatchStatus.** A confirmed order holds exactly one reservation per line,
  with the line's qty. Every other order holds none.

Confirm, cancel, both cascades and the nested create are proved to keep `Valid`. The line
endpoints are proved to keep it on draft orders. On a confirmed order, the line create as
written breaks it (see "## Findings").

Money is exact rationals (`real`), so `grand_total` is `total · 6/5` with no float rounding.

Modules, by source file:

| module | models |
|---|---|
| `Reservations` | the `Reservation` table |
| `Products` | `Product` |
| `Orders` | `SalesOrder` and `SalesOrderLine`: money, `save` |
| `Lifecycle` | `confirm_order`, `cancel_order` |
| `LifecycleProperties` | their properties |
| `Cascades` | `on_delete=CASCADE` |
| `ProductValidation` | `ProductSerializer` |
| `SalesValidation` | the sales serializers |
| `SalesViews` | the sales viewsets |
| `Customers` | `Customer` and `CustomerSerializer` |
| `CustomerViews` | `CustomerViewSet` |
| `InventoryReports` | `ReservationViewSet` reports |
| `ProductViews` | `ProductViewSet` reports |
| `Seqs` | the order-preserving filter used by the reports |
| `Results` | `Option` and `Result` |

Where the design and the code disagree, the model follows the code:

- **Status changes.** `validate_status` lets a draft become cancelled, but `cancel_order`
  rejects drafts. Both rules are modelled as written:
  `SalesValidation.StatusTableAllowsWhatCancelRejects` states the disagreement, and
  `SalesValidation.StatusUpdateSkipsReservations` shows that writing the status through the
  serializer bypasses the reservations.
- **Line create.** `perform_create` does not check the order's status, and
  `SalesViews.PerformCreate` does not either. `SalesViews.PerformCreateOnConfirmedBreaksMatch`
  shows the consequence: a line added to a confirmed order gets no reservation.
  `SalesViews.PerformCreateDraftOnly` adds the draft guard that `perform_update` and
  `perform_destroy` have.
- **Nested create.** The nested order create runs without a transaction. A repeated product
  stops it with the earlier lines already saved, and `SalesValidation.CreateLines` keeps
  those lines.

As written, the source has these defects outside the modelled logic:

- `mssales/apps/sales/serializers.py` fails at import. At line 66 the order serializer's
  class body refers to `SalesOrderLineSerializer`, which is never defined, so a NameError is
  raised. The same file also uses `SalesOrder` (line 71), which it never imports.
- `mssales/apps/sales/views.py` imports that module (line 15), so it fails at import too.
- The same serializers file names its line serializer `SalesOrderLine` (line 13), which
  shadows the model of the same name.
- The line serializer's `fields` (lines 23-27) do not include `order`, and `perform_create`
  does not supply one. So `serializer.save()` would insert a line without an order, and the
  NOT NULL foreign key would reject every line create.
- `ProductSerializer` lists the fields `activity`, `exception` and `decoration`, which the
  model does not have (`mssales/apps/products/serializers.py:24`). The module imports, but
  every use of the serializer raises ImproperlyConfigured when it builds its fields, for
  example in `low_stock` (`mssales/apps/products/views.py:53`).

The model assumes the evident intent: the serializers are the ones their names say, over the
fields the models declare.

## Model

| member | source | states |
|---|---|---|
| Reservations.DeleteForOrder | mssales/apps/sales/models.py:89-92 | deleting an order's reservations leaves none for it, keeps every other row, and leaves every other order's rows exactly as they were |
| Reservations.DeleteForProduct | mssales/apps/inventory/models.py:16 | the product cascade removes every row on the product, keeps every other row, and leaves every other product's reserved total unchanged |
| Reservations.ReservedTotalNoRows | mssales/apps/products/models.py:63-66 | with no reservation on a product the reserved sum falls back to 0 and the count is 0 |
| Reservations.ReservedTotalAtLeastCount | mssales/apps/inventory/models.py:18 | since every reservation holds at least one unit, a product's reserved total is at least its number of reservations |
| Reservations.ReservedTotalConcat | mssales/apps/products/models.py:63-65 | the reserved sum is additive over any split of the table |
| Reservations.DeleteForOrderReleases | mssales/apps/sales/models.py:92 | deleting an order's rows lowers each product's reserved total by exactly what that order held on it |
| Reservations.HeldByUniqueRow | mssales/apps/inventory/models.py:25 | under the one-row-per-(order, product) constraint, what an order holds on a product is that row's qty |
| Products.AvailableWithoutReservations | mssales/apps/products/models.py:63-66 | with no reservation for the product, available equals on-hand |
| Products.AvailableAtMostOnHand | mssales/apps/products/models.py:57-66 | with valid reservation quantities, available never exceeds on-hand |
| Products.AvailableIgnoresOtherProducts | mssales/apps/products/models.py:63 | a reservation for another product leaves this product's available quantity unchanged |
| Products.ReserveLowersAvailable | mssales/apps/products/models.py:63-66 | adding a reservation of q for the product lowers its available quantity by exactly q |
| Products.ReleaseRestoresAvailable | mssales/apps/products/models.py:63-66 | adding an order's reservation and then deleting that order's rows restores every product's available quantity |
| ProductValidation.ValidateSalesPrice | mssales/apps/products/serializers.py:28-31 | a sales price is accepted iff it is non-negative (0 included), and is returned unchanged |
| ProductValidation.ValidateCost | mssales/apps/products/serializers.py:33-36 | a cost is accepted iff it is non-negative (0 included), and is returned unchanged |
| ProductValidation.ValidateInternalReference | mssales/apps/products/serializers.py:38-45 | a reference is rejected iff another product has it: on update the instance's own row is excluded, on create every row counts |
| ProductValidation.AcceptedReferenceKeepsUnique | mssales/apps/products/models.py:27 | saving a product under an accepted reference, by create or by update, keeps references unique across the table |
| ProductValidation.OwnReferenceAccepted | mssales/apps/products/serializers.py:39-41 | on update, keeping one's own reference is accepted |
| ProductValidation.ExistingReferenceRejectedOnCreate | mssales/apps/products/serializers.py:42-44 | on create, a reference some product already has is rejected |
| Orders.LineTotalBounds | mssales/apps/sales/models.py:121-127 | a valid line's total lies between 0 and qty·unit_price |
| Orders.LineTotalEndpoints | mssales/apps/sales/models.py:126-127 | at discount 0 the line total is qty·unit_price; at discount 100 it is 0 |
| Orders.TotalAmountConcat | mssales/apps/sales/models.py:45-50 | the order total is additive over a split of the lines |
| Orders.TotalAmountNonNegative | mssales/apps/sales/models.py:45-57 | with valid lines the total is never negative and the grand total (exact ×6/5) is at least the total |
| Orders.ComputeTotal | mssales/apps/sales/models.py:50 | summing line totals left to right gives the order total |
| Orders.WorkedExampleTotals | mssales/apps/sales/models.py:45-57 | 2 × 10.00 plus 1 × 5.00 at 50% totals 22.50, and 27.00 with the 20% surcharge |
| Orders.Save | mssales/apps/sales/models.py:36-40 | after save the number is never empty: an existing number is kept, a missing one becomes "SO-" + token, and no other field changes |
| Orders.SaveKeepsNumber | mssales/apps/sales/models.py:36-40 | saving again, with any token, never changes an assigned number |
| Lifecycle.ReserveLines | mssales/apps/sales/models.py:68-77 | the loop only appends rows, all for this order; run to the end, it appends exactly one row per line with the line's product and qty; it stops only on a short product or a duplicate (order, product) |
| Lifecycle.ConfirmOrder | mssales/apps/sales/models.py:59-80 | a missing or non-draft order fails; on success only the order's status changes, to confirmed, and the table gains exactly one reservation per line with the line's qty |
| Lifecycle.ConfirmOrderAsWritten | mssales/apps/sales/models.py:59-68 | as written, confirm never succeeds: a non-draft order gets the ValueError, a draft order fails on the missing `order_lines_all` attribute |
| Lifecycle.CancelOrder | mssales/apps/sales/models.py:82-95 | a missing order or one that is not confirmed, drafts included, fails; on success only the order's status changes, to cancelled, its reservations are gone, and every other order's reservations are untouched |
| LifecycleProperties.ReserveLinesSucceedsIff | mssales/apps/sales/models.py:68-77 | with distinct line products, the loop runs to the end iff every line's product has enough available stock; when it stops, it names a short product |
| LifecycleProperties.ConfirmSucceedsIff | mssales/apps/sales/models.py:59-80 | on a consistent store a draft order confirms iff every line's product has available ≥ qty; a failure is an insufficient-stock error |
| LifecycleProperties.ConfirmShortLineLeavesNothing | mssales/apps/sales/models.py:66-70 | if any line is short, confirm fails, the store is unchanged, the order stays draft, and no reservation of it remains |
| LifecycleProperties.ConfirmEmptyOrder | mssales/apps/sales/models.py:68-80 | a draft order without lines confirms and creates no reservation |
| LifecycleProperties.ConfirmedUnique | mssales/apps/inventory/models.py:25 | the rows confirm adds keep one reservation per (order, product), given distinct line products |
| LifecycleProperties.NoRowsUnlessConfirmed | mssales/apps/sales/models.py:66-95 | on a consistent store an order that is not confirmed holds no reservation |
| LifecycleProperties.DeleteForOrderUnique | mssales/apps/inventory/models.py:25 | deleting an order's rows keeps one reservation per (order, product) |
| LifecycleProperties.ConfirmPreservesValid | mssales/apps/sales/models.py:59-80 | confirm, successful or rolled back, keeps references, constraints and reservations-match-status |
| LifecycleProperties.CancelPreservesValid | mssales/apps/sales/models.py:82-95 | cancel, successful or rolled back, keeps the invariant |
| LifecycleProperties.CancelReleasesStock | mssales/apps/sales/models.py:89-92 | cancelling gives every product back exactly what the order held on it, which for a line's product is the line's qty |
| LifecycleProperties.ConfirmThenCancel | mssales/apps/sales/models.py:59-95 | confirming and then cancelling restores the reservation table exactly and leaves the order cancelled |
| LifecycleProperties.CancelledIsTerminal | mssales/apps/sales/models.py:63-87 | a cancelled order can be neither confirmed nor cancelled again |
| Cascades.DeleteOrder | mssales/apps/inventory/models.py:15 | deleting an order removes it and its reservations and leaves other orders, products and other orders' reservations unchanged |
| Cascades.DeleteProduct | mssales/apps/inventory/models.py:16 | deleting a product removes it, every line on it and every reservation on it, keeps every line on another product and every other order field, and leaves other products' reserved totals unchanged |
| Cascades.DropProductLinesDistinct | mssales/apps/sales/models.py:116 | dropping a product's lines keeps one line per product |
| Cascades.ExpectedDropProduct | mssales/apps/inventory/models.py:15-16 | after the product cascade, a confirmed order's reservations are still exactly those of its remaining lines |
| Cascades.DeleteOrderPreservesValid | mssales/apps/inventory/models.py:15 | the order cascade keeps the invariant |
| Cascades.DeleteProductPreservesValid | mssales/apps/inventory/models.py:16 | the product cascade keeps the invariant |
| SalesValidation.ValidateQty | mssales/apps/sales/serializers.py:30-33 | a qty is accepted iff it is at least 1, and is returned unchanged |
| SalesValidation.ValidateUnitPrice | mssales/apps/sales/serializers.py:35-38 | a unit price is accepted iff it is non-negative, so 0 is accepted |
| SalesValidation.ValidateDiscountPct | mssales/apps/sales/serializers.py:40-43 | a discount is accepted iff it lies in [0, 100], both endpoints included |
| SalesValidation.ValidatedFieldsMakeValidLine | mssales/apps/sales/models.py:102-109 | fields passing the three validators satisfy the line's model constraints |
| SalesValidation.CurrentReserved | mssales/apps/sales/serializers.py:53-55 | the credited quantity is the line's qty only when updating a line of a confirmed order, and 0 otherwise |
| SalesValidation.ValidateAvailability | mssales/apps/sales/serializers.py:45-60 | with a product and a non-zero qty given, the data is rejected iff qty > available + current_reserved, and the error carries that available figure and the requested qty; otherwise the data is returned unchanged |
| SalesValidation.AvailabilityCreditsOwnReservation | mssales/apps/sales/serializers.py:53-58 | for a line of a confirmed order on a consistent store, the re-check accepts iff qty fits the availability counted without this order's reservations |
| SalesValidation.ValidateStatus | mssales/apps/sales/serializers.py:79-91 | with no instance, every status passes; on update, a status passes iff it is unchanged or an allowed step (draft to confirmed or cancelled, confirmed to cancelled), and a refusal says "Cannot change status from <current> to <value>" with the stored status values |
| SalesValidation.LifecycleFollowsStatusTable | mssales/apps/sales/serializers.py:82-86 | every status change confirm or cancel makes is one the table allows |
| SalesValidation.StatusTableAllowsWhatCancelRejects | mssales/apps/sales/serializers.py:83 | the table lets a draft become cancelled while cancel_order rejects that draft |
| SalesValidation.UpdateStatus | mssales/apps/sales/serializers.py:79-91 | a status write succeeds iff the table allows it and changes only that order's status |
| SalesValidation.StatusUpdateSkipsReservations | mssales/apps/sales/serializers.py:79-91 | writing confirmed on a draft order with lines is accepted, and leaves a confirmed order without reservations |
| SalesValidation.LineFrom | mssales/apps/sales/serializers.py:108-112 | a nested line copies product and qty; a missing price becomes the product's sales price, a missing discount 0, and given values are kept |
| SalesValidation.CreateLines | mssales/apps/sales/serializers.py:108-112 | the loop only adds lines, and when it completes it has added one line per input, in order |
| SalesValidation.CreateOrder | mssales/apps/sales/serializers.py:104-113 | create adds one new draft order for the customer with the given notes, numbered "SO-" + token, leaves other rows unchanged, and when complete has exactly the input lines |
| SalesValidation.CreateLinesCompleteIff | mssales/apps/sales/serializers.py:108-112 | the nested create makes every line iff no product repeats among the inputs |
| SalesValidation.CreateLinesNotCompleteOnRepeat | mssales/apps/sales/models.py:116 | two inputs for the same product stop the nested create |
| SalesValidation.CreateLinesHitsProduct | mssales/apps/sales/models.py:116 | an input for a product that already has a line stops the nested create |
| SalesValidation.NewDraftOrderKeepsValid | mssales/apps/sales/serializers.py:106 | adding a valid draft order keeps the invariant |
| SalesValidation.CreateOrderPreservesValid | mssales/apps/sales/serializers.py:104-113 | a nested create with distinct products and valid lines completes and keeps the invariant |
| SalesViews.DefaultUnitPrice | mssales/apps/sales/views.py:123-130 | a missing or zero (falsy) price becomes the product's sales price; a non-zero price is kept |
| SalesViews.ZeroPriceRulesDiffer | mssales/apps/sales/views.py:125-128 | an explicit price of 0 is replaced by the line endpoint but kept by the nested create |
| SalesViews.PerformCreate | mssales/apps/sales/views.py:123-130 | a line is appended to its order iff the order has no line for that product; otherwise the unique constraint rejects it |
| SalesViews.PerformUpdate | mssales/apps/sales/views.py:132-138 | a line of a non-draft order is refused with PermissionDenied and nothing is saved; on a draft order the line is replaced by its patched version unless the new product repeats, which the unique constraint rejects |
| SalesViews.PerformDestroy | mssales/apps/sales/views.py:140-145 | deletion fails with PermissionDenied iff the order is not a draft, and the line then remains; otherwise exactly that line goes and the other lines and orders stay |
| SalesViews.DraftLinesChangeKeepsValid | mssales/apps/sales/views.py:132-145 | changing a draft order's lines to valid, distinct lines keeps the invariant |
| SalesViews.PerformCreatePreservesValidOnDraft | mssales/apps/sales/views.py:123-130 | a line created on a draft order keeps the invariant |
| SalesViews.PerformCreateOnConfirmedBreaksMatch | mssales/apps/sales/views.py:123-130 | on a consistent store, a new product's line on a confirmed order is accepted and leaves that order with one line more than it has reservations |
| SalesViews.PerformCreateDraftOnly | mssales/apps/sales/views.py:123-138 | with the draft guard of `perform_update`, a line create on a non-draft order is refused with PermissionDenied; on a draft order it is `perform_create` |
| SalesViews.PerformCreateDraftOnlyPreservesValid | mssales/apps/sales/views.py:123-138 | with the guard, a line create keeps the invariant whatever the order's status |
| SalesViews.PerformUpdatePreservesValid | mssales/apps/sales/views.py:132-138 | an update with valid fields keeps the invariant |
| SalesViews.PerformDestroyPreservesValid | mssales/apps/sales/views.py:140-145 | a line deletion keeps the invariant |
| SalesViews.Respond | mssales/apps/sales/views.py:43-60 | success is 200 with the success text, a ValueError is 400 carrying its message, any other error is 500 with the fixed failure text, and a missing order is 404 |
| SalesViews.ConfirmViewOutcomes | mssales/apps/sales/views.py:38-60 | on a consistent store the confirm action answers 200 iff every line has stock, 400 otherwise, 400 with "Only draft orders can be confirmed" for a non-draft order, and changes the store only on 200 |
| SalesViews.ConfirmViewAsWrittenNeverConfirms | mssales/apps/sales/views.py:56-60 | as written, the confirm action answers 500 "Failed to confirm order" to every draft order and leaves it a draft |
| SalesViews.ConfirmTypoCounterexample | mssales/apps/sales/models.py:68 | a draft order without lines is confirmed (200) by the intended method and refused (500) by the method as written |
| SalesViews.CancelViewOutcomes | mssales/apps/sales/views.py:62-84 | the cancel action answers 200 for a confirmed order and 400 "Only confirmed orders can be cancelled", with the store unchanged, for any other |
| SalesViews.Dashboard | mssales/apps/sales/views.py:86-100 | total_orders counts every order and each per-status count is at most that; with no orders every count and both revenues are 0 |
| SalesViews.StatusPartition | mssales/apps/sales/views.py:91-97 | the three per-status counts add up to the order count and the three per-status sums to the sum over all orders |
| SalesViews.DashboardCountsPartition | mssales/apps/sales/views.py:91-95 | the dashboard's draft, confirmed and cancelled counts add up to total_orders |
| SalesViews.DashboardAppend | mssales/apps/sales/views.py:91-97 | one more order adds 1 to total_orders and 1 to the count of its own status only (so each count is the number of orders with exactly that status); it adds its total to total_revenue only if confirmed and to pending_revenue only if draft, and a cancelled order adds to neither |
| SalesViews.SumTotalsConcat | mssales/apps/sales/views.py:96-97 | the revenue sum is additive over a split of the orders |
| Customers.PhonePatternShape | mssales/apps/customers/models.py:47 | `^\+?1?\d{9,15}$` matches iff, after an optional '+', there are only digits: 9 to 15 of them, or 16 with a leading '1' |
| Customers.PatternRejectsOtherChars | mssales/apps/customers/serializers.py:34 | a string with any character other than '+' and digits never matches |
| Customers.ReplaceCharSelf | mssales/apps/customers/models.py:48 | replacing a space by a space changes nothing |
| Customers.Without | mssales/apps/customers/serializers.py:33 | removing a character deletes every occurrence of it and keeps every other character |
| Customers.CleanPhoneAsWritten | mssales/apps/customers/models.py:44-50 | as written, a non-empty phone is rejected iff it does not match after removing '-' only; an empty phone skips the check |
| Customers.CleanPhone | mssales/apps/customers/models.py:44-50 | with the intended replacement, a non-empty phone is rejected iff, after removing spaces and '-', it is not an optional '+' followed by 9 to 15 digits, or 16 digits starting with '1' |
| Customers.CleanPhoneAsWrittenRejectsSpaces | mssales/apps/customers/models.py:48 | as written, every phone containing a space is rejected |
| Customers.CleanedPhone | mssales/apps/customers/serializers.py:33 | cleaning removes every space, '-', '(' and ')' and keeps every other character |
| Customers.ValidatePhone | mssales/apps/customers/serializers.py:29-37 | a phone is accepted iff its cleaned form is an optional '+' followed by 9 to 15 digits, or 16 digits starting with '1', and the original, uncleaned value is returned |
| Customers.CleanPhoneAgreesWithSerializer | mssales/apps/customers/models.py:47-48 | for a non-empty phone without parentheses, the corrected model check and the serializer check agree |
| Customers.SpacedPhoneRejectedAsWritten | mssales/apps/customers/models.py:48 | three digit groups separated by spaces pass the serializer and the corrected check, but not the check as written |
| Customers.SpacedPhoneCounterexample | mssales/apps/customers/models.py:48 | "555 123 4567" is accepted by the serializer and rejected by the model check as written |
| Customers.CitySegment | mssales/apps/customers/models.py:59 | the "city, state zip" segment exists iff city and state are both non-empty, and a missing zip renders as "None" |
| Customers.PresentPartsOfThree | mssales/apps/customers/models.py:57-61 | `filter(None, ...)` keeps exactly the parts that are neither None nor empty, in their order |
| Customers.JoinEnds | mssales/apps/customers/models.py:61 | the joined string starts with the first part and ends with the last, and is empty only for no parts |
| Customers.FullAddress | mssales/apps/customers/models.py:52-61 | a present street comes first, a non-empty country last, and the address is empty iff street, city segment and country are all absent |
| Customers.FullAddressAllParts | mssales/apps/customers/models.py:57-61 | with every part present the address is "street, city, state zip, country" |
| Customers.FullAddressWithoutCity | mssales/apps/customers/models.py:59-61 | without both city and state, the address is street and country alone |
| Customers.ValidateEmail | mssales/apps/customers/serializers.py:39-42 | an email is rejected iff another customer has it: on update the instance is excluded, on create every customer counts |
| Customers.AcceptedEmailKeepsUnique | mssales/apps/customers/serializers.py:39-42 | saving a customer under an accepted email keeps emails unique |
| CustomerViews.Companies | mssales/apps/customers/views.py:43-50 | the result holds exactly the company customers, in listing order |
| CustomerViews.Stats | mssales/apps/customers/views.py:63-80 | total_orders counts the customer's orders and each per-status count counts the customer's orders with exactly that status |
| CustomerViews.StatsIgnoreOtherCustomers | mssales/apps/customers/views.py:68-69 | another customer's order changes nothing in the stats |
| CustomerViews.StatsPartition | mssales/apps/customers/views.py:74-78 | the per-status counts add up to total_orders, and total_amount is the sum over all three statuses |
| CustomerViews.CancelledOrderCountsInStats | mssales/apps/customers/views.py:78 | a cancelled order of the customer still adds its total to total_amount, while the dashboard revenue ignores it |
| InventoryReports.EntryFor | mssales/apps/inventory/views.py:38-51 | an entry's available quantity is the product's available_quantity, and it equals on-hand minus total_reserved; total_reserved and reservations_count are the product's sum and count |
| InventoryReports.Entries | mssales/apps/inventory/views.py:35-51 | one entry per listed product, in listing order |
| InventoryReports.Insert | mssales/apps/inventory/views.py:54 | inserting adds exactly the one entry |
| InventoryReports.InsertSorted | mssales/apps/inventory/views.py:54 | inserting into a sorted list keeps it sorted by available quantity |
| InventoryReports.SortByAvailable | mssales/apps/inventory/views.py:54 | the sort's output is sorted ascending by available quantity and is a permutation of its input |
| InventoryReports.InsertStable | mssales/apps/inventory/views.py:54 | an inserted entry goes before the entries with an equal key |
| InventoryReports.SortStable | mssales/apps/inventory/views.py:35-54 | the sort is stable: entries with equal available quantity keep their listing (name) order |
| InventoryReports.InventoryStatus | mssales/apps/inventory/views.py:30-58 | the report is sorted by available quantity and is a permutation of the per-product entries |
| InventoryReports.InventoryStatusOnePerProduct | mssales/apps/inventory/views.py:35-51 | the report holds exactly one entry per product, the one built for it |
| InventoryReports.Threshold | mssales/apps/inventory/views.py:63 | the threshold is the given value, or 10 when absent |
| InventoryReports.LowStockReport | mssales/apps/inventory/views.py:60-82 | the report holds exactly the entries under the threshold, in listing order |
| InventoryReports.LowStockReportMembership | mssales/apps/inventory/views.py:66-67 | a product is in the report iff its available quantity is under the threshold |
| ProductViews.LowStock | mssales/apps/products/views.py:43-54 | the result holds exactly the listed products with available quantity under 10, in listing order |
| ProductViews.SelectionsAgree | mssales/apps/products/views.py:49-51 | selecting entries under 10 and selecting their products with fewer than 10 available pick the same products in the same order |
| ProductViews.LowStockViewsAgree | mssales/apps/products/views.py:48-51 | at the default threshold the inventory low-stock report names exactly the products `low_stock` returns, in order |
| ProductViews.Availability | mssales/apps/products/views.py:56-70 | on-hand and forecast are as stored, available is the computed available_quantity, and reserved_quantity equals the product's total reserved qty |
| ProductViews.AvailabilityMatchesReport | mssales/apps/products/views.py:65-67 | the availability view and the inventory report show the same available and reserved figures |

## Left out

- HTTP and framework plumbing is not modelled: routing, viewset configuration, filtering,
  search, pagination, serializer dispatch and response bodies. Only each action's status code
  and message are modelled, in `SalesViews.Respond`.
- Authentication (`mssales/apps/authentication`) is not modelled: it wraps a JWT library.
- The inventory serializers are not modelled: they declare fields and have no logic.
- The `summary`, `orders` and `lines` listing actions are not modelled: they only serialize a
  queryset.
- Transactions, locking and concurrency are not modelled. Atomicity is "failure returns the
  input store". Overselling under concurrent confirms depends on database isolation.
- Orders.GrandTotal: the source computes `float(total) * 1.20`. The model uses the exact
  rational `total · 6/5`, so float rounding is not modelled.
- Orders.Save: the uuid-derived suffix is an opaque `token` parameter. The uniqueness of
  order numbers is not modelled, because it rests on uuid collisions.
- Decimal `max_digits`/`decimal_places` limits and `created_at`/`updated_at` timestamps are
  not modelled.
- Customers.MatchesPhonePattern: `$` is modelled as end of string. Python's `$` also matches
  before a final newline, so the model rejects "5551234567\n", which Python accepts.
- Customers.MatchesPhonePattern: `\d` is modelled as the ASCII digits. Python's `\d` on
  `str` also matches other Unicode decimal digits.
- InventoryReports.Threshold: it takes the already-parsed integer. A non-integer `threshold`
  makes `int()` raise, and that 500 response is not modelled.
- The customer phone column is NOT NULL, so a None phone cannot be represented.
  `Customer.clean` skips the check for an empty phone, and `CleanPhoneAsWritten` and
  `CleanPhone` model that skip.
- `SalesOrderLine.clean` (`mssales/apps/sales/models.py:129-133`) is not modelled
  separately. It applies the same falsy-price rule as `SalesViews.DefaultUnitPrice`, and
  Django calls it only from `full_clean`, which the REST path does not run.
- Queryset order is a parameter, not derived: the order of a listing is the given sequence.
  For products this is the `ordering = ['name']` listing.
- Lifecycle.ConfirmOrder requires `References(s)`: every line's product exists. The foreign
  key guarantees this in the database, so the precondition excludes no reachable state.
- SalesViews.PerformCreate: the order is a parameter. The line serializer has no `order`
  field, so as written the create has no order to save the line under and fails; the model
  supplies the order the request was meant for.
- SalesViews.PerformCreate and SalesViews.PerformUpdate do not run the field validators.
  Those are modelled separately in `SalesValidation`, and the preservation lemmas take
  validated lines as hypotheses.
- Direct create, update and delete of reservation rows through `ReservationViewSet` is not
  modelled.

## Findings

| source | as written | input that shows it | evidently intended | confidence | as-written member | corrected member |
|---|---|---|---|---|---|---|
| mssales/apps/sales/models.py:68 | the loop iterates `self.order_lines_all()`, which `SalesOrder` does not define; the AttributeError escapes the ValueError handler, so the confirm action answers 500 for every draft order | a draft order with no lines (SalesViews.ConfirmTypoCounterexample) | iterate `self.order_lines.all()`, the reverse relation of the line model | high; not executed | Lifecycle.ConfirmOrderAsWritten | Lifecycle.ConfirmOrder |
| mssales/apps/customers/models.py:48 | `replace(' ', ' ')` replaces a space by a space, so only '-' is removed before matching and any phone with a space fails `clean` | "555 123 4567" (Customers.SpacedPhoneCounterexample), which the serializer's `validate_phone` accepts | `replace(' ', '')`, as in the serializer | high; not executed | Customers.CleanPhoneAsWritten | Customers.CleanPhone |
| mssales/apps/sales/views.py:123-130 | `perform_create` does not check the order's status, unlike `perform_update` and `perform_destroy`, so a line can be added to a confirmed order, and no stock is reserved for it | a confirmed order and a product it has no line for (SalesViews.PerformCreateOnConfirmedBreaksMatch) | refuse the create with PermissionDenied unless the order is a draft | medium; not executed | SalesViews.PerformCreate | SalesViews.PerformCreateDraftOnly |
