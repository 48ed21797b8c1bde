/** The sales views: the line endpoints' hooks, the confirm and cancel actions with their
    error-to-response mapping, and the dashboard aggregation. */
module SalesViews {
  import opened Results
  import opened Reservations
  import opened Products
  import opened Orders
  import opened Lifecycle
  import opened Seqs
  import SalesValidation
  import LifecycleProperties

  // ---- line endpoints ----

  /** `perform_create`'s price rule: a missing or zero price (both falsy) becomes the
      product's current sales price; any other given price is kept. */
  function DefaultUnitPrice(given: Option<real>, p: Product): (r: real)
    ensures given.None? ==> r == p.salesPrice
    ensures given == Some(0.0) ==> r == p.salesPrice
    ensures given.Some? && given.value != 0.0 ==> r == given.value
    ensures ValidProduct(p) && (given.None? || given.value >= 0.0) ==> r >= 0.0
  {
    match given
    case Some(v) => if v == 0.0 then p.salesPrice else v
    case None => p.salesPrice
  }

  /** The two defaulting rules part on an explicit zero price: the line endpoint replaces it,
      the nested create keeps it. */
  lemma ZeroPriceRulesDiffer(products: map<ProductId, Product>, input: SalesValidation.LineInput)
    requires input.product in products
    requires input.unitPrice == Some(0.0)
    ensures SalesValidation.LineFrom(products, input).unitPrice == 0.0
    ensures DefaultUnitPrice(input.unitPrice, products[input.product]) == products[input.product].salesPrice
  {
  }

  datatype LineError =
    | PermissionDenied(message: string)   // the line's order is not a draft
    | DuplicateLine                       // IntegrityError from the (order, product) constraint

  /** The line `perform_create` saves for the submitted fields. */
  function NewLine(products: map<ProductId, Product>, data: SalesValidation.LineInput): Line
    requires data.product in products
  {
    Line(data.product, data.qty, DefaultUnitPrice(data.unitPrice, products[data.product]),
         match data.discountPct case Some(d) => d case None => 0.0)
  }

  /** `perform_create`: the new line is appended to its order unless the order already has a
      line for that product. The order's status is not consulted. */
  function PerformCreate(s: Store, order: OrderId, data: SalesValidation.LineInput): (r: Result<Store, LineError>)
    requires order in s.orders && data.product in s.products
    ensures r.Ok? <==> !HasLineFor(s.orders[order].lines, data.product)
    ensures r.Err? ==> r.error == DuplicateLine
    ensures r.Ok? ==> r.value.orders == s.orders[order := s.orders[order].(lines := s.orders[order].lines + [NewLine(s.products, data)])]
    ensures r.Ok? ==> r.value.reservations == s.reservations && r.value.products == s.products
  {
    var o := s.orders[order];
    if HasLineFor(o.lines, data.product) then Err(DuplicateLine)
    else Ok(s.(orders := s.orders[order := o.(lines := o.lines + [NewLine(s.products, data)])]))
  }

  /** The line after applying the submitted fields; absent fields keep their values. */
  function Patched(l: Line, data: SalesValidation.LineData): (r: Line)
    ensures data.product.None? ==> r.product == l.product
    ensures data.qty.Some? ==> r.qty == data.qty.value
    ensures data.qty.None? ==> r.qty == l.qty
  {
    Line(match data.product case Some(p) => p case None => l.product,
         match data.qty case Some(q) => q case None => l.qty,
         match data.unitPrice case Some(v) => v case None => l.unitPrice,
         match data.discountPct case Some(d) => d case None => l.discountPct)
  }

  /** No line other than the one at `k` is for `product`. */
  predicate FreeForLine(lines: seq<Line>, k: nat, product: ProductId) {
    forall i :: 0 <= i < |lines| && i != k ==> lines[i].product != product
  }

  /** `perform_update`: a line of a non-draft order cannot be modified and nothing is saved;
      otherwise the line at `k` is replaced by its patched version. */
  function PerformUpdate(s: Store, order: OrderId, k: nat, data: SalesValidation.LineData): (r: Result<Store, LineError>)
    requires order in s.orders && k < |s.orders[order].lines|
    ensures s.orders[order].status != Draft ==> r == Err(PermissionDenied("Cannot modify lines of non-draft orders"))
    ensures s.orders[order].status == Draft ==>
              (r.Ok? <==> FreeForLine(s.orders[order].lines, k, Patched(s.orders[order].lines[k], data).product))
    ensures s.orders[order].status == Draft && r.Err? ==> r.error == DuplicateLine
    ensures r.Ok? ==> r.value.orders == s.orders[order := s.orders[order].(lines := s.orders[order].lines[k := Patched(s.orders[order].lines[k], data)])]
    ensures r.Ok? ==> r.value.reservations == s.reservations && r.value.products == s.products
  {
    var o := s.orders[order];
    if o.status != Draft then Err(PermissionDenied("Cannot modify lines of non-draft orders"))
    else
      var l := Patched(o.lines[k], data);
      if exists i :: 0 <= i < |o.lines| && i != k && o.lines[i].product == l.product then Err(DuplicateLine)
      else Ok(s.(orders := s.orders[order := o.(lines := o.lines[k := l])]))
  }

  /** `perform_destroy`: a line of a non-draft order cannot be deleted and stays; otherwise the
      line at `k` is removed and the others keep their order. */
  function PerformDestroy(s: Store, order: OrderId, k: nat): (r: Result<Store, LineError>)
    requires order in s.orders && k < |s.orders[order].lines|
    ensures r.Err? <==> s.orders[order].status != Draft
    ensures r.Err? ==> r.error == PermissionDenied("Cannot delete lines from non-draft orders")
    ensures r.Ok? ==> order in r.value.orders && |r.value.orders[order].lines| == |s.orders[order].lines| - 1
    ensures r.Ok? ==> order in r.value.orders && r.value.orders[order].lines == s.orders[order].lines[..k] + s.orders[order].lines[k + 1..]
    ensures r.Ok? ==> forall x :: x in s.orders && x != order ==> x in r.value.orders && r.value.orders[x] == s.orders[x]
    ensures r.Ok? ==> r.value.reservations == s.reservations && r.value.products == s.products
  {
    var o := s.orders[order];
    if o.status != Draft then Err(PermissionDenied("Cannot delete lines from non-draft orders"))
    else Ok(s.(orders := s.orders[order := o.(lines := o.lines[..k] + o.lines[k + 1..])]))
  }

  /** Replacing a draft order's lines by valid lines on existing products keeps the store
      consistent: a draft order holds no reservation. */
  lemma DraftLinesChangeKeepsValid(s: Store, order: OrderId, lines: seq<Line>)
    requires Valid(s)
    requires order in s.orders && s.orders[order].status == Draft
    requires forall i :: 0 <= i < |lines| ==> ValidLine(lines[i]) && lines[i].product in s.products
    requires DistinctProducts(lines)
    ensures Valid(s.(orders := s.orders[order := s.orders[order].(lines := lines)]))
  {
    var s' := s.(orders := s.orders[order := s.orders[order].(lines := lines)]);
    assert RowsOf(s.reservations, order) == [];
    assert References(s');
    assert Constraints(s');
    assert ReservationsMatchStatus(s');
  }

  /** Deleting a line, where allowed, keeps the store consistent. */
  lemma PerformDestroyPreservesValid(s: Store, order: OrderId, k: nat)
    requires Valid(s)
    requires order in s.orders && k < |s.orders[order].lines|
    ensures Valid(StateAfterLine(s, PerformDestroy(s, order, k)))
  {
    if s.orders[order].status == Draft {
      var lines := s.orders[order].lines;
      var rest := lines[..k] + lines[k + 1..];
      forall i | 0 <= i < |rest|
        ensures exists m :: 0 <= m < |lines| && rest[i] == lines[m] && (m < k ==> m == i) && (m > k ==> m == i + 1)
      {
        if i < k {
          assert rest[i] == lines[i];
        } else {
          assert rest[i] == lines[i + 1];
        }
      }
      assert DistinctProducts(rest) by {
        forall i, j | 0 <= i < |rest| && 0 <= j < |rest| && i != j
          ensures rest[i].product != rest[j].product
        {
          var a := if i < k then i else i + 1;
          var b := if j < k then j else j + 1;
          assert rest[i] == lines[a] && rest[j] == lines[b];
        }
      }
      DraftLinesChangeKeepsValid(s, order, rest);
    }
  }

  /** Updating a line with validated fields, where allowed, keeps the store consistent. */
  lemma PerformUpdatePreservesValid(s: Store, order: OrderId, k: nat, data: SalesValidation.LineData)
    requires Valid(s)
    requires order in s.orders && k < |s.orders[order].lines|
    requires ValidLine(Patched(s.orders[order].lines[k], data))
    requires Patched(s.orders[order].lines[k], data).product in s.products
    ensures Valid(StateAfterLine(s, PerformUpdate(s, order, k, data)))
  {
    var r := PerformUpdate(s, order, k, data);
    if r.Ok? {
      var lines := s.orders[order].lines;
      var lines' := lines[k := Patched(lines[k], data)];
      assert DistinctProducts(lines');
      DraftLinesChangeKeepsValid(s, order, lines');
    }
  }

  /** Creating a line on a draft order keeps the store consistent. The hook does not check the
      status itself, so this needs the order to be a draft. */
  lemma PerformCreatePreservesValidOnDraft(s: Store, order: OrderId, data: SalesValidation.LineInput)
    requires Valid(s)
    requires order in s.orders && s.orders[order].status == Draft && data.product in s.products
    requires ValidLine(NewLine(s.products, data))
    ensures Valid(StateAfterLine(s, PerformCreate(s, order, data)))
  {
    var r := PerformCreate(s, order, data);
    if r.Ok? {
      var lines := s.orders[order].lines;
      var l := NewLine(s.products, data);
      var lines' := lines + [l];
      assert forall i :: 0 <= i < |lines| ==> lines'[i] == lines[i];
      assert lines'[|lines|] == l;
      assert DistinctProducts(lines');
      DraftLinesChangeKeepsValid(s, order, lines');
    }
  }

  /** As written, `perform_create` also appends a line to a confirmed order; no reservation is
      written for it, so the order's reservations no longer match its lines. */
  lemma PerformCreateOnConfirmedBreaksMatch(s: Store, order: OrderId, data: SalesValidation.LineInput)
    requires Valid(s)
    requires order in s.orders && s.orders[order].status == Confirmed && data.product in s.products
    requires !HasLineFor(s.orders[order].lines, data.product)
    ensures PerformCreate(s, order, data).Ok?
    ensures !ReservationsMatchStatus(StateAfterLine(s, PerformCreate(s, order, data)))
  {
    var s' := StateAfterLine(s, PerformCreate(s, order, data));
    var lines := s.orders[order].lines;
    assert RowsOf(s.reservations, order) == Expected(order, lines);
    assert s'.orders[order].lines == lines + [NewLine(s.products, data)];
    assert |Expected(order, s'.orders[order].lines)| == |lines| + 1;
    assert RowsOf(s'.reservations, order) != Expected(order, s'.orders[order].lines);
  }

  /** `perform_create` with the draft guard its sibling endpoints have: a line is added only
      to a draft order. */
  function PerformCreateDraftOnly(s: Store, order: OrderId, data: SalesValidation.LineInput): (r: Result<Store, LineError>)
    requires order in s.orders && data.product in s.products
    ensures s.orders[order].status != Draft ==> r == Err(PermissionDenied("Cannot add lines to non-draft orders"))
    ensures s.orders[order].status == Draft ==> r == PerformCreate(s, order, data)
  {
    if s.orders[order].status != Draft then Err(PermissionDenied("Cannot add lines to non-draft orders"))
    else PerformCreate(s, order, data)
  }

  /** With the guard, creating a line keeps the store consistent whatever the order's status. */
  lemma PerformCreateDraftOnlyPreservesValid(s: Store, order: OrderId, data: SalesValidation.LineInput)
    requires Valid(s)
    requires order in s.orders && data.product in s.products
    requires ValidLine(NewLine(s.products, data))
    ensures Valid(StateAfterLine(s, PerformCreateDraftOnly(s, order, data)))
  {
    if s.orders[order].status == Draft {
      PerformCreatePreservesValidOnDraft(s, order, data);
    }
  }

  function StateAfterLine(s: Store, r: Result<Store, LineError>): Store {
    if r.Ok? then r.value else s
  }

  // ---- confirm and cancel actions ----

  /** The HTTP answer: status code and the message or error text it carries. */
  datatype Response = Response(code: int, message: string)

  /** The actions' exception handling: a missing order is a 404 before the `try`; a
      `ValueError` becomes a 400 carrying its message; any other exception a 500 with a fixed
      text; success a 200. */
  function Respond(r: Result<Store, LifecycleError>, success: string, failure: string): (resp: Response)
    ensures r.Ok? ==> resp == Response(200, success)
    ensures r.Err? && r.error == OrderNotFound ==> resp.code == 404
    ensures r.Err? && IsValueError(r.error) ==> resp == Response(400, Message(r.error))
    ensures r.Err? && r.error != OrderNotFound && !IsValueError(r.error) ==> resp == Response(500, failure)
  {
    match r
    case Ok(_) => Response(200, success)
    case Err(e) =>
      if e == OrderNotFound then Response(404, Message(e))
      else if IsValueError(e) then Response(400, Message(e))
      else Response(500, failure)
  }

  /** The `confirm` action over the intended `confirm_order`; the store is rolled back on error. */
  function ConfirmView(s: Store, id: OrderId): (Store, Response)
    requires References(s)
  {
    var r := ConfirmOrder(s, id);
    (StateAfter(s, r), Respond(r, "Order confirmed successfully", "Failed to confirm order"))
  }

  /** The `confirm` action over `confirm_order` as written. */
  function ConfirmViewAsWritten(s: Store, id: OrderId): (Store, Response)
  {
    var r := ConfirmOrderAsWritten(s, id);
    (StateAfter(s, r), Respond(r, "Order confirmed successfully", "Failed to confirm order"))
  }

  /** The `cancel` action; the store is rolled back on error. */
  function CancelView(s: Store, id: OrderId): (Store, Response)
  {
    var r := CancelOrder(s, id);
    (StateAfter(s, r), Respond(r, "Order cancelled successfully", "Failed to cancel order"))
  }

  /** What the confirm action answers on a consistent store: 200 when every line has stock,
      400 naming a short product otherwise, 400 for a non-draft order; the store changes only
      on a 200. */
  lemma ConfirmViewOutcomes(s: Store, id: OrderId)
    requires Valid(s)
    requires id in s.orders
    ensures s.orders[id].status != Draft ==>
              ConfirmView(s, id) == (s, Response(400, "Only draft orders can be confirmed"))
    ensures s.orders[id].status == Draft ==>
              (ConfirmView(s, id).1.code == 200 <==>
               forall i :: 0 <= i < |s.orders[id].lines| ==> Sufficient(s.products, s.reservations, s.orders[id].lines[i]))
    ensures ConfirmView(s, id).1.code != 200 ==> ConfirmView(s, id).0 == s
    ensures ConfirmView(s, id).1.code != 200 ==> ConfirmView(s, id).1.code == 400
  {
    if s.orders[id].status == Draft {
      LifecycleProperties.ConfirmSucceedsIff(s, id);
    }
  }

  /** As written, the confirm action can never confirm an existing order: a draft order gets a
      500 and stays a draft. */
  lemma ConfirmViewAsWrittenNeverConfirms(s: Store, id: OrderId)
    requires id in s.orders && s.orders[id].status == Draft
    ensures ConfirmViewAsWritten(s, id) == (s, Response(500, "Failed to confirm order"))
  {
  }

  /** The smallest input that shows the `order_lines_all` slip: a draft order without lines,
      which the intended method confirms and the method as written cannot. */
  lemma ConfirmTypoCounterexample(s: Store, id: OrderId)
    requires References(s)
    requires id in s.orders && s.orders[id].status == Draft && s.orders[id].lines == []
    ensures ConfirmViewAsWritten(s, id).1 == Response(500, "Failed to confirm order")
    ensures ConfirmView(s, id).1 == Response(200, "Order confirmed successfully")
    ensures ConfirmView(s, id).0.orders[id].status == Confirmed
  {
    LifecycleProperties.ConfirmEmptyOrder(s, id);
  }

  /** What the cancel action answers: 200 for a confirmed order, 400 with the message for
      any other existing order, the store unchanged unless 200. */
  lemma CancelViewOutcomes(s: Store, id: OrderId)
    requires id in s.orders
    ensures s.orders[id].status == Confirmed ==> CancelView(s, id).1 == Response(200, "Order cancelled successfully")
    ensures s.orders[id].status != Confirmed ==>
              CancelView(s, id) == (s, Response(400, "Only confirmed orders can be cancelled"))
  {
  }

  // ---- dashboard ----

  /** The selection `status=st`. */
  function HasStatus(st: Status): Order -> bool {
    (o: Order) => o.status == st
  }

  /** Sum of `total_amount` over the orders. */
  function SumTotals(orders: seq<Order>): real
    decreases |orders|
  {
    if orders == [] then 0.0 else TotalAmount(orders[0].lines) + SumTotals(orders[1..])
  }

  datatype DashboardStats = DashboardStats(
    totalOrders: nat,
    draftOrders: nat,
    confirmedOrders: nat,
    cancelledOrders: nat,
    totalRevenue: real,
    pendingRevenue: real)

  /** The `dashboard` action over the orders it lists. */
  function Dashboard(orders: seq<Order>): (d: DashboardStats)
    ensures d.totalOrders == |orders|
    ensures d.draftOrders <= d.totalOrders && d.confirmedOrders <= d.totalOrders && d.cancelledOrders <= d.totalOrders
    ensures orders == [] ==> d == DashboardStats(0, 0, 0, 0, 0.0, 0.0)
  {
    DashboardStats(
      |orders|,
      Count(orders, HasStatus(Draft)),
      Count(orders, HasStatus(Confirmed)),
      Count(orders, HasStatus(Cancelled)),
      SumTotals(Filter(orders, HasStatus(Confirmed))),
      SumTotals(Filter(orders, HasStatus(Draft))))
  }

  lemma {:induction false} SumTotalsConcat(a: seq<Order>, b: seq<Order>)
    ensures SumTotals(a + b) == SumTotals(a) + SumTotals(b)
    decreases |a|
  {
    if a == [] {
      assert a + b == b;
    } else {
      assert (a + b)[0] == a[0];
      assert (a + b)[1..] == a[1..] + b;
      SumTotalsConcat(a[1..], b);
    }
  }

  /** Every order has exactly one of the three statuses, so the three counts add up to the
      total, and the three status revenues add up to the sum over all orders. */
  lemma StatusPartition(orders: seq<Order>)
    ensures Count(orders, HasStatus(Draft)) + Count(orders, HasStatus(Confirmed))
            + Count(orders, HasStatus(Cancelled)) == |orders|
    ensures SumTotals(Filter(orders, HasStatus(Draft))) + SumTotals(Filter(orders, HasStatus(Confirmed)))
            + SumTotals(Filter(orders, HasStatus(Cancelled))) == SumTotals(orders)
  {
    StatusCountsPartition(orders);
    StatusSumsPartition(orders);
  }

  lemma {:induction false} StatusCountsPartition(orders: seq<Order>)
    ensures Count(orders, HasStatus(Draft)) + Count(orders, HasStatus(Confirmed))
            + Count(orders, HasStatus(Cancelled)) == |orders|
    decreases |orders|
  {
    if orders != [] {
      StatusCountsPartition(orders[1..]);
    }
  }

  lemma {:induction false} StatusSumsPartition(orders: seq<Order>)
    ensures SumTotals(Filter(orders, HasStatus(Draft))) + SumTotals(Filter(orders, HasStatus(Confirmed)))
            + SumTotals(Filter(orders, HasStatus(Cancelled))) == SumTotals(orders)
    decreases |orders|
  {
    if orders != [] {
      StatusSumsPartition(orders[1..]);
      var o := orders[0];
      var t := Filter(orders[1..], HasStatus(o.status));
      assert Filter(orders, HasStatus(o.status)) == [o] + t;
      assert ([o] + t)[0] == o && ([o] + t)[1..] == t;
    }
  }

  /** The dashboard's counts partition the orders. */
  lemma DashboardCountsPartition(orders: seq<Order>)
    ensures Dashboard(orders).draftOrders + Dashboard(orders).confirmedOrders
            + Dashboard(orders).cancelledOrders == Dashboard(orders).totalOrders
  {
    StatusPartition(orders);
  }

  /** An order adds one to the total and to the count of its own status only; a cancelled
      order adds to neither revenue figure, a confirmed one adds its total to the revenue and a
      draft one to the pending revenue. With the empty dashboard this fixes every figure. */
  lemma DashboardAppend(orders: seq<Order>, o: Order)
    ensures Dashboard(orders + [o]).totalOrders == Dashboard(orders).totalOrders + 1
    ensures Dashboard(orders + [o]).draftOrders == Dashboard(orders).draftOrders + (if o.status == Draft then 1 else 0)
    ensures Dashboard(orders + [o]).confirmedOrders == Dashboard(orders).confirmedOrders + (if o.status == Confirmed then 1 else 0)
    ensures Dashboard(orders + [o]).cancelledOrders == Dashboard(orders).cancelledOrders + (if o.status == Cancelled then 1 else 0)
    ensures Dashboard(orders + [o]).totalRevenue
            == Dashboard(orders).totalRevenue + (if o.status == Confirmed then TotalAmount(o.lines) else 0.0)
    ensures Dashboard(orders + [o]).pendingRevenue
            == Dashboard(orders).pendingRevenue + (if o.status == Draft then TotalAmount(o.lines) else 0.0)
  {
    FilterConcat(orders, [o], HasStatus(Confirmed));
    FilterConcat(orders, [o], HasStatus(Draft));
    FilterConcat(orders, [o], HasStatus(Cancelled));
    SumTotalsConcat(Filter(orders, HasStatus(Confirmed)), Filter([o], HasStatus(Confirmed)));
    SumTotalsConcat(Filter(orders, HasStatus(Draft)), Filter([o], HasStatus(Draft)));
    assert [o][1..] == [];
  }
}
