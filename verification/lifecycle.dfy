/** The order lifecycle: confirming a draft order reserves stock for every line, cancelling a
    confirmed order releases it. The store is an immutable value; each operation returns the
    new store or an error, and an error leaves the store as it was (the atomic block). */
module Lifecycle {
  import opened Results
  import opened Reservations
  import opened Products
  import opened Orders

  /** The persistent tables the lifecycle reads and writes. */
  datatype Store = Store(
    products: map<ProductId, Product>,
    orders: map<OrderId, Order>,
    reservations: seq<Reservation>)

  /** What can go wrong in confirm or cancel. */
  datatype LifecycleError =
    | OrderNotFound                         // the view's lookup of the order fails
    | NotDraft                              // ValueError: only draft orders can be confirmed
    | NotConfirmed                          // ValueError: only confirmed orders can be cancelled
    | InsufficientStock(productName: string) // ValueError naming the product short of stock
    | DuplicateReservation                  // IntegrityError from the (order, product) constraint
    | MissingAttribute                      // AttributeError from a call to a missing method

  /** The errors raised as `ValueError`; the others are different exception classes. */
  predicate IsValueError(e: LifecycleError) {
    e.NotDraft? || e.NotConfirmed? || e.InsufficientStock?
  }

  /** The message a `ValueError` carries. */
  function Message(e: LifecycleError): string {
    match e
    case NotDraft => "Only draft orders can be confirmed"
    case NotConfirmed => "Only confirmed orders can be cancelled"
    case InsufficientStock(name) => "Insufficient stock for " + name
    case OrderNotFound => "Not found."
    case DuplicateReservation => "UNIQUE constraint failed: reservations.order_id, reservations.product_id"
    case MissingAttribute => "'SalesOrder' object has no attribute 'order_lines_all'"
  }

  /** The store as seen after an operation: the new store on success; on failure the
      transaction is rolled back and the store is the one before the call. */
  function StateAfter(s: Store, r: Result<Store, LifecycleError>): Store {
    if r.Ok? then r.value else s
  }

  predicate LinesReferenceProducts(products: map<ProductId, Product>, lines: seq<Line>) {
    forall i :: 0 <= i < |lines| ==> lines[i].product in products
  }

  /** Foreign keys: lines and reservations point at existing rows. */
  predicate References(s: Store) {
    && (forall id :: id in s.orders ==> LinesReferenceProducts(s.products, s.orders[id].lines))
    && (forall i :: 0 <= i < |s.reservations| ==>
          s.reservations[i].order in s.orders && s.reservations[i].product in s.products)
  }

  /** Field and table constraints of every row. */
  predicate Constraints(s: Store) {
    && (forall id :: id in s.orders ==> ValidOrder(s.orders[id]))
    && (forall k :: k in s.products ==> ValidProduct(s.products[k]))
    && AllValidQty(s.reservations)
    && UniquePairs(s.reservations)
  }

  /** The reservations confirming `order` with these lines creates: one per line, same qty. */
  function Expected(order: OrderId, lines: seq<Line>): (r: seq<Reservation>)
    ensures |r| == |lines|
    ensures forall i :: 0 <= i < |lines| ==> r[i] == Reservation(order, lines[i].product, lines[i].qty)
  {
    seq(|lines|, i requires 0 <= i < |lines| => Reservation(order, lines[i].product, lines[i].qty))
  }

  /** Writing the first line's row and then the rest's is writing all of them. */
  lemma ExpectedStep(rows: seq<Reservation>, order: OrderId, lines: seq<Line>)
    requires lines != []
    ensures (rows + [Reservation(order, lines[0].product, lines[0].qty)]) + Expected(order, lines[1..])
            == rows + Expected(order, lines)
  {
    var r := Reservation(order, lines[0].product, lines[0].qty);
    assert Expected(order, lines) == [r] + Expected(order, lines[1..]);
  }

  /** Reservations exist exactly for confirmed orders, one per line with the line's qty. */
  predicate ReservationsMatchStatus(s: Store) {
    forall id :: id in s.orders ==>
      RowsOf(s.reservations, id) == (if s.orders[id].status == Confirmed then Expected(id, s.orders[id].lines) else [])
  }

  /** The consistency invariant the lifecycle operations keep. */
  predicate Valid(s: Store) {
    References(s) && Constraints(s) && ReservationsMatchStatus(s)
  }

  /** The line's product has enough available stock, counted against `rows`. */
  predicate Sufficient(products: map<ProductId, Product>, rows: seq<Reservation>, l: Line)
    requires l.product in products
  {
    AvailableQuantity(products[l.product], l.product, rows) >= l.qty
  }

  /** What the reservation loop did: the rows as they stood when it stopped, and the
      exception that stopped it, if any. */
  datatype Attempt = Attempt(rows: seq<Reservation>, failure: Option<LifecycleError>)

  /** The loop of `confirm_order` over the lines: each line checks availability against the
      rows written so far, then inserts its reservation; the first failing line raises. */
  function ReserveLines(products: map<ProductId, Product>, rows: seq<Reservation>,
                        order: OrderId, lines: seq<Line>): (a: Attempt)
    requires LinesReferenceProducts(products, lines)
    ensures a.failure.None? ==> a.rows == rows + Expected(order, lines)
    ensures rows <= a.rows
    ensures forall i :: |rows| <= i < |a.rows| ==> a.rows[i].order == order
    ensures a.failure.Some? ==> a.failure.value.InsufficientStock? || a.failure.value == DuplicateReservation
    decreases |lines|
  {
    if lines == [] then Attempt(rows, None)
    else
      var l := lines[0];
      var p := products[l.product];
      if AvailableQuantity(p, l.product, rows) < l.qty then
        Attempt(rows, Some(InsufficientStock(p.name)))
      else if HasPair(rows, order, l.product) then
        Attempt(rows, Some(DuplicateReservation))
      else
        var r := Reservation(order, l.product, l.qty);
        var a := ReserveLines(products, rows + [r], order, lines[1..]);
        ExpectedStep(rows, order, lines);
        assert a.rows[|rows|] == (rows + [r])[|rows|];
        a
  }

  /** `confirm_order` with the line loop over the order's lines. Outside draft it raises before
      the atomic block; inside, a failing line discards every row the attempt wrote. */
  function ConfirmOrder(s: Store, id: OrderId): (r: Result<Store, LifecycleError>)
    requires References(s)
    ensures id !in s.orders ==> r == Err(OrderNotFound)
    ensures id in s.orders && s.orders[id].status != Draft ==> r == Err(NotDraft)
    ensures r.Ok? ==> id in s.orders && s.orders[id].status == Draft
    ensures r.Ok? ==> r.value.products == s.products
    ensures r.Ok? ==> r.value.orders == s.orders[id := s.orders[id].(status := Confirmed)]
    ensures r.Ok? ==> r.value.reservations == s.reservations + Expected(id, s.orders[id].lines)
  {
    if id !in s.orders then Err(OrderNotFound)
    else
      var o := s.orders[id];
      if o.status != Draft then Err(NotDraft)
      else
        var a := ReserveLines(s.products, s.reservations, id, o.lines);
        match a.failure
        case Some(e) => Err(e)
        case None => Ok(s.(reservations := a.rows, orders := s.orders[id := o.(status := Confirmed)]))
  }

  /** `confirm_order` as the source writes it: the loop header calls `order_lines_all()`, a
      method the order does not have, so every draft order fails before any row is written. */
  function ConfirmOrderAsWritten(s: Store, id: OrderId): (r: Result<Store, LifecycleError>)
    ensures r.Err?
    ensures id in s.orders && s.orders[id].status == Draft ==> r == Err(MissingAttribute)
    ensures id in s.orders && s.orders[id].status != Draft ==> r == Err(NotDraft)
  {
    if id !in s.orders then Err(OrderNotFound)
    else if s.orders[id].status != Draft then Err(NotDraft)
    else Err(MissingAttribute)
  }

  /** `cancel_order`: only a confirmed order can be cancelled; its reservations are deleted,
      everyone else's stay, and only its status changes. */
  function CancelOrder(s: Store, id: OrderId): (r: Result<Store, LifecycleError>)
    ensures id !in s.orders ==> r == Err(OrderNotFound)
    ensures id in s.orders && s.orders[id].status != Confirmed ==> r == Err(NotConfirmed)
    ensures r.Ok? ==> id in s.orders && s.orders[id].status == Confirmed
    ensures r.Ok? ==> r.value.products == s.products
    ensures r.Ok? ==> r.value.orders == s.orders[id := s.orders[id].(status := Cancelled)]
    ensures r.Ok? ==> NoneFor(r.value.reservations, id)
    ensures r.Ok? ==> forall o :: o != id ==> RowsOf(r.value.reservations, o) == RowsOf(s.reservations, o)
  {
    if id !in s.orders then Err(OrderNotFound)
    else
      var o := s.orders[id];
      if o.status != Confirmed then Err(NotConfirmed)
      else Ok(s.(reservations := DeleteForOrder(s.reservations, id), orders := s.orders[id := o.(status := Cancelled)]))
  }
}
