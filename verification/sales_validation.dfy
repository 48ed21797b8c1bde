/** The sales serializers: line field validators, the availability re-check, the status
    transition table of order updates, and nested creation of an order with its lines. */
module SalesValidation {
  import opened Results
  import opened Reservations
  import opened Products
  import opened Orders
  import opened Lifecycle
  import LifecycleProperties

  // ---- line fields ----

  /** `validate_qty`: accepts exactly the quantities a line may hold. */
  function ValidateQty(value: int): (r: Result<int, string>)
    ensures r.Ok? <==> value >= 1
    ensures r.Ok? ==> r.value == value
  {
    if value <= 0 then Err("Quantity must be positive.") else Ok(value)
  }

  /** `validate_unit_price`: zero is accepted, any negative price rejected. */
  function ValidateUnitPrice(value: real): (r: Result<real, string>)
    ensures r.Ok? <==> NonNegativeMoney(value)
    ensures r.Ok? ==> r.value == value
  {
    if value < 0.0 then Err("Unit price must be positive.") else Ok(value)
  }

  /** `validate_discount_pct`: both endpoints of [0, 100] are accepted. */
  function ValidateDiscountPct(value: real): (r: Result<real, string>)
    ensures r.Ok? <==> 0.0 <= value <= 100.0
    ensures r.Ok? ==> r.value == value
  {
    if value < 0.0 || value > 100.0 then Err("Discount must be between 0 and 100.") else Ok(value)
  }

  /** A line whose three fields pass their validators satisfies the line's field constraints. */
  lemma ValidatedFieldsMakeValidLine(l: Line)
    requires ValidateQty(l.qty).Ok?
    requires ValidateUnitPrice(l.unitPrice).Ok?
    requires ValidateDiscountPct(l.discountPct).Ok?
    ensures ValidLine(l)
  {
  }

  // ---- availability re-check ----

  /** The submitted fields of a line; an absent field is `None`. */
  datatype LineData = LineData(
    product: Option<ProductId>,
    qty: Option<int>,
    unitPrice: Option<real>,
    discountPct: Option<real>)

  /** The line being updated, as far as the check reads it: its qty and its order's status. */
  datatype ExistingLine = ExistingLine(qty: int, orderStatus: Status)

  datatype AvailabilityError = InsufficientStockFor(available: int, requested: int)

  /** Stock the line itself holds and may count again: its qty, when it is being updated and
      its order is confirmed; otherwise nothing. */
  function CurrentReserved(instance: Option<ExistingLine>): (c: int)
    ensures instance.None? ==> c == 0
    ensures instance.Some? && instance.value.orderStatus != Confirmed ==> c == 0
    ensures instance.Some? && instance.value.orderStatus == Confirmed ==> c == instance.value.qty
  {
    match instance
    case Some(line) => if line.orderStatus == Confirmed then line.qty else 0
    case None => 0
  }

  /** The serializer's `validate`: when a product and a non-zero qty are both given, the qty may
      not exceed the product's availability plus what the line itself already holds. */
  function ValidateAvailability(s: Store, data: LineData, instance: Option<ExistingLine>)
    : (r: Result<LineData, AvailabilityError>)
    requires data.product.Some? ==> data.product.value in s.products
    ensures r.Ok? ==> r.value == data
    ensures r.Err? <==>
      && data.product.Some? && data.qty.Some? && data.qty.value != 0
      && data.qty.value > AvailableQuantity(s.products[data.product.value], data.product.value, s.reservations)
                          + CurrentReserved(instance)
    ensures r.Err? ==> r.error.requested == data.qty.value
    ensures r.Err? ==>
              && data.product.Some?
              && r.error.available == AvailableQuantity(s.products[data.product.value], data.product.value, s.reservations)
                                      + CurrentReserved(instance)
  {
    match (data.product, data.qty)
    case (Some(p), Some(q)) =>
      if q == 0 then Ok(data)
      else
        var available := AvailableQuantity(s.products[p], p, s.reservations) + CurrentReserved(instance);
        if q > available then Err(InsufficientStockFor(available, q)) else Ok(data)
    case _ => Ok(data)
  }

  /** On a consistent store, re-checking a line of a confirmed order for its own product compares
      the requested qty with the availability that order's own reservations excluded. */
  lemma AvailabilityCreditsOwnReservation(s: Store, o: OrderId, k: nat, q: int)
    requires Valid(s)
    requires o in s.orders && s.orders[o].status == Confirmed
    requires k < |s.orders[o].lines|
    ensures var l := s.orders[o].lines[k];
      ValidateAvailability(s, LineData(Some(l.product), Some(q), None, None), Some(ExistingLine(l.qty, Confirmed))).Ok?
      <==> q == 0 || q <= AvailableQuantity(s.products[l.product], l.product, DeleteForOrder(s.reservations, o))
  {
    var l := s.orders[o].lines[k];
    assert CancelOrder(s, o).Ok?;
    LifecycleProperties.CancelReleasesStock(s, o, l.product);
  }

  // ---- order status ----

  /** The transition table of `validate_status`, as the list it consults. */
  function AllowedTransitions(current: Status): seq<Status> {
    match current
    case Draft => [Confirmed, Cancelled]
    case Confirmed => [Cancelled]
    case Cancelled => []
  }

  /** `validate_status`: on create every status passes; on update the status may stay as it is
      or follow the table, under which nothing returns to draft and cancelled is final. */
  function ValidateStatus(instance: Option<Status>, value: Status): (r: Result<Status, string>)
    ensures instance.None? ==> r.Ok?
    ensures instance.Some? ==>
      (r.Ok? <==> value == instance.value
                  || (instance.value == Draft && value != Draft)
                  || (instance.value == Confirmed && value == Cancelled))
    ensures r.Ok? ==> r.value == value
    ensures instance.Some? && r.Err? ==>
      r.error == "Cannot change status from " + StatusName(instance.value) + " to " + StatusName(value)
  {
    match instance
    case None => Ok(value)
    case Some(current) =>
      if value != current && value !in AllowedTransitions(current) then
        Err("Cannot change status from " + StatusName(current) + " to " + StatusName(value))
      else Ok(value)
  }

  /** Every status change made by confirm or cancel is one the table allows. */
  lemma LifecycleFollowsStatusTable(s: Store, id: OrderId)
    requires References(s)
    ensures ConfirmOrder(s, id).Ok? ==>
              ValidateStatus(Some(s.orders[id].status), ConfirmOrder(s, id).value.orders[id].status).Ok?
    ensures CancelOrder(s, id).Ok? ==>
              ValidateStatus(Some(s.orders[id].status), CancelOrder(s, id).value.orders[id].status).Ok?
  {
  }

  /** The two tables disagree on drafts: the serializer lets a draft become cancelled, while
      `cancel_order` refuses any order that is not confirmed. */
  lemma StatusTableAllowsWhatCancelRejects(s: Store, id: OrderId)
    requires id in s.orders && s.orders[id].status == Draft
    ensures ValidateStatus(Some(Draft), Cancelled).Ok?
    ensures CancelOrder(s, id) == Err(NotConfirmed)
  {
  }

  /** Writing a status through the serializer changes the status field and nothing else. */
  function UpdateStatus(s: Store, id: OrderId, value: Status): (r: Result<Store, string>)
    ensures r.Ok? <==> id in s.orders && ValidateStatus(Some(s.orders[id].status), value).Ok?
    ensures r.Ok? ==> r.value.reservations == s.reservations && r.value.products == s.products
    ensures r.Ok? ==> r.value.orders == s.orders[id := s.orders[id].(status := value)]
  {
    if id !in s.orders then Err("Not found.")
    else
      match ValidateStatus(Some(s.orders[id].status), value)
      case Err(e) => Err(e)
      case Ok(v) => Ok(s.(orders := s.orders[id := s.orders[id].(status := v)]))
  }

  /** Confirming a draft order with lines through the serializer, instead of `confirm_order`,
      leaves a confirmed order without reservations. */
  lemma StatusUpdateSkipsReservations(s: Store, id: OrderId)
    requires Valid(s)
    requires id in s.orders && s.orders[id].status == Draft && s.orders[id].lines != []
    ensures UpdateStatus(s, id, Confirmed).Ok?
    ensures !ReservationsMatchStatus(UpdateStatus(s, id, Confirmed).value)
  {
    var s' := UpdateStatus(s, id, Confirmed).value;
    assert RowsOf(s.reservations, id) == [];
    assert |Expected(id, s.orders[id].lines)| > 0;
  }

  // ---- nested create ----

  /** One submitted line of a nested create; an absent price or discount is `None`. */
  datatype LineInput = LineInput(product: ProductId, qty: int, unitPrice: Option<real>, discountPct: Option<real>)

  /** The line `create` stores for one input: a missing price is copied from the product's
      current sales price; a missing discount takes the field default 0. */
  function LineFrom(products: map<ProductId, Product>, input: LineInput): (l: Line)
    requires input.product in products
    ensures l.product == input.product && l.qty == input.qty
    ensures input.unitPrice.None? ==> l.unitPrice == products[input.product].salesPrice
    ensures input.unitPrice.Some? ==> l.unitPrice == input.unitPrice.value
    ensures input.discountPct.None? ==> l.discountPct == 0.0
    ensures input.discountPct.Some? ==> l.discountPct == input.discountPct.value
  {
    Line(input.product, input.qty,
         match input.unitPrice case Some(v) => v case None => products[input.product].salesPrice,
         match input.discountPct case Some(d) => d case None => 0.0)
  }

  predicate InputsReferenceProducts(products: map<ProductId, Product>, inputs: seq<LineInput>) {
    forall i :: 0 <= i < |inputs| ==> inputs[i].product in products
  }

  /** The lines one would get from all inputs, one per input, in order. */
  function LinesFrom(products: map<ProductId, Product>, inputs: seq<LineInput>): (r: seq<Line>)
    requires InputsReferenceProducts(products, inputs)
    ensures |r| == |inputs|
    ensures forall i :: 0 <= i < |inputs| ==> r[i] == LineFrom(products, inputs[i])
  {
    seq(|inputs|, i requires 0 <= i < |inputs| => LineFrom(products, inputs[i]))
  }

  /** No two inputs name the same product. */
  predicate DistinctInputs(inputs: seq<LineInput>) {
    forall i, j :: 0 <= i < |inputs| && 0 <= j < |inputs| && i != j ==> inputs[i].product != inputs[j].product
  }

  /** The loop of `create`: each input becomes a line of the order; an input whose product already
      has a line in this order violates the (order, product) constraint and stops the loop, with
      the lines created so far kept (there is no transaction around `create`). */
  function CreateLines(products: map<ProductId, Product>, created: seq<Line>, inputs: seq<LineInput>)
    : (r: (seq<Line>, bool))
    requires InputsReferenceProducts(products, inputs)
    ensures created <= r.0
    ensures r.1 ==> r.0 == created + LinesFrom(products, inputs)
    decreases |inputs|
  {
    if inputs == [] then (created, true)
    else if HasLineFor(created, inputs[0].product) then (created, false)
    else
      var l := LineFrom(products, inputs[0]);
      var r := CreateLines(products, created + [l], inputs[1..]);
      LinesFromStep(products, created, inputs);
      r
  }

  /** Creating the first input's line and then the rest gives the lines of all inputs. */
  lemma LinesFromStep(products: map<ProductId, Product>, created: seq<Line>, inputs: seq<LineInput>)
    requires InputsReferenceProducts(products, inputs)
    requires inputs != []
    ensures (created + [LineFrom(products, inputs[0])]) + LinesFrom(products, inputs[1..])
            == created + LinesFrom(products, inputs)
  {
    assert LinesFrom(products, inputs) == [LineFrom(products, inputs[0])] + LinesFrom(products, inputs[1..]);
  }

  /** The outcome of a nested create: the store afterwards, and whether every line was created. */
  datatype Created = Created(store: Store, complete: bool)

  /** `SalesOrderCreateSerializer.create`: the order is saved (and numbered) as a draft, then its
      lines are created one by one. */
  function CreateOrder(s: Store, id: OrderId, customer: CustomerId, notes: Option<string>,
                       inputs: seq<LineInput>, token: string): (r: Created)
    requires id !in s.orders
    requires InputsReferenceProducts(s.products, inputs)
    ensures id in r.store.orders
    ensures r.store.orders[id].status == Draft && r.store.orders[id].customer == customer
    ensures r.store.orders[id].notes == notes
    ensures r.store.orders[id].number == "SO-" + token
    ensures r.store.orders == s.orders[id := r.store.orders[id]]
    ensures r.store.products == s.products && r.store.reservations == s.reservations
    ensures r.complete ==> r.store.orders[id].lines == LinesFrom(s.products, inputs)
  {
    var order := Save(Order("", customer, Draft, notes, []), token);
    var (lines, complete) := CreateLines(s.products, [], inputs);
    Created(s.(orders := s.orders[id := order.(lines := lines)]), complete)
  }

  lemma HasLineForAppend(lines: seq<Line>, l: Line, p: ProductId)
    ensures HasLineFor(lines + [l], p) <==> HasLineFor(lines, p) || l.product == p
  {
    if HasLineFor(lines + [l], p) {
      var m :| 0 <= m < |lines + [l]| && (lines + [l])[m].product == p;
      if m < |lines| {
        assert lines[m] == (lines + [l])[m];
      }
    }
    if HasLineFor(lines, p) {
      var m :| 0 <= m < |lines| && lines[m].product == p;
      assert (lines + [l])[m] == lines[m];
    }
    assert (lines + [l])[|lines|] == l;
  }

  /** The nested create makes every line exactly when no product is repeated among the inputs. */
  lemma {:induction false} CreateLinesCompleteIff(products: map<ProductId, Product>, created: seq<Line>,
                                                 inputs: seq<LineInput>)
    requires InputsReferenceProducts(products, inputs)
    requires forall i :: 0 <= i < |inputs| ==> !HasLineFor(created, inputs[i].product)
    ensures CreateLines(products, created, inputs).1 <==> DistinctInputs(inputs)
    decreases |inputs|
  {
    if inputs != [] {
      var l := LineFrom(products, inputs[0]);
      var rest := inputs[1..];
      if DistinctInputs(inputs) {
        forall j | 0 <= j < |rest|
          ensures !HasLineFor(created + [l], rest[j].product)
        {
          assert rest[j] == inputs[j + 1];
          HasLineForAppend(created, l, rest[j].product);
        }
        assert DistinctInputs(rest) by {
          forall a, b | 0 <= a < |rest| && 0 <= b < |rest| && a != b
            ensures rest[a].product != rest[b].product
          {
            assert rest[a] == inputs[a + 1] && rest[b] == inputs[b + 1];
          }
        }
        CreateLinesCompleteIff(products, created + [l], rest);
      } else {
        var a, b :| 0 <= a < |inputs| && 0 <= b < |inputs| && a != b && inputs[a].product == inputs[b].product;
        if a != 0 && b != 0 {
          forall j | 0 <= j < |rest|
            ensures !HasLineFor(created + [l], rest[j].product) || rest[j].product == l.product
          {
            assert rest[j] == inputs[j + 1];
            HasLineForAppend(created, l, rest[j].product);
          }
          CreateLinesNotCompleteOnRepeat(products, created + [l], rest, a - 1, b - 1);
        } else {
          var c := if a == 0 then b else a;
          assert (created + [l])[|created|] == l;
          CreateLinesHitsProduct(products, created + [l], rest, c - 1, l.product);
        }
      }
    }
  }

  /** Two later inputs with the same product stop the loop. */
  lemma {:induction false} CreateLinesNotCompleteOnRepeat(products: map<ProductId, Product>, created: seq<Line>,
                                                         inputs: seq<LineInput>, a: nat, b: nat)
    requires InputsReferenceProducts(products, inputs)
    requires a < |inputs| && b < |inputs| && a != b && inputs[a].product == inputs[b].product
    ensures !CreateLines(products, created, inputs).1
    decreases |inputs|
  {
    if !HasLineFor(created, inputs[0].product) {
      var l := LineFrom(products, inputs[0]);
      assert (created + [l])[|created|] == l;
      if a == 0 {
        CreateLinesHitsProduct(products, created + [l], inputs[1..], b - 1, l.product);
      } else if b == 0 {
        CreateLinesHitsProduct(products, created + [l], inputs[1..], a - 1, l.product);
      } else {
        CreateLinesNotCompleteOnRepeat(products, created + [l], inputs[1..], a - 1, b - 1);
      }
    }
  }

  /** An input whose product already has a line stops the loop, at the latest when reached. */
  lemma {:induction false} CreateLinesHitsProduct(products: map<ProductId, Product>, created: seq<Line>,
                                                 inputs: seq<LineInput>, c: nat, p: ProductId)
    requires InputsReferenceProducts(products, inputs)
    requires c < |inputs| && inputs[c].product == p && HasLineFor(created, p)
    ensures !CreateLines(products, created, inputs).1
    decreases |inputs|
  {
    if !HasLineFor(created, inputs[0].product) {
      var l := LineFrom(products, inputs[0]);
      var m :| 0 <= m < |created| && created[m].product == p;
      assert (created + [l])[m] == created[m];
      if c == 0 {
        assert false;
      } else {
        CreateLinesHitsProduct(products, created + [l], inputs[1..], c - 1, p);
      }
    }
  }

  /** Adding a valid draft order whose lines reference existing products keeps the store
      consistent. */
  lemma NewDraftOrderKeepsValid(s: Store, id: OrderId, o: Order)
    requires Valid(s)
    requires id !in s.orders
    requires o.status == Draft && ValidOrder(o) && LinesReferenceProducts(s.products, o.lines)
    ensures Valid(s.(orders := s.orders[id := o]))
  {
    NewDraftReferences(s, id, o);
    NewDraftConstraints(s, id, o);
    NewDraftMatchesStatus(s, id, o);
  }

  lemma NewDraftReferences(s: Store, id: OrderId, o: Order)
    requires References(s)
    requires LinesReferenceProducts(s.products, o.lines)
    ensures References(s.(orders := s.orders[id := o]))
  {
  }

  lemma NewDraftConstraints(s: Store, id: OrderId, o: Order)
    requires Constraints(s)
    requires ValidOrder(o)
    ensures Constraints(s.(orders := s.orders[id := o]))
  {
  }

  lemma NewDraftMatchesStatus(s: Store, id: OrderId, o: Order)
    requires ReservationsMatchStatus(s)
    requires forall i :: 0 <= i < |s.reservations| ==> s.reservations[i].order in s.orders
    requires id !in s.orders && o.status == Draft
    ensures ReservationsMatchStatus(s.(orders := s.orders[id := o]))
  {
    LifecycleProperties.RowsOfNone(s.reservations, id);
  }

  /** Lines built from distinct, valid inputs over existing products form a valid line set. */
  lemma LinesFromValid(products: map<ProductId, Product>, inputs: seq<LineInput>)
    requires InputsReferenceProducts(products, inputs)
    requires forall i :: 0 <= i < |inputs| ==> ValidLine(LineFrom(products, inputs[i]))
    requires DistinctInputs(inputs)
    ensures DistinctProducts(LinesFrom(products, inputs))
    ensures forall i :: 0 <= i < |inputs| ==>
              ValidLine(LinesFrom(products, inputs)[i]) && LinesFrom(products, inputs)[i].product in products
  {
    var lines := LinesFrom(products, inputs);
    forall i, j | 0 <= i < |lines| && 0 <= j < |lines| && i != j
      ensures lines[i].product != lines[j].product
    {
      assert lines[i].product == inputs[i].product && lines[j].product == inputs[j].product;
    }
  }

  /** A nested create without repeated products keeps the store consistent when the new
      order's lines are valid. */
  lemma CreateOrderPreservesValid(s: Store, id: OrderId, customer: CustomerId, notes: Option<string>,
                                  inputs: seq<LineInput>, token: string)
    requires Valid(s)
    requires id !in s.orders
    requires InputsReferenceProducts(s.products, inputs)
    requires forall i :: 0 <= i < |inputs| ==> ValidLine(LineFrom(s.products, inputs[i]))
    requires DistinctInputs(inputs)
    ensures CreateOrder(s, id, customer, notes, inputs, token).complete
    ensures Valid(CreateOrder(s, id, customer, notes, inputs, token).store)
  {
    CreateLinesCompleteIff(s.products, [], inputs);
    LinesFromValid(s.products, inputs);
    var r := CreateOrder(s, id, customer, notes, inputs, token);
    var o := r.store.orders[id];
    assert o.lines == LinesFrom(s.products, inputs);
    assert r.store == s.(orders := s.orders[id := o]);
    NewDraftOrderKeepsValid(s, id, o);
  }
}
