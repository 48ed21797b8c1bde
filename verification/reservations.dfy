/** The reservation table of the inventory app: stock committed to one order for one product. */
module Reservations {

  type OrderId = nat
  type ProductId = nat

  /** One reservation row; both references are foreign keys. */
  datatype Reservation = Reservation(order: OrderId, product: ProductId, qty: int)

  /** The field constraint on `qty`: at least one unit. */
  predicate ValidQty(r: Reservation) {
    r.qty >= 1
  }

  predicate AllValidQty(rs: seq<Reservation>) {
    forall i :: 0 <= i < |rs| ==> ValidQty(rs[i])
  }

  /** The table-level constraint: at most one row per (order, product) pair. */
  predicate UniquePairs(rs: seq<Reservation>) {
    forall i, j :: 0 <= i < |rs| && 0 <= j < |rs| && i != j ==>
      rs[i].order != rs[j].order || rs[i].product != rs[j].product
  }

  /** Some row already reserves `product` for `order`. */
  predicate HasPair(rs: seq<Reservation>, order: OrderId, product: ProductId) {
    exists i :: 0 <= i < |rs| && rs[i].order == order && rs[i].product == product
  }

  /** No row belongs to `order`. */
  predicate NoneFor(rs: seq<Reservation>, order: OrderId) {
    forall i :: 0 <= i < |rs| ==> rs[i].order != order
  }

  /** Sum of `qty` over the rows for `product`; an empty selection sums to 0
      (the aggregate's `None` replaced by `or 0`). */
  function ReservedTotal(rs: seq<Reservation>, product: ProductId): int
    decreases |rs|
  {
    if rs == [] then 0
    else (if rs[0].product == product then rs[0].qty else 0) + ReservedTotal(rs[1..], product)
  }

  /** Number of rows for `product` (the queryset's `.count()`). */
  function ReservationCount(rs: seq<Reservation>, product: ProductId): nat
    decreases |rs|
  {
    if rs == [] then 0
    else (if rs[0].product == product then 1 else 0) + ReservationCount(rs[1..], product)
  }

  /** Sum of `qty` that `order` holds on `product`. */
  function HeldBy(rs: seq<Reservation>, order: OrderId, product: ProductId): int
    decreases |rs|
  {
    if rs == [] then 0
    else (if rs[0].order == order && rs[0].product == product then rs[0].qty else 0)
         + HeldBy(rs[1..], order, product)
  }

  /** The rows of `order` (the reverse relation `order.reservations`). */
  function RowsOf(rs: seq<Reservation>, order: OrderId): (r: seq<Reservation>)
    ensures forall i :: 0 <= i < |r| ==> r[i].order == order && r[i] in rs
    ensures forall i :: 0 <= i < |rs| && rs[i].order == order ==> rs[i] in r
    decreases |rs|
  {
    if rs == [] then []
    else if rs[0].order == order then [rs[0]] + RowsOf(rs[1..], order)
    else RowsOf(rs[1..], order)
  }

  /** `Reservation.objects.filter(order=o).delete()`, and the cascade when order `o` is
      deleted: every row of `o` goes, every other row stays, in order. */
  function DeleteForOrder(rs: seq<Reservation>, order: OrderId): (r: seq<Reservation>)
    ensures NoneFor(r, order)
    ensures forall i :: 0 <= i < |r| ==> r[i] in rs
    ensures forall i :: 0 <= i < |rs| && rs[i].order != order ==> rs[i] in r
    ensures forall o :: o != order ==> RowsOf(r, o) == RowsOf(rs, o)
    decreases |rs|
  {
    if rs == [] then []
    else if rs[0].order == order then DeleteForOrder(rs[1..], order)
    else [rs[0]] + DeleteForOrder(rs[1..], order)
  }

  /** The cascade when product `p` is deleted: every row on `p` goes, every other row stays. */
  function DeleteForProduct(rs: seq<Reservation>, product: ProductId): (r: seq<Reservation>)
    ensures forall i :: 0 <= i < |r| ==> r[i].product != product && r[i] in rs
    ensures forall i :: 0 <= i < |rs| && rs[i].product != product ==> rs[i] in r
    ensures forall p :: p != product ==> ReservedTotal(r, p) == ReservedTotal(rs, p)
    ensures ReservedTotal(r, product) == 0
    decreases |rs|
  {
    if rs == [] then []
    else if rs[0].product == product then DeleteForProduct(rs[1..], product)
    else [rs[0]] + DeleteForProduct(rs[1..], product)
  }

  /** The aggregate is additive over a split of the table. */
  lemma {:induction false} ReservedTotalConcat(a: seq<Reservation>, b: seq<Reservation>, product: ProductId)
    ensures ReservedTotal(a + b, product) == ReservedTotal(a, product) + ReservedTotal(b, product)
    decreases |a|
  {
    if a == [] {
      assert a + b == b;
    } else {
      assert (a + b)[0] == a[0];
      assert (a + b)[1..] == a[1..] + b;
      ReservedTotalConcat(a[1..], b, product);
    }
  }

  lemma {:induction false} ReservationCountConcat(a: seq<Reservation>, b: seq<Reservation>, product: ProductId)
    ensures ReservationCount(a + b, product) == ReservationCount(a, product) + ReservationCount(b, product)
    decreases |a|
  {
    if a == [] {
      assert a + b == b;
    } else {
      assert (a + b)[0] == a[0];
      assert (a + b)[1..] == a[1..] + b;
      ReservationCountConcat(a[1..], b, product);
    }
  }

  lemma {:induction false} HeldByConcat(a: seq<Reservation>, b: seq<Reservation>, order: OrderId, product: ProductId)
    ensures HeldBy(a + b, order, product) == HeldBy(a, order, product) + HeldBy(b, order, product)
    decreases |a|
  {
    if a == [] {
      assert a + b == b;
    } else {
      assert (a + b)[0] == a[0];
      assert (a + b)[1..] == a[1..] + b;
      HeldByConcat(a[1..], b, order, product);
    }
  }

  /** With no row for the product the total is 0, whatever else the table holds. */
  lemma {:induction false} ReservedTotalNoRows(rs: seq<Reservation>, product: ProductId)
    requires forall i :: 0 <= i < |rs| ==> rs[i].product != product
    ensures ReservedTotal(rs, product) == 0
    ensures ReservationCount(rs, product) == 0
    decreases |rs|
  {
    if rs != [] {
      ReservedTotalNoRows(rs[1..], product);
    }
  }

  /** With every row holding at least one unit, the reserved total is at least the number
      of rows, and so never negative. */
  lemma {:induction false} ReservedTotalAtLeastCount(rs: seq<Reservation>, product: ProductId)
    requires AllValidQty(rs)
    ensures ReservedTotal(rs, product) >= ReservationCount(rs, product) >= 0
    decreases |rs|
  {
    if rs != [] {
      ReservedTotalAtLeastCount(rs[1..], product);
    }
  }

  /** Deleting an order's rows lowers a product's total by exactly what that order held. */
  lemma {:induction false} DeleteForOrderReleases(rs: seq<Reservation>, order: OrderId, product: ProductId)
    ensures ReservedTotal(DeleteForOrder(rs, order), product)
            == ReservedTotal(rs, product) - HeldBy(rs, order, product)
    decreases |rs|
  {
    if rs != [] {
      DeleteForOrderReleases(rs[1..], order, product);
    }
  }

  /** A unique row for (order, product) is all that order holds on that product. */
  lemma {:induction false} HeldByUniqueRow(rs: seq<Reservation>, k: nat)
    requires UniquePairs(rs)
    requires k < |rs|
    ensures HeldBy(rs, rs[k].order, rs[k].product) == rs[k].qty
    decreases |rs|
  {
    var o, p := rs[k].order, rs[k].product;
    if k == 0 {
      HeldByNoRow(rs[1..], o, p);
    } else {
      assert rs[0].order != o || rs[0].product != p;
      assert rs[1..][k - 1] == rs[k];
      HeldByUniqueRow(rs[1..], k - 1);
    }
  }

  /** An order with no row on a product holds nothing of it. */
  lemma {:induction false} HeldByNoRow(rs: seq<Reservation>, order: OrderId, product: ProductId)
    requires !HasPair(rs, order, product)
    ensures HeldBy(rs, order, product) == 0
    decreases |rs|
  {
    if rs != [] {
      assert forall i :: 0 <= i < |rs[1..]| ==> rs[1..][i] == rs[i + 1];
      HeldByNoRow(rs[1..], order, product);
    }
  }
}
