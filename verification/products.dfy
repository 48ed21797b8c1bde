/** The product catalogue: stored fields, their constraints, and the derived available quantity. */
module Products {
  import opened Reservations

  /** A product row. Money is an exact rational. */
  datatype Product = Product(
    name: string,
    internalReference: string,
    salesPrice: real,
    cost: real,
    onHand: int,
    forecasted: int)

  /** The `MinValueValidator(0)` on a money field. */
  predicate NonNegativeMoney(v: real) {
    v >= 0.0
  }

  /** The field constraints of a product: prices, cost and quantities are never negative. */
  predicate ValidProduct(p: Product) {
    && NonNegativeMoney(p.salesPrice)
    && NonNegativeMoney(p.cost)
    && p.onHand >= 0
    && p.forecasted >= 0
  }

  /** The `unique=True` constraint on `internal_reference` across the table. */
  predicate UniqueReferences(ps: map<ProductId, Product>) {
    forall a, b :: a in ps && b in ps && a != b ==> ps[a].internalReference != ps[b].internalReference
  }

  /** On-hand minus everything reserved for this product, by any order. */
  function AvailableQuantity(p: Product, id: ProductId, rs: seq<Reservation>): int
  {
    p.onHand - ReservedTotal(rs, id)
  }

  /** With no reservation on the product, available equals on-hand. */
  lemma AvailableWithoutReservations(p: Product, id: ProductId, rs: seq<Reservation>)
    requires forall i :: 0 <= i < |rs| ==> rs[i].product != id
    ensures AvailableQuantity(p, id, rs) == p.onHand
  {
    ReservedTotalNoRows(rs, id);
  }

  /** Reservations never push availability above on-hand. */
  lemma AvailableAtMostOnHand(p: Product, id: ProductId, rs: seq<Reservation>)
    requires AllValidQty(rs)
    ensures AvailableQuantity(p, id, rs) <= p.onHand
  {
    ReservedTotalAtLeastCount(rs, id);
  }

  /** A reservation for another product leaves this product's availability unchanged. */
  lemma AvailableIgnoresOtherProducts(p: Product, id: ProductId, rs: seq<Reservation>, r: Reservation)
    requires r.product != id
    ensures AvailableQuantity(p, id, rs + [r]) == AvailableQuantity(p, id, rs)
  {
    ReservedTotalConcat(rs, [r], id);
  }

  /** Adding a reservation of `r.qty` for this product lowers availability by exactly that. */
  lemma ReserveLowersAvailable(p: Product, id: ProductId, rs: seq<Reservation>, r: Reservation)
    requires r.product == id
    ensures AvailableQuantity(p, id, rs + [r]) == AvailableQuantity(p, id, rs) - r.qty
  {
    ReservedTotalConcat(rs, [r], id);
  }

  /** Adding a reservation and then deleting its order's rows restores availability,
      when that order held nothing before. */
  lemma ReleaseRestoresAvailable(p: Product, id: ProductId, rs: seq<Reservation>, r: Reservation)
    requires NoneFor(rs, r.order)
    ensures AvailableQuantity(p, id, DeleteForOrder(rs + [r], r.order)) == AvailableQuantity(p, id, rs)
  {
    DeleteForOrderReleases(rs + [r], r.order, id);
    HeldByConcat(rs, [r], r.order, id);
    HeldByNoRow(rs, r.order, id);
    ReservedTotalConcat(rs, [r], id);
  }
}
