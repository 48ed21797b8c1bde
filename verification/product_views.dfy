/** The product views' reports: `low_stock` and `availability`. */
module ProductViews {
  import opened Results
  import opened Seqs
  import opened Reservations
  import opened Products
  import InventoryReports

  /** `low_stock`: the listed products, in listing order, whose available quantity is
      under 10. */
  function LowStock(products: map<ProductId, Product>, ids: seq<ProductId>, rs: seq<Reservation>)
    : (r: seq<ProductId>)
    requires forall i :: 0 <= i < |ids| ==> ids[i] in products
    ensures forall id :: id in r <==> id in ids && AvailableQuantity(products[id], id, rs) < 10
    ensures SubsequenceOf(r, ids)
  {
    Filter(ids, LowOn(products, rs))
  }

  /** The selection of the products with fewer than 10 available. */
  function LowOn(products: map<ProductId, Product>, rs: seq<Reservation>): ProductId -> bool {
    (id: ProductId) => id in products && AvailableQuantity(products[id], id, rs) < 10
  }

  /** The product ids of report entries. */
  function EntryIds(es: seq<InventoryReports.StatusEntry>): (r: seq<ProductId>)
    ensures |r| == |es|
    ensures forall i :: 0 <= i < |es| ==> r[i] == es[i].productId
    decreases |es|
  {
    if es == [] then [] else [es[0].productId] + EntryIds(es[1..])
  }

  /** When an entry is under 10 exactly when its product has fewer than 10 available, the
      two selections pick the same products in the same order. */
  lemma {:induction false} SelectionsAgree(products: map<ProductId, Product>, rs: seq<Reservation>,
                                           es: seq<InventoryReports.StatusEntry>)
    requires forall i :: 0 <= i < |es| ==> (es[i].available < 10 <==> LowOn(products, rs)(es[i].productId))
    ensures EntryIds(Filter(es, InventoryReports.Below(10))) == Filter(EntryIds(es), LowOn(products, rs))
    decreases |es|
  {
    if es != [] {
      SelectionsAgree(products, rs, es[1..]);
      var ids := EntryIds(es);
      assert ids[1..] == EntryIds(es[1..]);
      var tail := Filter(es[1..], InventoryReports.Below(10));
      if es[0].available < 10 {
        assert EntryIds([es[0]] + tail)[1..] == EntryIds(tail);
      }
    }
  }

  /** At its default threshold the reservation report's low-stock list names exactly the
      products `low_stock` returns, in the same order. */
  lemma LowStockViewsAgree(products: map<ProductId, Product>, ids: seq<ProductId>, rs: seq<Reservation>)
    requires forall i :: 0 <= i < |ids| ==> ids[i] in products
    ensures EntryIds(InventoryReports.LowStockReport(products, ids, rs, None)) == LowStock(products, ids, rs)
  {
    var es := InventoryReports.Entries(products, ids, rs);
    forall i | 0 <= i < |es|
      ensures es[i].available < 10 <==> LowOn(products, rs)(es[i].productId)
    {
      assert es[i] == InventoryReports.EntryFor(products, ids[i], rs);
    }
    SelectionsAgree(products, rs, es);
    assert EntryIds(es) == ids;
  }

  datatype AvailabilityInfo = AvailabilityInfo(
    productId: ProductId,
    productName: string,
    onHand: int,
    available: int,
    reserved: int,
    forecasted: int)

  /** `availability`: on-hand and forecast as stored, available as computed, and the
      reserved quantity as their difference. */
  function Availability(products: map<ProductId, Product>, id: ProductId, rs: seq<Reservation>)
    : (r: AvailabilityInfo)
    requires id in products
    ensures r.onHand == products[id].onHand && r.forecasted == products[id].forecasted
    ensures r.available == AvailableQuantity(products[id], id, rs)
    ensures r.reserved == ReservedTotal(rs, id)
  {
    var p := products[id];
    var available := AvailableQuantity(p, id, rs);
    AvailabilityInfo(id, p.name, p.onHand, available, p.onHand - available, p.forecasted)
  }

  /** The product view and the inventory report show the same figures for a product. */
  lemma AvailabilityMatchesReport(products: map<ProductId, Product>, id: ProductId, rs: seq<Reservation>)
    requires id in products
    ensures Availability(products, id, rs).available == InventoryReports.EntryFor(products, id, rs).available
    ensures Availability(products, id, rs).reserved == InventoryReports.EntryFor(products, id, rs).totalReserved
  {
  }
}
