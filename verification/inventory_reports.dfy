/** The reservation views' reports: `inventory_status`, one entry per product sorted by
    available quantity, and `low_stock_report`, the entries under a threshold. */
module InventoryReports {
  import opened Results
  import opened Seqs
  import opened Reservations
  import opened Products

  /** One row of the inventory report. */
  datatype StatusEntry = StatusEntry(
    productId: ProductId,
    productName: string,
    internalReference: string,
    onHand: int,
    totalReserved: int,
    available: int,
    reservationsCount: nat)

  /** The entry built for one product from the reservation table. */
  function EntryFor(products: map<ProductId, Product>, id: ProductId, rs: seq<Reservation>): (e: StatusEntry)
    requires id in products
    ensures e.productId == id
    ensures e.available == AvailableQuantity(products[id], id, rs)
    ensures e.available + e.totalReserved == products[id].onHand
    ensures e.totalReserved == ReservedTotal(rs, id) && e.reservationsCount == ReservationCount(rs, id)
  {
    var p := products[id];
    var reserved := ReservedTotal(rs, id);
    StatusEntry(id, p.name, p.internalReference, p.onHand, reserved, p.onHand - reserved, ReservationCount(rs, id))
  }

  /** The entries in the order the products are listed (`ids`). */
  function Entries(products: map<ProductId, Product>, ids: seq<ProductId>, rs: seq<Reservation>): (r: seq<StatusEntry>)
    requires forall i :: 0 <= i < |ids| ==> ids[i] in products
    ensures |r| == |ids|
    ensures forall i :: 0 <= i < |ids| ==> r[i] == EntryFor(products, ids[i], rs)
    decreases |ids|
  {
    if ids == [] then [] else [EntryFor(products, ids[0], rs)] + Entries(products, ids[1..], rs)
  }

  /** The products listed once each: `ids` enumerates the table. */
  predicate Enumerates(products: map<ProductId, Product>, ids: seq<ProductId>) {
    && (forall i :: 0 <= i < |ids| ==> ids[i] in products)
    && (forall id :: id in products ==> id in ids)
    && (forall i, j :: 0 <= i < j < |ids| ==> ids[i] != ids[j])
  }

  // ---- the sort ----

  predicate SortedByAvailable(s: seq<StatusEntry>) {
    forall i, j :: 0 <= i < j < |s| ==> s[i].available <= s[j].available
  }

  /** Places `e` before the first entry whose key is not smaller, so that it precedes the
      entries with an equal key. */
  function Insert(e: StatusEntry, t: seq<StatusEntry>): (r: seq<StatusEntry>)
    ensures |r| == |t| + 1
    ensures multiset(r) == multiset(t) + multiset{e}
    decreases |t|
  {
    if t == [] || e.available <= t[0].available then
      [e] + t
    else
      assert t == [t[0]] + t[1..];
      [t[0]] + Insert(e, t[1..])
  }

  /** No entry of `s` has an available quantity below `b`. */
  predicate AtLeast(b: int, s: seq<StatusEntry>) {
    forall i :: 0 <= i < |s| ==> b <= s[i].available
  }

  lemma {:induction false} InsertAtLeast(b: int, e: StatusEntry, t: seq<StatusEntry>)
    requires AtLeast(b, t) && b <= e.available
    ensures AtLeast(b, Insert(e, t))
    decreases |t|
  {
    if t != [] && e.available > t[0].available {
      InsertAtLeast(b, e, t[1..]);
      var rest := Insert(e, t[1..]);
      assert forall i :: 0 < i < |[t[0]] + rest| ==> ([t[0]] + rest)[i] == rest[i - 1];
    }
  }

  /** A sorted sequence is its head in front of a sorted tail bounded below by the head. */
  lemma SortedCons(x: StatusEntry, r: seq<StatusEntry>)
    ensures SortedByAvailable([x] + r) <==> AtLeast(x.available, r) && SortedByAvailable(r)
  {
    var s := [x] + r;
    assert forall i :: 0 < i < |s| ==> s[i] == r[i - 1];
    if AtLeast(x.available, r) && SortedByAvailable(r) {
      forall i, j | 0 <= i < j < |s| ensures s[i].available <= s[j].available {
        if i > 0 {
          assert s[i] == r[i - 1] && s[j] == r[j - 1];
        }
      }
    }
    if SortedByAvailable(s) {
      forall i | 0 <= i < |r| ensures x.available <= r[i].available {
        assert s[0] == x && s[i + 1] == r[i];
      }
      forall i, j | 0 <= i < j < |r| ensures r[i].available <= r[j].available {
        assert s[i + 1] == r[i] && s[j + 1] == r[j];
      }
    }
  }

  /** Inserting into a sorted sequence keeps it sorted. */
  lemma {:induction false} InsertSorted(e: StatusEntry, t: seq<StatusEntry>)
    requires SortedByAvailable(t)
    ensures SortedByAvailable(Insert(e, t))
    decreases |t|
  {
    if t == [] || e.available <= t[0].available {
      if t != [] {
        assert t == [t[0]] + t[1..];
        SortedCons(t[0], t[1..]);
        assert AtLeast(e.available, t);
      }
      SortedCons(e, t);
    } else {
      assert t == [t[0]] + t[1..];
      SortedCons(t[0], t[1..]);
      InsertSorted(e, t[1..]);
      InsertAtLeast(t[0].available, e, t[1..]);
      SortedCons(t[0], Insert(e, t[1..]));
    }
  }

  /** `list.sort(key=available)`: by insertion of each entry in front of the sorted rest. */
  function SortByAvailable(s: seq<StatusEntry>): (r: seq<StatusEntry>)
    ensures SortedByAvailable(r)
    ensures multiset(r) == multiset(s)
    ensures |r| == |s|
    decreases |s|
  {
    if s == [] then []
    else
      assert s == [s[0]] + s[1..];
      InsertSorted(s[0], SortByAvailable(s[1..]));
      Insert(s[0], SortByAvailable(s[1..]))
  }

  /** The selection of the entries with available quantity `k`. */
  function WithAvailable(k: int): StatusEntry -> bool {
    (e: StatusEntry) => e.available == k
  }

  /** Inserting in front of the entries with an equal key keeps every key's entries in
      the order they would have after `[e] + t`. */
  lemma {:induction false} InsertStable(e: StatusEntry, t: seq<StatusEntry>, k: int)
    ensures Filter(Insert(e, t), WithAvailable(k)) == Filter([e] + t, WithAvailable(k))
    decreases |t|
  {
    if t == [] || e.available <= t[0].available {
    } else {
      var rest := Insert(e, t[1..]);
      InsertStable(e, t[1..], k);
      assert ([t[0]] + rest)[0] == t[0] && ([t[0]] + rest)[1..] == rest;
      assert ([e] + t)[0] == e && ([e] + t)[1..] == t;
      assert ([e] + t[1..])[0] == e && ([e] + t[1..])[1..] == t[1..];
    }
  }

  /** The sort is stable: for every key, the entries with that key come out in the order
      they went in. */
  lemma {:induction false} SortStable(s: seq<StatusEntry>, k: int)
    ensures Filter(SortByAvailable(s), WithAvailable(k)) == Filter(s, WithAvailable(k))
    decreases |s|
  {
    if s != [] {
      SortStable(s[1..], k);
      InsertStable(s[0], SortByAvailable(s[1..]), k);
      var t := SortByAvailable(s[1..]);
      assert ([s[0]] + t)[0] == s[0] && ([s[0]] + t)[1..] == t;
    }
  }

  /** `inventory_status`. */
  function InventoryStatus(products: map<ProductId, Product>, ids: seq<ProductId>, rs: seq<Reservation>)
    : (r: seq<StatusEntry>)
    requires forall i :: 0 <= i < |ids| ==> ids[i] in products
    ensures SortedByAvailable(r)
    ensures multiset(r) == multiset(Entries(products, ids, rs))
  {
    SortByAvailable(Entries(products, ids, rs))
  }

  /** The report holds exactly one entry per product, each with its own availability. */
  lemma InventoryStatusOnePerProduct(products: map<ProductId, Product>, ids: seq<ProductId>,
                                     rs: seq<Reservation>, id: ProductId)
    requires Enumerates(products, ids)
    requires id in products
    ensures multiset(InventoryStatus(products, ids, rs))[EntryFor(products, id, rs)] == 1
    ensures forall e :: e in InventoryStatus(products, ids, rs) && e.productId == id ==> e == EntryFor(products, id, rs)
  {
    var es := Entries(products, ids, rs);
    var j :| 0 <= j < |ids| && ids[j] == id;
    EntriesCount(products, ids, rs, j);
    var r := InventoryStatus(products, ids, rs);
    forall e | e in r && e.productId == id ensures e == EntryFor(products, id, rs) {
      assert e in multiset(r);
      EntryOfItsProduct(products, ids, rs, e);
    }
  }

  /** Every entry is the one built for its own product. */
  lemma EntryOfItsProduct(products: map<ProductId, Product>, ids: seq<ProductId>, rs: seq<Reservation>,
                          e: StatusEntry)
    requires forall i :: 0 <= i < |ids| ==> ids[i] in products
    requires e in Entries(products, ids, rs)
    ensures e.productId in products && e == EntryFor(products, e.productId, rs)
  {
    var es := Entries(products, ids, rs);
    var i :| 0 <= i < |es| && es[i] == e;
    assert e == EntryFor(products, ids[i], rs);
  }

  lemma EntriesCount(products: map<ProductId, Product>, ids: seq<ProductId>,
                     rs: seq<Reservation>, j: nat)
    requires forall i :: 0 <= i < |ids| ==> ids[i] in products
    requires forall a, b :: 0 <= a < b < |ids| ==> ids[a] != ids[b]
    requires j < |ids|
    ensures multiset(Entries(products, ids, rs))[EntryFor(products, ids[j], rs)] == 1
  {
    var es := Entries(products, ids, rs);
    forall k | 0 <= k < |es| && k != j
      ensures es[k] != es[j]
    {
      assert es[k].productId == ids[k] && es[j].productId == ids[j];
      if k < j {
        assert ids[k] != ids[j];
      } else {
        assert ids[j] != ids[k];
      }
    }
    CountOnce(es, j);
  }

  // ---- low_stock_report ----

  /** The `threshold` query parameter, 10 when absent. */
  function Threshold(param: Option<int>): (t: int)
    ensures param.None? ==> t == 10
    ensures param.Some? ==> t == param.value
  {
    match param
    case Some(t) => t
    case None => 10
  }

  /** `low_stock_report`: the entries, in listing order, of the products whose available
      quantity is under the threshold. */
  function LowStockReport(products: map<ProductId, Product>, ids: seq<ProductId>, rs: seq<Reservation>,
                          param: Option<int>): (r: seq<StatusEntry>)
    requires forall i :: 0 <= i < |ids| ==> ids[i] in products
    ensures forall e :: e in r <==> e in Entries(products, ids, rs) && e.available < Threshold(param)
    ensures SubsequenceOf(r, Entries(products, ids, rs))
  {
    Filter(Entries(products, ids, rs), Below(Threshold(param)))
  }

  /** The selection of the entries under threshold `t`. */
  function Below(t: int): StatusEntry -> bool {
    (e: StatusEntry) => e.available < t
  }

  /** A product is in the report exactly when its available quantity is under the
      threshold. */
  lemma LowStockReportMembership(products: map<ProductId, Product>, ids: seq<ProductId>,
                                 rs: seq<Reservation>, param: Option<int>, id: ProductId)
    requires Enumerates(products, ids)
    requires id in products
    ensures EntryFor(products, id, rs) in LowStockReport(products, ids, rs, param)
            <==> AvailableQuantity(products[id], id, rs) < Threshold(param)
  {
    var j :| 0 <= j < |ids| && ids[j] == id;
    assert Entries(products, ids, rs)[j] == EntryFor(products, id, rs);
  }
}
