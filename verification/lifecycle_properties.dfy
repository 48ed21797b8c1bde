/** What confirm and cancel promise: when confirm succeeds, that it is all-or-nothing, that both
    keep the store consistent, and that cancel gives back exactly what confirm took. */
module LifecycleProperties {
  import opened Results
  import opened Reservations
  import opened Products
  import opened Orders
  import opened Lifecycle

  // ---- facts about the reservation table ----

  lemma {:induction false} RowsOfConcat(a: seq<Reservation>, b: seq<Reservation>, o: OrderId)
    ensures RowsOf(a + b, o) == RowsOf(a, o) + RowsOf(b, o)
    decreases |a|
  {
    if a == [] {
      assert a + b == b;
    } else {
      assert (a + b)[0] == a[0];
      assert (a + b)[1..] == a[1..] + b;
      RowsOfConcat(a[1..], b, o);
    }
  }

  lemma {:induction false} RowsOfExpected(id: OrderId, lines: seq<Line>, o: OrderId)
    ensures RowsOf(Expected(id, lines), o) == (if o == id then Expected(id, lines) else [])
    decreases |lines|
  {
    if lines != [] {
      var e := Expected(id, lines);
      assert e[1..] == Expected(id, lines[1..]);
      RowsOfExpected(id, lines[1..], o);
    }
  }

  lemma {:induction false} DeleteForOrderConcat(a: seq<Reservation>, b: seq<Reservation>, o: OrderId)
    ensures DeleteForOrder(a + b, o) == DeleteForOrder(a, o) + DeleteForOrder(b, o)
    decreases |a|
  {
    if a == [] {
      assert a + b == b;
    } else {
      assert (a + b)[0] == a[0];
      assert (a + b)[1..] == a[1..] + b;
      DeleteForOrderConcat(a[1..], b, o);
    }
  }

  lemma {:induction false} DeleteForOrderNone(rs: seq<Reservation>, o: OrderId)
    requires NoneFor(rs, o)
    ensures DeleteForOrder(rs, o) == rs
    decreases |rs|
  {
    if rs != [] {
      DeleteForOrderNone(rs[1..], o);
    }
  }

  lemma {:induction false} DeleteForOrderAll(rs: seq<Reservation>, o: OrderId)
    requires forall i :: 0 <= i < |rs| ==> rs[i].order == o
    ensures DeleteForOrder(rs, o) == []
    decreases |rs|
  {
    if rs != [] {
      DeleteForOrderAll(rs[1..], o);
    }
  }

  lemma {:induction false} RowsOfNone(rs: seq<Reservation>, o: OrderId)
    requires NoneFor(rs, o)
    ensures RowsOf(rs, o) == []
    decreases |rs|
  {
    if rs != [] {
      RowsOfNone(rs[1..], o);
    }
  }

  lemma UniquePairsTail(rs: seq<Reservation>)
    requires UniquePairs(rs) && rs != []
    ensures UniquePairs(rs[1..])
  {
    forall i, j | 0 <= i < |rs[1..]| && 0 <= j < |rs[1..]| && i != j
      ensures rs[1..][i].order != rs[1..][j].order || rs[1..][i].product != rs[1..][j].product
    {
      assert rs[1..][i] == rs[i + 1] && rs[1..][j] == rs[j + 1];
    }
  }

  /** Deleting rows never creates a duplicate (order, product) pair. */
  lemma {:induction false} DeleteForOrderUnique(rs: seq<Reservation>, o: OrderId)
    requires UniquePairs(rs)
    ensures UniquePairs(DeleteForOrder(rs, o))
    decreases |rs|
  {
    if rs != [] {
      UniquePairsTail(rs);
      DeleteForOrderUnique(rs[1..], o);
      var rest := DeleteForOrder(rs[1..], o);
      if rs[0].order != o {
        var r := [rs[0]] + rest;
        forall k | 0 <= k < |rest|
          ensures rs[0].order != rest[k].order || rs[0].product != rest[k].product
        {
          var m :| 0 <= m < |rs[1..]| && rs[1..][m] == rest[k];
          assert rs[m + 1] == rest[k];
        }
        forall i, j | 0 <= i < |r| && 0 <= j < |r| && i != j
          ensures r[i].order != r[j].order || r[i].product != r[j].product
        {
          if i > 0 && j > 0 {
            assert r[i] == rest[i - 1] && r[j] == rest[j - 1];
          } else if i == 0 {
            assert r[j] == rest[j - 1];
          } else {
            assert r[i] == rest[i - 1];
          }
        }
      }
    }
  }

  lemma HasPairAppend(rows: seq<Reservation>, r: Reservation, o: OrderId, p: ProductId)
    ensures HasPair(rows + [r], o, p) <==> HasPair(rows, o, p) || (r.order == o && r.product == p)
  {
    if HasPair(rows + [r], o, p) {
      var i :| 0 <= i < |rows + [r]| && (rows + [r])[i].order == o && (rows + [r])[i].product == p;
      if i < |rows| {
        assert rows[i] == (rows + [r])[i];
      }
    }
    if HasPair(rows, o, p) {
      var i :| 0 <= i < |rows| && rows[i].order == o && rows[i].product == p;
      assert (rows + [r])[i] == rows[i];
    }
    assert (rows + [r])[|rows|] == r;
  }

  /** A consistent store holds no reservation for an order that is not confirmed. */
  lemma NoRowsUnlessConfirmed(s: Store, id: OrderId, p: ProductId)
    requires Valid(s)
    requires id in s.orders && s.orders[id].status != Confirmed
    ensures NoneFor(s.reservations, id)
    ensures !HasPair(s.reservations, id, p)
  {
    assert RowsOf(s.reservations, id) == [];
  }

  // ---- confirm ----

  /** With distinct line products and no earlier row for this order, the loop gets through every
      line exactly when each line's product has enough stock in the table as it was before the
      loop; when it stops, it names a product that was short. */
  lemma {:induction false} ReserveLinesSucceedsIff(products: map<ProductId, Product>, rows: seq<Reservation>,
                                                  order: OrderId, lines: seq<Line>)
    requires LinesReferenceProducts(products, lines)
    requires DistinctProducts(lines)
    requires forall i :: 0 <= i < |lines| ==> !HasPair(rows, order, lines[i].product)
    ensures ReserveLines(products, rows, order, lines).failure.None?
            <==> forall i :: 0 <= i < |lines| ==> Sufficient(products, rows, lines[i])
    ensures ReserveLines(products, rows, order, lines).failure.Some? ==>
            exists i :: 0 <= i < |lines| && !Sufficient(products, rows, lines[i])
                        && ReserveLines(products, rows, order, lines).failure.value
                           == InsufficientStock(products[lines[i].product].name)
    decreases |lines|
  {
    if lines != [] {
      var l := lines[0];
      if Sufficient(products, rows, l) {
        var r := Reservation(order, l.product, l.qty);
        var rest := lines[1..];
        forall j | 0 <= j < |rest|
          ensures !HasPair(rows + [r], order, rest[j].product)
          ensures Sufficient(products, rows + [r], rest[j]) <==> Sufficient(products, rows, rest[j])
        {
          assert rest[j] == lines[j + 1];
          HasPairAppend(rows, r, order, rest[j].product);
          AvailableIgnoresOtherProducts(products[rest[j].product], rest[j].product, rows, r);
        }
        assert DistinctProducts(rest) by {
          forall i, j | 0 <= i < |rest| && 0 <= j < |rest| && i != j
            ensures rest[i].product != rest[j].product
          {
            assert rest[i] == lines[i + 1] && rest[j] == lines[j + 1];
          }
        }
        ReserveLinesSucceedsIff(products, rows + [r], order, rest);
        var a := ReserveLines(products, rows + [r], order, rest);
        assert ReserveLines(products, rows, order, lines) == a;
        if a.failure.Some? {
          var i :| 0 <= i < |rest| && !Sufficient(products, rows + [r], rest[i])
                   && a.failure.value == InsufficientStock(products[rest[i].product].name);
          assert lines[i + 1] == rest[i];
        } else {
          forall i | 0 <= i < |lines|
            ensures Sufficient(products, rows, lines[i])
          {
            if i > 0 {
              assert lines[i] == rest[i - 1];
            }
          }
        }
      }
    }
  }

  /** On a consistent store, confirming a draft order succeeds exactly when every line's product
      has at least the line's qty available; a failure names a product that was short. */
  lemma ConfirmSucceedsIff(s: Store, id: OrderId)
    requires Valid(s)
    requires id in s.orders && s.orders[id].status == Draft
    ensures ConfirmOrder(s, id).Ok? <==>
            forall i :: 0 <= i < |s.orders[id].lines| ==> Sufficient(s.products, s.reservations, s.orders[id].lines[i])
    ensures ConfirmOrder(s, id).Err? ==>
            exists i :: 0 <= i < |s.orders[id].lines|
                        && !Sufficient(s.products, s.reservations, s.orders[id].lines[i])
                        && ConfirmOrder(s, id).error == InsufficientStock(s.products[s.orders[id].lines[i].product].name)
  {
    var lines := s.orders[id].lines;
    forall i | 0 <= i < |lines|
      ensures !HasPair(s.reservations, id, lines[i].product)
    {
      NoRowsUnlessConfirmed(s, id, lines[i].product);
    }
    ReserveLinesSucceedsIff(s.products, s.reservations, id, lines);
  }

  /** All or nothing: if some line is short, confirm fails, the order stays draft and the store
      holds no reservation for it, although the loop may already have written rows. */
  lemma ConfirmShortLineLeavesNothing(s: Store, id: OrderId, k: nat)
    requires Valid(s)
    requires id in s.orders && s.orders[id].status == Draft
    requires k < |s.orders[id].lines| && !Sufficient(s.products, s.reservations, s.orders[id].lines[k])
    ensures ConfirmOrder(s, id).Err?
    ensures StateAfter(s, ConfirmOrder(s, id)) == s
    ensures StateAfter(s, ConfirmOrder(s, id)).orders[id].status == Draft
    ensures NoneFor(StateAfter(s, ConfirmOrder(s, id)).reservations, id)
  {
    ConfirmSucceedsIff(s, id);
    NoRowsUnlessConfirmed(s, id, 0);
  }

  /** A draft order without lines confirms, reserving nothing. */
  lemma ConfirmEmptyOrder(s: Store, id: OrderId)
    requires References(s)
    requires id in s.orders && s.orders[id].status == Draft && s.orders[id].lines == []
    ensures ConfirmOrder(s, id).Ok?
    ensures ConfirmOrder(s, id).value.reservations == s.reservations
    ensures ConfirmOrder(s, id).value.orders[id].status == Confirmed
  {
  }

  /** The store a successful confirm produces. */
  function AfterConfirm(s: Store, id: OrderId): Store
    requires id in s.orders
  {
    s.(reservations := s.reservations + Expected(id, s.orders[id].lines),
       orders := s.orders[id := s.orders[id].(status := Confirmed)])
  }

  /** The store a successful cancel produces. */
  function AfterCancel(s: Store, id: OrderId): Store
    requires id in s.orders
  {
    s.(reservations := DeleteForOrder(s.reservations, id),
       orders := s.orders[id := s.orders[id].(status := Cancelled)])
  }

  lemma ConfirmedReferences(s: Store, id: OrderId)
    requires References(s) && Constraints(s)
    requires id in s.orders
    ensures References(AfterConfirm(s, id))
    ensures AllValidQty(AfterConfirm(s, id).reservations)
  {
    var o := s.orders[id];
    var e := Expected(id, o.lines);
    var rs := s.reservations;
    var all: seq<Reservation> := rs + e;
    forall i | 0 <= i < |all|
      ensures all[i].order in AfterConfirm(s, id).orders && all[i].product in s.products
      ensures ValidQty(all[i])
    {
      if i < |rs| {
        assert all[i] == rs[i];
      } else {
        assert all[i] == e[i - |rs|];
        assert ValidLine(o.lines[i - |rs|]);
      }
    }
  }

  lemma ConfirmedUnique(s: Store, id: OrderId)
    requires UniquePairs(s.reservations) && NoneFor(s.reservations, id)
    requires id in s.orders && DistinctProducts(s.orders[id].lines)
    ensures UniquePairs(AfterConfirm(s, id).reservations)
  {
    var o := s.orders[id];
    var e := Expected(id, o.lines);
    var rs := s.reservations;
    var all: seq<Reservation> := rs + e;
    forall i, j | 0 <= i < |all| && 0 <= j < |all| && i != j
      ensures all[i].order != all[j].order || all[i].product != all[j].product
    {
      if i < |rs| && j < |rs| {
        assert all[i] == rs[i] && all[j] == rs[j];
      } else if i >= |rs| && j >= |rs| {
        assert all[i] == e[i - |rs|] && all[j] == e[j - |rs|];
      } else if i < |rs| {
        assert all[i] == rs[i] && all[j] == e[j - |rs|];
      } else {
        assert all[j] == rs[j] && all[i] == e[i - |rs|];
      }
    }
  }

  lemma ConfirmedMatchesStatus(s: Store, id: OrderId)
    requires ReservationsMatchStatus(s)
    requires id in s.orders && NoneFor(s.reservations, id)
    ensures ReservationsMatchStatus(AfterConfirm(s, id))
  {
    var s' := AfterConfirm(s, id);
    var e := Expected(id, s.orders[id].lines);
    forall x | x in s'.orders
      ensures RowsOf(s'.reservations, x)
              == (if s'.orders[x].status == Confirmed then Expected(x, s'.orders[x].lines) else [])
    {
      RowsOfConcat(s.reservations, e, x);
      RowsOfExpected(id, s.orders[id].lines, x);
      if x == id {
        assert RowsOf(s.reservations, id) == [];
      }
    }
  }

  /** Confirming keeps the store consistent. */
  lemma ConfirmPreservesValid(s: Store, id: OrderId)
    requires Valid(s)
    ensures Valid(StateAfter(s, ConfirmOrder(s, id)))
  {
    var r := ConfirmOrder(s, id);
    if r.Ok? {
      var s' := AfterConfirm(s, id);
      assert r.value == s';
      NoRowsUnlessConfirmed(s, id, 0);
      ConfirmedReferences(s, id);
      ConfirmedUnique(s, id);
      ConfirmedMatchesStatus(s, id);
      StatusChangeKeepsOrdersValid(s.orders, id, Confirmed, s'.orders);
      assert Constraints(s');
    }
  }

  lemma CancelledReferences(s: Store, id: OrderId)
    requires References(s) && AllValidQty(s.reservations)
    requires id in s.orders
    ensures References(AfterCancel(s, id))
    ensures AllValidQty(AfterCancel(s, id).reservations)
  {
    var rs' := AfterCancel(s, id).reservations;
    forall i | 0 <= i < |rs'|
      ensures rs'[i].order in s.orders && rs'[i].product in s.products
      ensures ValidQty(rs'[i])
    {
      var m :| 0 <= m < |s.reservations| && s.reservations[m] == rs'[i];
    }
  }

  lemma CancelledMatchesStatus(s: Store, id: OrderId)
    requires ReservationsMatchStatus(s)
    requires id in s.orders
    ensures ReservationsMatchStatus(AfterCancel(s, id))
  {
    var s' := AfterCancel(s, id);
    RowsOfNone(s'.reservations, id);
  }

  /** Changing one order's status keeps every order's field constraints. */
  lemma StatusChangeKeepsOrdersValid(orders: map<OrderId, Order>, id: OrderId, st: Status,
                                     orders': map<OrderId, Order>)
    requires forall x :: x in orders ==> ValidOrder(orders[x])
    requires id in orders && orders' == orders[id := orders[id].(status := st)]
    ensures forall x :: x in orders' ==> ValidOrder(orders'[x])
  {
  }

  /** Cancelling keeps the store consistent. */
  lemma CancelPreservesValid(s: Store, id: OrderId)
    requires Valid(s)
    ensures Valid(StateAfter(s, CancelOrder(s, id)))
  {
    var r := CancelOrder(s, id);
    if r.Ok? {
      var s' := AfterCancel(s, id);
      assert r.value == s';
      DeleteForOrderUnique(s.reservations, id);
      CancelledReferences(s, id);
      CancelledMatchesStatus(s, id);
      StatusChangeKeepsOrdersValid(s.orders, id, Cancelled, s'.orders);
      assert Constraints(s');
    }
  }

  /** Cancelling returns to every product exactly the quantity the order held on it; for a
      product on one of the order's lines that is the line's qty. */
  lemma CancelReleasesStock(s: Store, id: OrderId, p: ProductId)
    requires Valid(s)
    requires CancelOrder(s, id).Ok?
    requires p in s.products
    ensures AvailableQuantity(s.products[p], p, CancelOrder(s, id).value.reservations)
            == AvailableQuantity(s.products[p], p, s.reservations) + HeldBy(s.reservations, id, p)
    ensures forall k :: 0 <= k < |s.orders[id].lines| && s.orders[id].lines[k].product == p ==>
              HeldBy(s.reservations, id, p) == s.orders[id].lines[k].qty
  {
    DeleteForOrderReleases(s.reservations, id, p);
    var lines := s.orders[id].lines;
    forall k | 0 <= k < |lines| && lines[k].product == p
      ensures HeldBy(s.reservations, id, p) == lines[k].qty
    {
      var e := Expected(id, lines);
      assert RowsOf(s.reservations, id) == e;
      assert e[k] in RowsOf(s.reservations, id);
      var m :| 0 <= m < |s.reservations| && s.reservations[m] == e[k];
      HeldByUniqueRow(s.reservations, m);
    }
  }

  /** Confirm and then cancel: the reservation table is back to what it was, and the order
      ends cancelled. */
  lemma ConfirmThenCancel(s: Store, id: OrderId)
    requires Valid(s)
    requires ConfirmOrder(s, id).Ok?
    ensures CancelOrder(ConfirmOrder(s, id).value, id).Ok?
    ensures CancelOrder(ConfirmOrder(s, id).value, id).value.reservations == s.reservations
    ensures CancelOrder(ConfirmOrder(s, id).value, id).value.orders
            == s.orders[id := s.orders[id].(status := Cancelled)]
  {
    var s1 := ConfirmOrder(s, id).value;
    assert s1 == AfterConfirm(s, id);
    assert CancelOrder(s1, id).value == AfterCancel(s1, id);
    var e := Expected(id, s.orders[id].lines);
    NoRowsUnlessConfirmed(s, id, 0);
    DeleteForOrderConcat(s.reservations, e, id);
    DeleteForOrderNone(s.reservations, id);
    DeleteForOrderAll(e, id);
    assert s.reservations + [] == s.reservations;
  }

  /** A cancelled order can be neither confirmed nor cancelled again. */
  lemma CancelledIsTerminal(s: Store, id: OrderId)
    requires References(s)
    requires id in s.orders && s.orders[id].status == Cancelled
    ensures ConfirmOrder(s, id) == Err(NotDraft)
    ensures CancelOrder(s, id) == Err(NotConfirmed)
  {
  }
}
