/** The `on_delete=CASCADE` behaviour of the foreign keys: deleting an order takes its lines
    and reservations with it; deleting a product takes every line and reservation on it. */
module Cascades {
  import opened Reservations
  import opened Products
  import opened Orders
  import opened Lifecycle
  import LifecycleProperties

  /** The lines that survive deleting `product`, in order. */
  function DropProductLines(lines: seq<Line>, product: ProductId): (r: seq<Line>)
    ensures forall i :: 0 <= i < |r| ==> r[i].product != product && r[i] in lines
    ensures forall i :: 0 <= i < |lines| && lines[i].product != product ==> lines[i] in r
    decreases |lines|
  {
    if lines == [] then []
    else if lines[0].product == product then DropProductLines(lines[1..], product)
    else [lines[0]] + DropProductLines(lines[1..], product)
  }

  /** Deleting order `id`. */
  function DeleteOrder(s: Store, id: OrderId): (r: Store)
    ensures id !in r.orders
    ensures forall x :: x in s.orders && x != id ==> x in r.orders && r.orders[x] == s.orders[x]
    ensures r.orders.Keys <= s.orders.Keys
    ensures r.products == s.products
    ensures NoneFor(r.reservations, id)
    ensures forall o :: o != id ==> RowsOf(r.reservations, o) == RowsOf(s.reservations, o)
  {
    s.(orders := s.orders - {id}, reservations := DeleteForOrder(s.reservations, id))
  }

  /** Deleting product `p`. */
  function DeleteProduct(s: Store, p: ProductId): (r: Store)
    ensures p !in r.products
    ensures r.products == s.products - {p}
    ensures r.orders.Keys == s.orders.Keys
    ensures forall x :: x in r.orders ==> !HasLineFor(r.orders[x].lines, p)
    ensures forall x :: x in r.orders ==> r.orders[x].(lines := s.orders[x].lines) == s.orders[x]
    ensures forall x, i :: x in r.orders && 0 <= i < |s.orders[x].lines| && s.orders[x].lines[i].product != p
                           ==> s.orders[x].lines[i] in r.orders[x].lines
    ensures forall i :: 0 <= i < |r.reservations| ==> r.reservations[i].product != p
    ensures forall q :: q != p ==> ReservedTotal(r.reservations, q) == ReservedTotal(s.reservations, q)
  {
    s.(products := s.products - {p},
       orders := map x | x in s.orders :: s.orders[x].(lines := DropProductLines(s.orders[x].lines, p)),
       reservations := DeleteForProduct(s.reservations, p))
  }

  lemma {:induction false} DropProductLinesDistinct(lines: seq<Line>, p: ProductId)
    requires DistinctProducts(lines)
    ensures DistinctProducts(DropProductLines(lines, p))
    decreases |lines|
  {
    if lines != [] {
      var rest := lines[1..];
      assert DistinctProducts(rest) by {
        forall i, j | 0 <= i < |rest| && 0 <= j < |rest| && i != j
          ensures rest[i].product != rest[j].product
        {
          assert rest[i] == lines[i + 1] && rest[j] == lines[j + 1];
        }
      }
      DropProductLinesDistinct(rest, p);
      if lines[0].product != p {
        var d := DropProductLines(rest, p);
        var r := [lines[0]] + d;
        forall k | 0 <= k < |d|
          ensures lines[0].product != d[k].product
        {
          var m :| 0 <= m < |rest| && rest[m] == d[k];
          assert lines[m + 1] == d[k];
        }
        forall i, j | 0 <= i < |r| && 0 <= j < |r| && i != j
          ensures r[i].product != r[j].product
        {
          if i > 0 && j > 0 {
            assert r[i] == d[i - 1] && r[j] == d[j - 1];
          } else if i == 0 {
            assert r[j] == d[j - 1];
          } else {
            assert r[i] == d[i - 1];
          }
        }
      }
    }
  }

  lemma {:induction false} RowsOfDeleteForProduct(rs: seq<Reservation>, o: OrderId, p: ProductId)
    ensures RowsOf(DeleteForProduct(rs, p), o) == DeleteForProduct(RowsOf(rs, o), p)
    decreases |rs|
  {
    if rs != [] {
      RowsOfDeleteForProduct(rs[1..], o, p);
      if rs[0].order == o {
        var t := RowsOf(rs[1..], o);
        assert ([rs[0]] + t)[0] == rs[0];
        assert ([rs[0]] + t)[1..] == t;
      }
      if rs[0].product != p {
        var t := DeleteForProduct(rs[1..], p);
        assert ([rs[0]] + t)[0] == rs[0];
        assert ([rs[0]] + t)[1..] == t;
      }
    }
  }

  lemma {:induction false} ExpectedDropProduct(o: OrderId, lines: seq<Line>, p: ProductId)
    ensures DeleteForProduct(Expected(o, lines), p) == Expected(o, DropProductLines(lines, p))
    decreases |lines|
  {
    if lines != [] {
      var e := Expected(o, lines);
      assert e[1..] == Expected(o, lines[1..]);
      ExpectedDropProduct(o, lines[1..], p);
      if lines[0].product != p {
        var d := DropProductLines(lines[1..], p);
        assert Expected(o, [lines[0]] + d) == [e[0]] + Expected(o, d);
      }
    }
  }

  /** Deleting an order keeps the store consistent. */
  lemma DeleteOrderPreservesValid(s: Store, id: OrderId)
    requires Valid(s)
    ensures Valid(DeleteOrder(s, id))
  {
    DeleteOrderRows(s, id);
    LifecycleProperties.DeleteForOrderUnique(s.reservations, id);
    assert References(DeleteOrder(s, id));
    assert Constraints(DeleteOrder(s, id));
    assert ReservationsMatchStatus(DeleteOrder(s, id));
  }

  /** The rows left after deleting an order reference surviving orders and keep their qty. */
  lemma DeleteOrderRows(s: Store, id: OrderId)
    requires References(s) && AllValidQty(s.reservations)
    ensures forall i :: 0 <= i < |DeleteOrder(s, id).reservations| ==>
              && DeleteOrder(s, id).reservations[i].order in DeleteOrder(s, id).orders
              && DeleteOrder(s, id).reservations[i].product in DeleteOrder(s, id).products
              && ValidQty(DeleteOrder(s, id).reservations[i])
  {
    var s' := DeleteOrder(s, id);
    forall i | 0 <= i < |s'.reservations|
      ensures s'.reservations[i].order in s'.orders && s'.reservations[i].product in s'.products
      ensures ValidQty(s'.reservations[i])
    {
      var m :| 0 <= m < |s.reservations| && s.reservations[m] == s'.reservations[i];
    }
  }

  /** The lines left after dropping product `p` reference the remaining products and stay valid. */
  lemma DroppedLinesValid(products: map<ProductId, Product>, lines: seq<Line>, p: ProductId)
    requires LinesReferenceProducts(products, lines)
    requires forall i :: 0 <= i < |lines| ==> ValidLine(lines[i])
    ensures LinesReferenceProducts(products - {p}, DropProductLines(lines, p))
    ensures forall i :: 0 <= i < |DropProductLines(lines, p)| ==> ValidLine(DropProductLines(lines, p)[i])
  {
    var d := DropProductLines(lines, p);
    forall i | 0 <= i < |d|
      ensures d[i].product in products - {p} && ValidLine(d[i])
    {
      var m :| 0 <= m < |lines| && lines[m] == d[i];
    }
  }

  /** One order after deleting product `p`: its lines still reference products and satisfy
      their constraints, and its reservations still match its status. */
  lemma DeleteProductKeepsOrder(s: Store, p: ProductId, x: OrderId)
    requires Valid(s)
    requires x in s.orders
    ensures var s' := DeleteProduct(s, p);
      && LinesReferenceProducts(s'.products, s'.orders[x].lines)
      && ValidOrder(s'.orders[x])
      && RowsOf(s'.reservations, x)
         == (if s'.orders[x].status == Confirmed then Expected(x, s'.orders[x].lines) else [])
  {
    var s' := DeleteProduct(s, p);
    var lines := s.orders[x].lines;
    assert s'.orders[x] == s.orders[x].(lines := DropProductLines(lines, p));
    DroppedLinesValid(s.products, lines, p);
    DropProductLinesDistinct(lines, p);
    RowsOfDeleteForProduct(s.reservations, x, p);
    ExpectedDropProduct(x, lines, p);
  }

  /** The surviving rows still reference existing orders and products and keep their qty. */
  lemma DeleteProductKeepsRows(rs: seq<Reservation>, p: ProductId, orders: set<OrderId>, products: set<ProductId>)
    requires forall i :: 0 <= i < |rs| ==> rs[i].order in orders && rs[i].product in products
    requires AllValidQty(rs)
    ensures forall i :: 0 <= i < |DeleteForProduct(rs, p)| ==>
              DeleteForProduct(rs, p)[i].order in orders && DeleteForProduct(rs, p)[i].product in products - {p}
    ensures AllValidQty(DeleteForProduct(rs, p))
  {
    var rs' := DeleteForProduct(rs, p);
    forall i | 0 <= i < |rs'|
      ensures rs'[i].order in orders && rs'[i].product in products - {p} && ValidQty(rs'[i])
    {
      var m :| 0 <= m < |rs| && rs[m] == rs'[i];
    }
  }

  /** Deleting a product keeps the store consistent: a confirmed order loses the line and the
      reservation for that product together. */
  lemma DeleteProductPreservesValid(s: Store, p: ProductId)
    requires Valid(s)
    ensures Valid(DeleteProduct(s, p))
  {
    var s' := DeleteProduct(s, p);
    forall x | x in s'.orders
      ensures LinesReferenceProducts(s'.products, s'.orders[x].lines)
      ensures ValidOrder(s'.orders[x])
      ensures RowsOf(s'.reservations, x)
              == (if s'.orders[x].status == Confirmed then Expected(x, s'.orders[x].lines) else [])
    {
      DeleteProductKeepsOrder(s, p, x);
    }
    DeleteProductKeepsRows(s.reservations, p, s.orders.Keys, s.products.Keys);
    DeleteForProductUnique(s.reservations, p);
    assert References(s');
    assert Constraints(s');
    assert ReservationsMatchStatus(s');
  }

  lemma {:induction false} DeleteForProductUnique(rs: seq<Reservation>, p: ProductId)
    requires UniquePairs(rs)
    ensures UniquePairs(DeleteForProduct(rs, p))
    decreases |rs|
  {
    if rs != [] {
      LifecycleProperties.UniquePairsTail(rs);
      DeleteForProductUnique(rs[1..], p);
      var rest := DeleteForProduct(rs[1..], p);
      if rs[0].product != p {
        var r := [rs[0]] + rest;
        forall k | 0 <= k < |rest|
          ensures rs[0].order != rest[k].order || rs[0].product != rest[k].product
        {
          var m :| 0 <= m < |rs[1..]| && rs[1..][m] == rest[k];
          assert rs[m + 1] == rest[k];
        }
        forall i, j | 0 <= i < |r| && 0 <= j < |r| && i != j
          ensures r[i].order != r[j].order || r[i].product != r[j].product
        {
          if i > 0 && j > 0 {
            assert r[i] == rest[i - 1] && r[j] == rest[j - 1];
          } else if i == 0 {
            assert r[j] == rest[j - 1];
          } else {
            assert r[i] == rest[i - 1];
          }
        }
      }
    }
  }
}
