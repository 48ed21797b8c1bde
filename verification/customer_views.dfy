/** The customer views' aggregations: the `companies` list and the per-customer `stats`. */
module CustomerViews {
  import opened Seqs
  import opened Orders
  import opened Customers
  import opened SalesViews

  /** `companies`: the customers flagged as companies, in listing order. */
  function Companies(cs: seq<Customer>): (r: seq<Customer>)
    ensures forall c :: c in r <==> c in cs && c.isCompany
    ensures SubsequenceOf(r, cs)
  {
    Filter(cs, (c: Customer) => c.isCompany)
  }

  /** The selection `customer.sales_orders`. */
  function OfCustomer(key: CustomerKey): Order -> bool {
    (o: Order) => o.customer == key
  }

  /** The selection of this customer's orders with the given status. */
  function OfCustomerWithStatus(key: CustomerKey, st: Status): Order -> bool {
    (o: Order) => o.customer == key && o.status == st
  }

  datatype CustomerStats = CustomerStats(
    customerId: CustomerKey,
    customerName: string,
    totalOrders: nat,
    draftOrders: nat,
    confirmedOrders: nat,
    cancelledOrders: nat,
    totalAmount: real)

  /** `stats` for customer `key` over the order table. */
  function Stats(key: CustomerKey, c: Customer, orders: seq<Order>): (st: CustomerStats)
    ensures st.totalOrders == Count(orders, OfCustomer(key))
    ensures st.draftOrders == Count(orders, OfCustomerWithStatus(key, Draft))
    ensures st.confirmedOrders == Count(orders, OfCustomerWithStatus(key, Confirmed))
    ensures st.cancelledOrders == Count(orders, OfCustomerWithStatus(key, Cancelled))
  {
    var mine := Filter(orders, OfCustomer(key));
    FilterFilter(orders, OfCustomer(key), HasStatus(Draft), OfCustomerWithStatus(key, Draft));
    FilterFilter(orders, OfCustomer(key), HasStatus(Confirmed), OfCustomerWithStatus(key, Confirmed));
    FilterFilter(orders, OfCustomer(key), HasStatus(Cancelled), OfCustomerWithStatus(key, Cancelled));
    CustomerStats(
      key, c.name, |mine|,
      Count(mine, HasStatus(Draft)),
      Count(mine, HasStatus(Confirmed)),
      Count(mine, HasStatus(Cancelled)),
      SumTotals(mine))
  }

  /** Another customer's order changes nothing in the stats. */
  lemma StatsIgnoreOtherCustomers(key: CustomerKey, c: Customer, orders: seq<Order>, o: Order)
    requires o.customer != key
    ensures Stats(key, c, orders + [o]) == Stats(key, c, orders)
  {
    FilterConcat(orders, [o], OfCustomer(key));
    assert [o][1..] == [];
    assert Filter([o], OfCustomer(key)) == [];
    assert Filter(orders + [o], OfCustomer(key)) == Filter(orders, OfCustomer(key));
  }

  /** The per-status counts partition the customer's orders, and the total amount is the sum
      over all three statuses, cancelled orders included. */
  lemma StatsPartition(key: CustomerKey, c: Customer, orders: seq<Order>)
    ensures Stats(key, c, orders).draftOrders + Stats(key, c, orders).confirmedOrders
            + Stats(key, c, orders).cancelledOrders == Stats(key, c, orders).totalOrders
    ensures Stats(key, c, orders).totalAmount
            == SumTotals(Filter(orders, OfCustomerWithStatus(key, Draft)))
               + SumTotals(Filter(orders, OfCustomerWithStatus(key, Confirmed)))
               + SumTotals(Filter(orders, OfCustomerWithStatus(key, Cancelled)))
  {
    var mine := Filter(orders, OfCustomer(key));
    StatusPartition(mine);
    FilterFilter(orders, OfCustomer(key), HasStatus(Draft), OfCustomerWithStatus(key, Draft));
    FilterFilter(orders, OfCustomer(key), HasStatus(Confirmed), OfCustomerWithStatus(key, Confirmed));
    FilterFilter(orders, OfCustomer(key), HasStatus(Cancelled), OfCustomerWithStatus(key, Cancelled));
  }

  /** Unlike the dashboard revenue, a customer's cancelled order still adds its total to the
      customer's total amount. */
  lemma CancelledOrderCountsInStats(key: CustomerKey, c: Customer, orders: seq<Order>, o: Order)
    requires o.customer == key && o.status == Cancelled
    ensures Stats(key, c, orders + [o]).totalAmount == Stats(key, c, orders).totalAmount + TotalAmount(o.lines)
    ensures Stats(key, c, orders + [o]).cancelledOrders == Stats(key, c, orders).cancelledOrders + 1
    ensures Dashboard(orders + [o]).totalRevenue == Dashboard(orders).totalRevenue
  {
    FilterConcat(orders, [o], OfCustomer(key));
    assert [o][1..] == [];
    assert Filter([o], OfCustomer(key)) == [o];
    SumTotalsConcat(Filter(orders, OfCustomer(key)), [o]);
    FilterConcat(orders, [o], OfCustomerWithStatus(key, Cancelled));
    assert Filter([o], OfCustomerWithStatus(key, Cancelled)) == [o];
    DashboardAppend(orders, o);
  }
}
