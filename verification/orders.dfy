/** Sales orders and their lines: stored fields, line and order totals, and order numbering. */
module Orders {
  import opened Results
  import opened Reservations

  type CustomerId = nat

  /** The three values of the order's `status` choice field. */
  datatype Status = Draft | Confirmed | Cancelled

  /** The value stored in the status column for each status. */
  function StatusName(st: Status): string {
    match st
    case Draft => "draft"
    case Confirmed => "confirmed"
    case Cancelled => "cancelled"
  }

  /** One order line; the line's order is the order that holds it. Money is exact. */
  datatype Line = Line(product: ProductId, qty: int, unitPrice: real, discountPct: real)

  /** A sales order with its lines in retrieval order. An empty `number` is an unset one. */
  datatype Order = Order(
    number: string,
    customer: CustomerId,
    status: Status,
    notes: Option<string>,
    lines: seq<Line>)

  /** The field validators of a line: `qty >= 1`, `unit_price >= 0`, `0 <= discount_pct <= 100`. */
  predicate ValidLine(l: Line) {
    && l.qty >= 1
    && l.unitPrice >= 0.0
    && 0.0 <= l.discountPct <= 100.0
  }

  /** The `unique_together (order, product)` constraint on lines. */
  predicate DistinctProducts(lines: seq<Line>) {
    forall i, j :: 0 <= i < |lines| && 0 <= j < |lines| && i != j ==> lines[i].product != lines[j].product
  }

  /** Some line of the order is for `product`. */
  predicate HasLineFor(lines: seq<Line>, product: ProductId) {
    exists i :: 0 <= i < |lines| && lines[i].product == product
  }

  predicate ValidOrder(o: Order) {
    && (forall i :: 0 <= i < |o.lines| ==> ValidLine(o.lines[i]))
    && DistinctProducts(o.lines)
  }

  /** Line revenue after discount: quantity times unit price, scaled by the share not discounted. */
  function LineTotal(l: Line): real {
    (l.qty as real) * l.unitPrice * (1.0 - l.discountPct / 100.0)
  }

  /** The order's `total_amount`: the sum of its line totals. */
  function TotalAmount(lines: seq<Line>): real
    decreases |lines|
  {
    if lines == [] then 0.0 else LineTotal(lines[0]) + TotalAmount(lines[1..])
  }

  /** The order's `grand_total`: the total with the flat 20% surcharge, taken exactly. */
  function GrandTotal(lines: seq<Line>): real {
    TotalAmount(lines) * 6.0 / 5.0
  }

  /** A valid line's total lies between zero and its undiscounted amount. */
  lemma LineTotalBounds(l: Line)
    requires ValidLine(l)
    ensures 0.0 <= LineTotal(l) <= (l.qty as real) * l.unitPrice
  {
    var gross := (l.qty as real) * l.unitPrice;
    var factor := 1.0 - l.discountPct / 100.0;
    MulNonNegative(l.qty as real, l.unitPrice);
    ScaleBounds(gross, factor);
  }

  lemma MulNonNegative(a: real, b: real)
    requires a >= 0.0 && b >= 0.0
    ensures a * b >= 0.0
  {
  }

  /** Scaling a non-negative amount by a factor in [0, 1] keeps it between zero and itself. */
  lemma ScaleBounds(g: real, f: real)
    requires g >= 0.0 && 0.0 <= f <= 1.0
    ensures 0.0 <= g * f <= g
  {
    MulNonNegative(g, f);
    MulNonNegative(g, 1.0 - f);
    assert g * (1.0 - f) == g - g * f;
  }

  /** At discount 0 the line total is the undiscounted amount; at discount 100 it is zero. */
  lemma LineTotalEndpoints(l: Line)
    ensures l.discountPct == 0.0 ==> LineTotal(l) == (l.qty as real) * l.unitPrice
    ensures l.discountPct == 100.0 ==> LineTotal(l) == 0.0
  {
  }

  /** The order total is additive over a split of its lines. */
  lemma {:induction false} TotalAmountConcat(a: seq<Line>, b: seq<Line>)
    ensures TotalAmount(a + b) == TotalAmount(a) + TotalAmount(b)
    decreases |a|
  {
    if a == [] {
      assert a + b == b;
    } else {
      assert (a + b)[0] == a[0];
      assert (a + b)[1..] == a[1..] + b;
      TotalAmountConcat(a[1..], b);
    }
  }

  /** An order whose lines are valid never totals below zero; no lines total zero. */
  lemma {:induction false} TotalAmountNonNegative(lines: seq<Line>)
    requires forall i :: 0 <= i < |lines| ==> ValidLine(lines[i])
    ensures TotalAmount(lines) >= 0.0
    ensures GrandTotal(lines) >= TotalAmount(lines)
    decreases |lines|
  {
    if lines != [] {
      LineTotalBounds(lines[0]);
      TotalAmountNonNegative(lines[1..]);
    }
  }

  /** The generator `sum(line.line_total for line in lines)`, accumulated left to right,
      agrees with the recursive total. */
  method ComputeTotal(lines: seq<Line>) returns (total: real)
    ensures total == TotalAmount(lines)
  {
    total := 0.0;
    var i := 0;
    while i < |lines|
      invariant 0 <= i <= |lines|
      invariant total == TotalAmount(lines[..i])
    {
      TotalAmountConcat(lines[..i], [lines[i]]);
      assert lines[..i + 1] == lines[..i] + [lines[i]];
      total := total + LineTotal(lines[i]);
      i := i + 1;
    }
    assert lines[..i] == lines;
  }

  /** The worked example: 2 x 10.00 undiscounted plus 1 x 5.00 at 50% is 22.50,
      and 27.00 with the surcharge. */
  lemma WorkedExampleTotals()
    ensures TotalAmount([Line(1, 2, 10.0, 0.0), Line(2, 1, 5.0, 50.0)]) == 22.5
    ensures GrandTotal([Line(1, 2, 10.0, 0.0), Line(2, 1, 5.0, 50.0)]) == 27.0
  {
    var lines := [Line(1, 2, 10.0, 0.0), Line(2, 1, 5.0, 50.0)];
    assert lines[1..][1..] == [];
  }

  /** `save`: an order without a number is given `SO-` followed by a fresh token;
      an order that has one keeps it and is otherwise untouched. */
  function Save(o: Order, token: string): (r: Order)
    ensures r.number != ""
    ensures o.number != "" ==> r.number == o.number
    ensures o.number == "" ==> r.number == "SO-" + token
    ensures r.(number := o.number) == o
  {
    if o.number == "" then o.(number := "SO-" + token) else o
  }

  /** Saving again never changes a number once assigned, whatever token is offered. */
  lemma SaveKeepsNumber(o: Order, first: string, later: string)
    ensures Save(Save(o, first), later) == Save(o, first)
    ensures Save(Save(o, first), later).number == Save(o, first).number
  {
  }
}
