/**
 * `summarize_by_customer` (Task2/order_processor.py): the accepted order
 * lines folded, one by one, into a dictionary of per-customer summaries.
 * The dictionary is modelled by its keys in insertion order and a map from
 * key to summary; the summaries are values, since the dictionary owns them
 * and nothing else can see one being updated.
 */
module OrderSummary {
  import opened Money
  import opened Orders
  import opened OrderDates

  /** The dictionary of summaries: its keys in the order they were inserted, and its entries. */
  datatype Summaries = Summaries(customers: seq<string>, entries: map<string, CustomerSummary>)
  {
    /** Each key is listed once, the listed keys are the keys, and each entry is filed under its own customer. */
    predicate Valid()
    {
      && (forall i, j :: 0 <= i < j < |customers| ==> customers[i] != customers[j])
      && (forall i :: 0 <= i < |customers| ==> customers[i] in entries)
      && (forall c :: c in entries ==> c in customers)
      && (forall c :: c in entries ==> entries[c].customer == c)
    }
  }

  /** The summary a customer starts from when first seen. */
  function EmptySummary(customer: string): CustomerSummary
  {
    CustomerSummary(customer, {}, 0, 0, 0)
  }

  /**
   * A summary with one more line of its customer: the order id joins the
   * set, the quantity the items, the line total the gross and the
   * discount the discounts. Amounts in whole cents add up exactly, so the
   * `quantize` after each sum changes nothing below 10^28 cents.
   */
  function Grow(s: CustomerSummary, ol: OrderLine): CustomerSummary
  {
    s.(orderIds := s.orderIds + {ol.orderId},
       totalItems := s.totalItems + ol.quantity,
       grossTotal := s.grossTotal + ol.LineTotal(),
       discountTotal := s.discountTotal + ol.Discount())
  }

  /** One iteration of the loop: the line's customer is inserted if new, then its summary grows. */
  function AddLine(s: Summaries, ol: OrderLine): Summaries
  {
    var c := ol.customer;
    var before := if c in s.entries then s.entries[c] else EmptySummary(c);
    Summaries(if c in s.entries then s.customers else s.customers + [c], s.entries[c := Grow(before, ol)])
  }

  /** The dictionary after the loop has gone through `lines`. */
  function Summarize(lines: seq<OrderLine>): Summaries
  {
    if lines == [] then Summaries([], map[])
    else
      var n := |lines| - 1;
      AddLine(Summarize(lines[..n]), lines[n])
  }

  /** `summarize_by_customer`: the loop over the lines, updating the entry of each line's customer. */
  method SummarizeByCustomer(lines: seq<OrderLine>) returns (customers: seq<string>, entries: map<string, CustomerSummary>)
    ensures Summaries(customers, entries) == Summarize(lines)
  {
    customers, entries := [], map[];
    for i := 0 to |lines|
      invariant Summaries(customers, entries) == Summarize(lines[..i])
    {
      var ol := lines[i];
      if ol.customer !in entries {
        entries := entries[ol.customer := CustomerSummary(ol.customer, {}, 0, 0, 0)];
        customers := customers + [ol.customer];
      }
      var s := entries[ol.customer];
      s := s.(orderIds := s.orderIds + {ol.orderId});
      s := s.(totalItems := s.totalItems + ol.quantity);
      s := s.(grossTotal := s.grossTotal + ol.LineTotal());
      s := s.(discountTotal := s.discountTotal + ol.Discount());
      entries := entries[ol.customer := s];
      assert lines[..i + 1][..i] == lines[..i];
    }
    assert lines[..|lines|] == lines;
  }

  // Reference definitions: what a customer's summary should hold, stated over the lines directly.

  /** The lines of customer `c`, in order. */
  function LinesOf(lines: seq<OrderLine>, c: string): (r: seq<OrderLine>)
    ensures forall k :: 0 <= k < |r| ==> r[k].customer == c
  {
    if lines == [] then []
    else
      var n := |lines| - 1;
      LinesOf(lines[..n], c) + (if lines[n].customer == c then [lines[n]] else [])
  }

  /** The distinct order ids of some lines. */
  function IdsIn(lines: seq<OrderLine>): set<string>
  {
    set k | 0 <= k < |lines| :: lines[k].orderId
  }

  /** The sum of the quantities of some lines. */
  function ItemsIn(lines: seq<OrderLine>): int
  {
    if lines == [] then 0
    else
      var n := |lines| - 1;
      ItemsIn(lines[..n]) + lines[n].quantity
  }

  /** The sum of the line totals of some lines. */
  function GrossIn(lines: seq<OrderLine>): Cents
  {
    if lines == [] then 0
    else
      var n := |lines| - 1;
      GrossIn(lines[..n]) + lines[n].LineTotal()
  }

  /** The sum of the discounts of some lines. */
  function DiscountIn(lines: seq<OrderLine>): Cents
  {
    if lines == [] then 0
    else
      var n := |lines| - 1;
      DiscountIn(lines[..n]) + lines[n].Discount()
  }

  /** The customers that have at least one line. */
  function CustomersIn(lines: seq<OrderLine>): set<string>
  {
    set k | 0 <= k < |lines| :: lines[k].customer
  }

  /**
   * The summary customer `c` should get: the distinct order ids of its
   * lines, and the sums of their quantities, line totals and discounts.
   */
  function Expected(lines: seq<OrderLine>, c: string): CustomerSummary
  {
    var mine := LinesOf(lines, c);
    CustomerSummary(c, IdsIn(mine), ItemsIn(mine), GrossIn(mine), DiscountIn(mine))
  }

  lemma IdsInSnoc(lines: seq<OrderLine>, ol: OrderLine)
    ensures IdsIn(lines + [ol]) == IdsIn(lines) + {ol.orderId}
  {
    var all := lines + [ol];
    forall id | id in IdsIn(all)
      ensures id in IdsIn(lines) + {ol.orderId}
    {
      var k :| 0 <= k < |all| && all[k].orderId == id;
      if k < |lines| {
        assert all[k] == lines[k];
      }
    }
    forall id | id in IdsIn(lines)
      ensures id in IdsIn(all)
    {
      var k :| 0 <= k < |lines| && lines[k].orderId == id;
      assert all[k] == lines[k];
    }
    assert all[|lines|] == ol;
  }

  lemma CustomersInSnoc(lines: seq<OrderLine>, ol: OrderLine)
    ensures CustomersIn(lines + [ol]) == CustomersIn(lines) + {ol.customer}
  {
    var all := lines + [ol];
    forall c | c in CustomersIn(all)
      ensures c in CustomersIn(lines) + {ol.customer}
    {
      var k :| 0 <= k < |all| && all[k].customer == c;
      if k < |lines| {
        assert all[k] == lines[k];
      }
    }
    forall c | c in CustomersIn(lines)
      ensures c in CustomersIn(all)
    {
      var k :| 0 <= k < |lines| && lines[k].customer == c;
      assert all[k] == lines[k];
    }
    assert all[|lines|] == ol;
  }

  /** One more line adds its quantity, line total and discount to the sums. */
  lemma SumsSnoc(lines: seq<OrderLine>, ol: OrderLine)
    ensures ItemsIn(lines + [ol]) == ItemsIn(lines) + ol.quantity
    ensures GrossIn(lines + [ol]) == GrossIn(lines) + ol.LineTotal()
    ensures DiscountIn(lines + [ol]) == DiscountIn(lines) + ol.Discount()
  {
    assert (lines + [ol])[..|lines|] == lines;
  }

  /** One more line of customer `c` grows `c`'s expected summary by that line; other customers' stay put. */
  lemma ExpectedSnoc(lines: seq<OrderLine>, c: string)
    requires lines != []
    ensures var n := |lines| - 1;
      Expected(lines, c) == if lines[n].customer == c then Grow(Expected(lines[..n], c), lines[n]) else Expected(lines[..n], c)
  {
    var n := |lines| - 1;
    var ol := lines[n];
    var mine := LinesOf(lines[..n], c);
    if ol.customer == c {
      var grown := mine + [ol];
      assert LinesOf(lines, c) == grown;
      IdsInSnoc(mine, ol);
      SumsSnoc(mine, ol);
    } else {
      assert LinesOf(lines, c) == mine + [] == mine;
    }
  }

  /** A customer with no lines is expected to have the empty summary. */
  lemma {:induction false} ExpectedAbsent(lines: seq<OrderLine>, c: string)
    requires c !in CustomersIn(lines)
    ensures Expected(lines, c) == EmptySummary(c)
  {
    if lines != [] {
      var n := |lines| - 1;
      CustomersInSnoc(lines[..n], lines[n]);
      assert lines[..n] + [lines[n]] == lines;
      ExpectedAbsent(lines[..n], c);
      ExpectedSnoc(lines, c);
    }
  }

  /** Adding a line keeps the dictionary well formed. */
  lemma AddLineValid(s: Summaries, ol: OrderLine)
    requires s.Valid()
    ensures AddLine(s, ol).Valid()
  {
    var r := AddLine(s, ol);
    if ol.customer !in s.entries {
      forall i, j | 0 <= i < j < |r.customers|
        ensures r.customers[i] != r.customers[j]
      {
        if j == |s.customers| {
          assert r.customers[j] == ol.customer;
          assert r.customers[i] == s.customers[i];
        }
      }
    }
  }

  /** The dictionary built from any lines is well formed. */
  lemma {:induction false} SummarizeValid(lines: seq<OrderLine>)
    ensures Summarize(lines).Valid()
  {
    if lines != [] {
      var n := |lines| - 1;
      SummarizeValid(lines[..n]);
      AddLineValid(Summarize(lines[..n]), lines[n]);
    }
  }

  /**
   * The dictionary has an entry exactly for the customers that have a
   * line, and each entry holds the customer's distinct order ids and the
   * sums of its quantities, line totals and discounts.
   */
  lemma {:induction false} SummarizeEntries(lines: seq<OrderLine>)
    ensures forall c :: c in Summarize(lines).entries <==> c in CustomersIn(lines)
    ensures forall c :: c in Summarize(lines).entries ==> Summarize(lines).entries[c] == Expected(lines, c)
  {
    if lines != [] {
      var n := |lines| - 1;
      var prefix, ol := lines[..n], lines[n];
      SummarizeEntries(prefix);
      assert prefix + [ol] == lines;
      CustomersInSnoc(prefix, ol);
      var s := Summarize(prefix);
      forall c | c in Summarize(lines).entries
        ensures Summarize(lines).entries[c] == Expected(lines, c)
      {
        ExpectedSnoc(lines, c);
        if c == ol.customer && c !in s.entries {
          ExpectedAbsent(prefix, c);
        }
      }
    }
  }

  /** An order id already counted does not count again; a new one adds one order. */
  lemma GrowCountsDistinct(s: CustomerSummary, ol: OrderLine)
    ensures ol.orderId in s.orderIds ==> Grow(s, ol).NumOrders() == s.NumOrders()
    ensures ol.orderId !in s.orderIds ==> Grow(s, ol).NumOrders() == s.NumOrders() + 1
  {
    if ol.orderId in s.orderIds {
      assert s.orderIds + {ol.orderId} == s.orderIds;
    }
  }

  /** A customer's summary as the report sees it. */
  lemma SummaryOfCustomer(lines: seq<OrderLine>, c: string)
    requires c in CustomersIn(lines)
    ensures c in Summarize(lines).entries
    ensures var s := Summarize(lines).entries[c];
      && s.NumOrders() == |IdsIn(LinesOf(lines, c))|
      && s.totalItems == ItemsIn(LinesOf(lines, c))
      && s.grossTotal == GrossIn(LinesOf(lines, c))
      && s.discountTotal == DiscountIn(LinesOf(lines, c))
      && s.NetTotal() == GrossIn(LinesOf(lines, c)) - DiscountIn(LinesOf(lines, c))
  {
    SummarizeEntries(lines);
  }

  // Totals over the summaries, and their conservation.

  /** The four summed columns of the report. */
  datatype Totals = Totals(orders: int, items: int, gross: Cents, discount: Cents)
  {
    function Plus(other: Totals): Totals
    {
      Totals(orders + other.orders, items + other.items, gross + other.gross, discount + other.discount)
    }
  }

  /** A summary's contribution to the grand totals. */
  function TotalsOf(s: CustomerSummary): Totals
  {
    Totals(s.NumOrders(), s.totalItems, s.grossTotal, s.discountTotal)
  }

  /** The column sums over some summaries. */
  function SumRows(rows: seq<CustomerSummary>): Totals
  {
    if rows == [] then Totals(0, 0, 0, 0)
    else
      var n := |rows| - 1;
      SumRows(rows[..n]).Plus(TotalsOf(rows[n]))
  }

  /** `summaries.values()`: the entries in the order their keys were inserted. */
  function Rows(s: Summaries): (rows: seq<CustomerSummary>)
    requires s.Valid()
    ensures |rows| == |s.customers|
    ensures forall k :: 0 <= k < |rows| ==> rows[k] == s.entries[s.customers[k]]
  {
    seq(|s.customers|, k requires 0 <= k < |s.customers| => s.entries[s.customers[k]])
  }

  /** Replacing one summary changes the column sums by the difference. */
  lemma {:induction false} SumRowsUpdate(rows: seq<CustomerSummary>, k: nat, x: CustomerSummary)
    requires k < |rows|
    ensures SumRows(rows[k := x]).Plus(TotalsOf(rows[k])) == SumRows(rows).Plus(TotalsOf(x))
  {
    var n := |rows| - 1;
    var updated := rows[k := x];
    assert updated[..n] == if k < n then rows[..n][k := x] else rows[..n];
    if k < n {
      SumRowsUpdate(rows[..n], k, x);
    }
  }

  lemma SumRowsSnoc(rows: seq<CustomerSummary>, x: CustomerSummary)
    ensures SumRows(rows + [x]) == SumRows(rows).Plus(TotalsOf(x))
  {
    assert (rows + [x])[..|rows|] == rows;
  }

  /** Adding a line of a known customer replaces that customer's row in place. */
  lemma RowsAfterKnown(s: Summaries, ol: OrderLine, k: nat)
    requires s.Valid() && k < |s.customers| && s.customers[k] == ol.customer
    ensures AddLine(s, ol).Valid()
    ensures Rows(AddLine(s, ol)) == Rows(s)[k := Grow(Rows(s)[k], ol)]
  {
    AddLineValid(s, ol);
  }

  /** Adding a line of a new customer appends a row. */
  lemma RowsAfterNew(s: Summaries, ol: OrderLine)
    requires s.Valid() && ol.customer !in s.entries
    ensures AddLine(s, ol).Valid()
    ensures Rows(AddLine(s, ol)) == Rows(s) + [Grow(EmptySummary(ol.customer), ol)]
  {
    AddLineValid(s, ol);
  }

  /** Adding a line adds its quantity, line total and discount to the column sums. */
  lemma AddLineTotals(s: Summaries, ol: OrderLine)
    requires s.Valid()
    ensures AddLine(s, ol).Valid()
    ensures var before, after := SumRows(Rows(s)), SumRows(Rows(AddLine(s, ol)));
      && after.items == before.items + ol.quantity
      && after.gross == before.gross + ol.LineTotal()
      && after.discount == before.discount + ol.Discount()
  {
    var c := ol.customer;
    if c in s.entries {
      var k :| 0 <= k < |s.customers| && s.customers[k] == c;
      RowsAfterKnown(s, ol, k);
      SumRowsUpdate(Rows(s), k, Grow(Rows(s)[k], ol));
    } else {
      RowsAfterNew(s, ol);
      SumRowsSnoc(Rows(s), Grow(EmptySummary(c), ol));
    }
  }

  /**
   * Nothing is lost or counted twice: the summaries' items, gross and
   * discounts add up to the quantities, line totals and discounts of all
   * the lines.
   */
  lemma {:induction false} SummariesConserveTotals(lines: seq<OrderLine>)
    ensures Summarize(lines).Valid()
    ensures var t := SumRows(Rows(Summarize(lines)));
      t.items == ItemsIn(lines) && t.gross == GrossIn(lines) && t.discount == DiscountIn(lines)
  {
    if lines != [] {
      var n := |lines| - 1;
      SummariesConserveTotals(lines[..n]);
      AddLineTotals(Summarize(lines[..n]), lines[n]);
    }
  }

  /** The dictionary after one more line. */
  lemma SummarizeSnoc(lines: seq<OrderLine>, ol: OrderLine)
    ensures Summarize(lines + [ol]) == AddLine(Summarize(lines), ol)
  {
    assert (lines + [ol])[..|lines|] == lines;
  }

  /** Alice's first line, $20.00 with no discount, starts her summary. */
  lemma AliceFirst(a1: OrderLine)
    requires a1 == OrderLine("A1", "Alice", "Item1", 2, 1000, a1.orderDate)
    ensures AddLine(Summaries([], map[]), a1)
      == Summaries(["Alice"], map["Alice" := CustomerSummary("Alice", {"A1"}, 2, 2000, 0)])
  {
    assert a1.LineTotal() == 2000 && a1.Discount() == 0;
    assert {} + {"A1"} == {"A1"};
    assert [] + ["Alice"] == ["Alice"];
  }

  /** Alice's second line, $600.00 with $60.00 off, grows her summary. */
  lemma AliceSecond(a2: OrderLine)
    requires a2 == OrderLine("A2", "Alice", "Item2", 1, 60000, a2.orderDate)
    ensures AddLine(Summaries(["Alice"], map["Alice" := CustomerSummary("Alice", {"A1"}, 2, 2000, 0)]), a2)
      == Summaries(["Alice"], map["Alice" := CustomerSummary("Alice", {"A1", "A2"}, 3, 62000, 6000)])
  {
    assert a2.Discount() == 6000 by {
      assert RoundHalfUp(600000, 100) == 6000;
    }
    assert {"A1"} + {"A2"} == {"A1", "A2"};
  }

  /** Bob's line, $15.00 with no discount, adds his summary after Alice's. */
  lemma BobFirst(b1: OrderLine, alice: CustomerSummary)
    requires b1 == OrderLine("B1", "Bob", "Item3", 3, 500, b1.orderDate)
    ensures AddLine(Summaries(["Alice"], map["Alice" := alice]), b1)
      == Summaries(["Alice", "Bob"], map["Alice" := alice, "Bob" := CustomerSummary("Bob", {"B1"}, 3, 1500, 0)])
  {
    assert b1.LineTotal() == 1500 && b1.Discount() == 0;
    assert "Alice" != "Bob" by {
      assert "Alice"[0] != "Bob"[0];
    }
    assert {} + {"B1"} == {"B1"};
  }

  /** The dictionary the three lines below build. */
  const AliceAndBobEntries: map<string, CustomerSummary> :=
    map["Alice" := CustomerSummary("Alice", {"A1", "A2"}, 3, 62000, 6000),
        "Bob" := CustomerSummary("Bob", {"B1"}, 3, 1500, 0)]

  /** Alice's two lines, then Bob's, build that dictionary with Alice's key first. */
  lemma AliceThenBob(a1: OrderLine, a2: OrderLine, b1: OrderLine)
    requires a1 == OrderLine("A1", "Alice", "Item1", 2, 1000, a1.orderDate)
    requires a2 == OrderLine("A2", "Alice", "Item2", 1, 60000, a2.orderDate)
    requires b1 == OrderLine("B1", "Bob", "Item3", 3, 500, b1.orderDate)
    ensures Summarize([a1, a2, b1]) == Summaries(["Alice", "Bob"], AliceAndBobEntries)
  {
    SummarizeSnoc([], a1);
    SummarizeSnoc([a1], a2);
    SummarizeSnoc([a1, a2], b1);
    assert [] + [a1] == [a1] && [a1] + [a2] == [a1, a2] && [a1, a2] + [b1] == [a1, a2, b1];
    AliceFirst(a1);
    AliceSecond(a2);
    BobFirst(b1, CustomerSummary("Alice", {"A1", "A2"}, 3, 62000, 6000));
  }

  /** What the report reads from that dictionary. */
  lemma AliceAndBobRead()
    ensures AliceAndBobEntries.Keys == {"Alice", "Bob"}
    ensures AliceAndBobEntries["Alice"].NumOrders() == 2 && AliceAndBobEntries["Alice"].NetTotal() == 56000
    ensures AliceAndBobEntries["Bob"].NumOrders() == 1 && AliceAndBobEntries["Bob"].NetTotal() == 1500
  {
    assert "Alice" != "Bob" by {
      assert "Alice"[0] != "Bob"[0];
    }
    assert |{"A1", "A2"}| == 2 by {
      assert "A1"[1] != "A2"[1];
    }
  }

  /**
   * Two lines of Alice ($20.00, and $600.00 with $60.00 off) and one of
   * Bob ($15.00): Alice has 2 orders, 3 items, $620.00 gross, $60.00
   * discount and $560.00 net; Bob has 1 order, 3 items and $15.00 with no
   * discount.
   */
  lemma AliceAndBob(day: Date)
    ensures var s := Summarize([
        OrderLine("A1", "Alice", "Item1", 2, 1000, day),
        OrderLine("A2", "Alice", "Item2", 1, 60000, day),
        OrderLine("B1", "Bob", "Item3", 3, 500, day)]);
      && s.customers == ["Alice", "Bob"]
      && s.entries.Keys == {"Alice", "Bob"}
      && s.entries["Alice"] == CustomerSummary("Alice", {"A1", "A2"}, 3, 62000, 6000)
      && s.entries["Alice"].NumOrders() == 2 && s.entries["Alice"].NetTotal() == 56000
      && s.entries["Bob"] == CustomerSummary("Bob", {"B1"}, 3, 1500, 0)
      && s.entries["Bob"].NumOrders() == 1 && s.entries["Bob"].NetTotal() == 1500
  {
    AliceThenBob(OrderLine("A1", "Alice", "Item1", 2, 1000, day),
      OrderLine("A2", "Alice", "Item2", 1, 60000, day),
      OrderLine("B1", "Bob", "Item3", 3, 500, day));
    AliceAndBobRead();
  }

}
