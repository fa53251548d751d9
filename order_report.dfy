/**
 * `format_report` (Task2/order_processor.py) without its text layout: the
 * summaries sorted by lower-cased customer name, one row per customer, and
 * the grand-total row accumulated over the sorted rows.
 */
module OrderReport {
  import opened PyStr
  import opened Money
  import opened Orders
  import opened OrderSummary

  /** The label of the last row. */
  const GrandTotalLabel := "GRAND TOTAL"

  /** The sort key, `x.customer.lower()`. */
  function Key(s: CustomerSummary): string
  {
    Lower(s.customer)
  }

  // `sorted(..., key=...)` is a stable sort; it is modelled as an insertion sort.

  /** `x` placed after every row whose key is not greater than its own. */
  function Insert(rows: seq<CustomerSummary>, x: CustomerSummary): (r: seq<CustomerSummary>)
    ensures |r| == |rows| + 1
  {
    if rows == [] then [x]
    else
      var n := |rows| - 1;
      if Less(Key(x), Key(rows[n])) then Insert(rows[..n], x) + [rows[n]] else rows + [x]
  }

  function SortByName(rows: seq<CustomerSummary>): (r: seq<CustomerSummary>)
    ensures |r| == |rows|
  {
    if rows == [] then []
    else
      var n := |rows| - 1;
      Insert(SortByName(rows[..n]), rows[n])
  }

  /** No row has a key smaller than a row before it. */
  predicate SortedByName(rows: seq<CustomerSummary>)
  {
    forall i, j :: 0 <= i < j < |rows| ==> !Less(Key(rows[j]), Key(rows[i]))
  }

  /** The rows whose key is `k`, in order. */
  function WithKey(rows: seq<CustomerSummary>, k: string): seq<CustomerSummary>
  {
    if rows == [] then []
    else
      var n := |rows| - 1;
      WithKey(rows[..n], k) + (if Key(rows[n]) == k then [rows[n]] else [])
  }

  /** "Not less" is transitive. */
  lemma NotLessTransitive(a: string, b: string, c: string)
    requires !Less(b, a) && !Less(c, b)
    ensures !Less(c, a)
  {
    LessTrichotomy(a, b);
    LessTrichotomy(b, c);
    if Less(c, a) {
      if a == b {
        LessTransitive(c, a, c);
        LessIrreflexive(c);
      } else if b == c {
        LessTransitive(a, b, a);
        LessIrreflexive(a);
      } else {
        LessTransitive(a, b, c);
        LessTransitive(a, c, a);
        LessIrreflexive(a);
      }
    }
  }

  /** Inserting adds exactly the one row. */
  lemma {:induction false} InsertPermutes(rows: seq<CustomerSummary>, x: CustomerSummary)
    ensures multiset(Insert(rows, x)) == multiset(rows) + multiset{x}
  {
    if rows != [] {
      var n := |rows| - 1;
      assert rows == rows[..n] + [rows[n]];
      if Less(Key(x), Key(rows[n])) {
        InsertPermutes(rows[..n], x);
      }
    }
  }

  /** Inserting a row adds its totals. */
  lemma {:induction false} InsertSums(rows: seq<CustomerSummary>, x: CustomerSummary)
    ensures SumRows(Insert(rows, x)) == SumRows(rows).Plus(TotalsOf(x))
  {
    if rows != [] {
      var n := |rows| - 1;
      if Less(Key(x), Key(rows[n])) {
        InsertSums(rows[..n], x);
        SumRowsSnoc(Insert(rows[..n], x), rows[n]);
      } else {
        SumRowsSnoc(rows, x);
      }
    }
  }

  /** A row after which `x` is inserted has a key no greater than every row of the result. */
  lemma {:induction false} InsertBounded(rows: seq<CustomerSummary>, x: CustomerSummary, top: CustomerSummary)
    requires forall i :: 0 <= i < |rows| ==> !Less(Key(top), Key(rows[i]))
    requires !Less(Key(top), Key(x))
    ensures forall i :: 0 <= i < |rows| + 1 ==> !Less(Key(top), Key(Insert(rows, x)[i]))
  {
    InsertPermutes(rows, x);
    forall i | 0 <= i < |rows| + 1
      ensures !Less(Key(top), Key(Insert(rows, x)[i]))
    {
      var y := Insert(rows, x)[i];
      assert y in multiset(Insert(rows, x));
      if y != x {
        assert y in multiset(rows);
        var j :| 0 <= j < |rows| && rows[j] == y;
      }
    }
  }

  /** Inserting into a sorted sequence keeps it sorted. */
  lemma {:induction false} InsertSorted(rows: seq<CustomerSummary>, x: CustomerSummary)
    requires SortedByName(rows)
    ensures SortedByName(Insert(rows, x))
  {
    if rows != [] {
      var n := |rows| - 1;
      var last := rows[n];
      var r := Insert(rows, x);
      if Less(Key(x), Key(last)) {
        var front := rows[..n];
        assert SortedByName(front) by {
          forall i, j | 0 <= i < j < |front|
            ensures !Less(Key(front[j]), Key(front[i]))
          {
            assert front[i] == rows[i] && front[j] == rows[j];
          }
        }
        InsertSorted(front, x);
        LessTrichotomy(Key(x), Key(last));
        forall i | 0 <= i < |front|
          ensures !Less(Key(last), Key(front[i]))
        {
          assert front[i] == rows[i];
        }
        LessIrreflexive(Key(last));
        if Less(Key(last), Key(x)) {
          LessTransitive(Key(x), Key(last), Key(x));
          LessIrreflexive(Key(x));
        }
        InsertBounded(front, x, last);
      } else {
        forall i, j | 0 <= i < j < |r|
          ensures !Less(Key(r[j]), Key(r[i]))
        {
          if j == n + 1 && i < n {
            NotLessTransitive(Key(rows[i]), Key(last), Key(x));
          }
        }
      }
    }
  }

  lemma WithKeySnoc(rows: seq<CustomerSummary>, y: CustomerSummary, k: string)
    ensures WithKey(rows + [y], k) == WithKey(rows, k) + WithKey([y], k)
  {
    assert (rows + [y])[..|rows|] == rows;
    assert [y][..0] == [];
  }

  /** The rows of one key are kept in their order, the inserted row after them. */
  lemma {:induction false} InsertStable(rows: seq<CustomerSummary>, x: CustomerSummary, k: string)
    ensures WithKey(Insert(rows, x), k) == WithKey(rows, k) + WithKey([x], k)
  {
    if rows == [] {
      WithKeySnoc([], x, k);
      assert [] + [x] == [x];
    } else {
      var n := |rows| - 1;
      var front, last := rows[..n], rows[n];
      if Less(Key(x), Key(last)) {
        InsertStable(front, x, k);
        WithKeySnoc(Insert(front, x), last, k);
        WithKeySnoc(front, last, k);
        assert front + [last] == rows;
        if Key(x) == k && Key(last) == k {
          LessIrreflexive(k);
        }
      } else {
        WithKeySnoc(rows, x, k);
      }
    }
  }

  /** The sorted rows are in order of their keys. */
  lemma {:induction false} SortSorted(rows: seq<CustomerSummary>)
    ensures SortedByName(SortByName(rows))
  {
    if rows != [] {
      var n := |rows| - 1;
      SortSorted(rows[..n]);
      InsertSorted(SortByName(rows[..n]), rows[n]);
    }
  }

  /** Sorting neither adds nor drops a row. */
  lemma {:induction false} SortPermutes(rows: seq<CustomerSummary>)
    ensures multiset(SortByName(rows)) == multiset(rows)
  {
    if rows != [] {
      var n := |rows| - 1;
      var front := rows[..n];
      SortPermutes(front);
      InsertPermutes(SortByName(front), rows[n]);
      assert multiset(rows) == multiset(front) + multiset{rows[n]} by {
        assert rows == front + [rows[n]];
      }
    }
  }

  /** Sorting is stable: the rows of each key keep their input order. */
  lemma {:induction false} SortStable(rows: seq<CustomerSummary>, k: string)
    ensures WithKey(SortByName(rows), k) == WithKey(rows, k)
  {
    if rows != [] {
      var n := |rows| - 1;
      SortStable(rows[..n], k);
      InsertStable(SortByName(rows[..n]), rows[n], k);
      assert [rows[n]][..0] == [];
    }
  }

  /** Sorting leaves the column sums as they are. */
  lemma {:induction false} SortSums(rows: seq<CustomerSummary>)
    ensures SumRows(SortByName(rows)) == SumRows(rows)
  {
    if rows != [] {
      var n := |rows| - 1;
      SortSums(rows[..n]);
      InsertSums(SortByName(rows[..n]), rows[n]);
    }
  }

  /** One row of the report, before padding: a name and five numbers. */
  datatype ReportRow = ReportRow(name: string, numOrders: int, items: int, gross: Cents, discount: Cents, net: Cents)

  /** A customer's row. */
  function RowOf(s: CustomerSummary): ReportRow
  {
    ReportRow(s.customer, s.NumOrders(), s.totalItems, s.grossTotal, s.discountTotal, s.NetTotal())
  }

  /**
   * `format_report`: the customer rows in sorted order, and the grand-total
   * row whose columns are the sums over all the summaries, its net being
   * the grand gross less the grand discount.
   */
  method FormatReport(values: seq<CustomerSummary>) returns (table: seq<ReportRow>, grand: ReportRow)
    ensures |table| == |values|
    ensures forall k :: 0 <= k < |table| ==> table[k] == RowOf(SortByName(values)[k])
    ensures var t := SumRows(values);
      grand == ReportRow(GrandTotalLabel, t.orders, t.items, t.gross, t.discount, t.gross - t.discount)
  {
    var rows := SortByName(values);
    var grandOrders, grandItems, grandGross, grandDiscount := 0, 0, 0, 0;
    table := [];
    for i := 0 to |rows|
      invariant |table| == i
      invariant forall k :: 0 <= k < i ==> table[k] == RowOf(rows[k])
      invariant Totals(grandOrders, grandItems, grandGross, grandDiscount) == SumRows(rows[..i])
    {
      var s := rows[i];
      grandOrders := grandOrders + s.NumOrders();
      grandItems := grandItems + s.totalItems;
      grandGross := grandGross + s.grossTotal;
      grandDiscount := grandDiscount + s.discountTotal;
      table := table + [RowOf(s)];
      assert rows[..i + 1] == rows[..i] + [s];
      SumRowsSnoc(rows[..i], s);
    }
    assert rows[..|rows|] == rows;
    SortSums(values);
    var grandNet := grandGross - grandDiscount;
    grand := ReportRow(GrandTotalLabel, grandOrders, grandItems, grandGross, grandDiscount, grandNet);
  }

  /** The sum of the net totals of some lines. */
  function NetIn(lines: seq<OrderLine>): Cents
  {
    if lines == [] then 0
    else
      var n := |lines| - 1;
      NetIn(lines[..n]) + lines[n].NetTotal()
  }

  lemma {:induction false} NetInIsGrossLessDiscount(lines: seq<OrderLine>)
    ensures NetIn(lines) == GrossIn(lines) - DiscountIn(lines)
  {
    if lines != [] {
      NetInIsGrossLessDiscount(lines[..|lines| - 1]);
    }
  }

  /**
   * The grand-total row of the report on the summaries of some lines: the
   * sums of all the lines' quantities, line totals, discounts and net
   * totals.
   */
  lemma GrandTotalsOfLines(lines: seq<OrderLine>)
    ensures Summarize(lines).Valid()
    ensures var t := SumRows(Rows(Summarize(lines)));
      && t.items == ItemsIn(lines)
      && t.gross == GrossIn(lines)
      && t.discount == DiscountIn(lines)
      && t.gross - t.discount == NetIn(lines)
  {
    SummariesConserveTotals(lines);
    NetInIsGrossLessDiscount(lines);
  }

}
