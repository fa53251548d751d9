/**
 * `OrderLine` and `CustomerSummary` (Task2/order_processor.py). Prices are
 * Decimal amounts with two places, so they are whole cents; a quantity times
 * a price is again whole cents and its `quantize` changes nothing below
 * 10^28 cents (where the decimal context would raise instead), while the
 * 10% discount has a third decimal that ROUND_HALF_UP removes.
 */
module Orders {
  import opened Money
  import opened OrderDates

  /** `DISCOUNT_THRESHOLD`, $500.00: a line must total strictly more to be discounted. */
  const DiscountThreshold: Cents := 50000
  /** `DISCOUNT_RATE`, 0.10, as a percentage. */
  const DiscountPercent: nat := 10

  /** One accepted order record (a frozen dataclass, so a value). */
  datatype OrderLine = OrderLine(
    orderId: string,
    customer: string,
    product: string,
    quantity: int,
    unitPrice: Cents,
    orderDate: Date)
  {
    /** `line_total`: the quantity times the unit price, already a whole number of cents. */
    function LineTotal(): (r: Cents)
      ensures quantity >= 0 && unitPrice >= 0 ==> r >= 0
      ensures quantity == 1 ==> r == unitPrice
    {
      quantity * unitPrice
    }

    /**
     * `discount`: nothing up to and including $500.00; above that, 10% of
     * the line total to the nearest cent, a half cent rounded up.
     */
    function Discount(): (r: Cents)
      ensures LineTotal() <= DiscountThreshold ==> r == 0
      ensures LineTotal() > DiscountThreshold ==> -10 <= 2 * (LineTotal() - 10 * r) < 10
      ensures r > 0 <==> LineTotal() > DiscountThreshold
    {
      var lt := LineTotal();
      if lt > DiscountThreshold then RoundHalfUp(lt * DiscountPercent, 100) else 0
    }

    /**
     * `net_total`: the line total less the discount, which is the whole
     * line total up to the threshold and 90% of it, to within half a cent,
     * above it.
     */
    function NetTotal(): (r: Cents)
      ensures LineTotal() <= DiscountThreshold ==> r == LineTotal()
      ensures LineTotal() > DiscountThreshold ==> 9 * LineTotal() - 5 <= 10 * r < 9 * LineTotal() + 5
    {
      LineTotal() - Discount()
    }
  }

  /** A line with a non-negative price and quantity never nets below zero, nor above its total. */
  lemma NetWithinTotal(ol: OrderLine)
    requires ol.quantity >= 0 && ol.unitPrice >= 0
    ensures 0 <= ol.NetTotal() <= ol.LineTotal()
  {
  }

  /** A line of exactly $500.00 is not discounted. */
  lemma ThresholdLineUndiscounted(ol: OrderLine)
    requires ol.quantity == 1 && ol.unitPrice == 50000
    ensures ol.LineTotal() == 50000 && ol.Discount() == 0 && ol.NetTotal() == 50000
  {
  }

  /** A line of $500.01 gets $50.00 off (10% is $50.001) and nets $450.01. */
  lemma JustOverThreshold(ol: OrderLine)
    requires ol.quantity == 1 && ol.unitPrice == 50001
    ensures ol.LineTotal() == 50001 && ol.Discount() == 5000 && ol.NetTotal() == 45001
  {
    assert RoundHalfUp(500010, 100) == 5000;
  }

  /**
   * A customer's aggregate in the report. `summarize_by_customer` builds it
   * in a dictionary it owns, so updating the entry in place and replacing
   * it with an updated value cannot be told apart.
   */
  datatype CustomerSummary = CustomerSummary(
    customer: string,
    orderIds: set<string>,
    totalItems: int,
    grossTotal: Cents,
    discountTotal: Cents)
  {
    /** `num_orders`: the number of distinct order ids. */
    function NumOrders(): (n: nat)
      ensures n == 0 <==> orderIds == {}
    {
      |orderIds|
    }

    /** `net_total`: gross less discount, exact in cents, so its `quantize` changes nothing below 10^28 cents. */
    function NetTotal(): (r: Cents)
      ensures r + discountTotal == grossTotal
      ensures discountTotal >= 0 ==> r <= grossTotal
    {
      grossTotal - discountTotal
    }
  }

}
