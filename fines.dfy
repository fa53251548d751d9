/**
 * The fine rules of `Library` (Task1/src/library_system/models/library.py):
 * a fixed loan period, a per-day fine once a loan is overdue, and the live
 * balance as the sum of the per-loan fines. Amounts are in cents, so
 * `round(..., 2)` on multiples of $0.50 is exact.
 */
module Fines {
  import opened Money
  import opened Members

  const MaxBorrowed: nat := 3
  const LoanDays: nat := 14
  const FinePerDayCents: nat := 50
  const FineBlockThresholdCents: nat := 1000

  /** `_due_date`: the checkout date plus the loan period. */
  function DueDate(checkoutDate: Day): (due: Day)
    ensures due > checkoutDate && due - checkoutDate == LoanDays
  {
    checkoutDate + LoanDays
  }

  /** `_fine_for_loan`: nothing up to and including the due date, then $0.50 per whole day late. */
  function FineForLoan(checkoutDate: Day, asOf: Day): (fine: nat)
    ensures fine == 0 <==> asOf <= DueDate(checkoutDate)
    ensures fine % FinePerDayCents == 0
  {
    var due := DueDate(checkoutDate);
    if asOf <= due then 0 else (asOf - due) * FinePerDayCents
  }

  /** A loan costs nothing while it is not overdue, the due date included. */
  lemma FineZeroUntilDue(checkoutDate: Day, asOf: Day)
    ensures FineForLoan(checkoutDate, asOf) == 0 <==> asOf <= checkoutDate + LoanDays
  {
  }

  /** `n` days after the due date the fine is `n` times $0.50. */
  lemma FineLinear(checkoutDate: Day, n: nat)
    ensures FineForLoan(checkoutDate, checkoutDate + LoanDays + n) == n * FinePerDayCents
  {
  }

  /** The fine never decreases as the date moves on, by at most $0.50 a day. */
  lemma FineMonotone(checkoutDate: Day, d1: Day, d2: Day)
    requires d1 <= d2
    ensures FineForLoan(checkoutDate, d1) <= FineForLoan(checkoutDate, d2)
    ensures FineForLoan(checkoutDate, d2) - FineForLoan(checkoutDate, d1) <= (d2 - d1) * FinePerDayCents
  {
  }

  /** The sum of the fines of the loans whose isbns are in `keys`. */
  ghost function FineOver(keys: set<string>, loans: map<string, Day>, asOf: Day): nat
    requires keys <= loans.Keys
    decreases keys
  {
    if keys == {} then 0
    else
      var k :| k in keys;
      FineForLoan(loans[k], asOf) + FineOver(keys - {k}, loans, asOf)
  }

  /** The live fine balance: the sum of the per-loan fines of all active loans. */
  ghost function TotalFine(loans: map<string, Day>, asOf: Day): nat
  {
    FineOver(loans.Keys, loans, asOf)
  }

  /** The sum does not depend on the order of the loans: any one of them can be taken out first. */
  lemma {:induction false} FineOverRemove(keys: set<string>, loans: map<string, Day>, asOf: Day, k: string)
    requires keys <= loans.Keys && k in keys
    ensures FineOver(keys, loans, asOf) == FineForLoan(loans[k], asOf) + FineOver(keys - {k}, loans, asOf)
    decreases keys
  {
    var j :| j in keys && FineOver(keys, loans, asOf) == FineForLoan(loans[j], asOf) + FineOver(keys - {j}, loans, asOf);
    if j != k {
      FineOverRemove(keys - {j}, loans, asOf, k);
      FineOverRemove(keys - {k}, loans, asOf, j);
      assert keys - {j} - {k} == keys - {k} - {j};
    }
  }

  /** Only the loans in `keys` count: other entries of the map do not matter. */
  lemma {:induction false} FineOverFrame(keys: set<string>, a: map<string, Day>, b: map<string, Day>, asOf: Day)
    requires keys <= a.Keys && keys <= b.Keys
    requires forall k :: k in keys ==> a[k] == b[k]
    ensures FineOver(keys, a, asOf) == FineOver(keys, b, asOf)
    decreases keys
  {
    if keys != {} {
      var k :| k in keys;
      FineOverRemove(keys, a, asOf, k);
      FineOverRemove(keys, b, asOf, k);
      FineOverFrame(keys - {k}, a, b, asOf);
    }
  }

  /** A new loan adds its own fine to the balance. */
  lemma TotalFineAdd(loans: map<string, Day>, isbn: string, checkoutDate: Day, asOf: Day)
    requires isbn !in loans
    ensures TotalFine(loans[isbn := checkoutDate], asOf) == TotalFine(loans, asOf) + FineForLoan(checkoutDate, asOf)
  {
    var grown := loans[isbn := checkoutDate];
    FineOverRemove(grown.Keys, grown, asOf, isbn);
    assert grown.Keys - {isbn} == loans.Keys;
    FineOverFrame(loans.Keys, grown, loans, asOf);
  }

  /** Ending a loan takes its fine off the balance. */
  lemma TotalFineRemove(loans: map<string, Day>, isbn: string, asOf: Day)
    requires isbn in loans
    ensures TotalFine(loans - {isbn}, asOf) == TotalFine(loans, asOf) - FineForLoan(loans[isbn], asOf)
  {
    var shrunk := loans - {isbn};
    FineOverRemove(loans.Keys, loans, asOf, isbn);
    assert shrunk.Keys == loans.Keys - {isbn};
    FineOverFrame(shrunk.Keys, loans, shrunk, asOf);
  }

  /** Loans all made on one day: the balance is their number times one loan's fine. */
  lemma {:induction false} TotalFineSameDay(loans: map<string, Day>, checkoutDate: Day, asOf: Day)
    requires forall k :: k in loans ==> loans[k] == checkoutDate
    ensures TotalFine(loans, asOf) == |loans| * FineForLoan(checkoutDate, asOf)
    decreases |loans|
  {
    if loans != map[] {
      var k :| k in loans;
      var rest := loans - {k};
      TotalFineRemove(loans, k, asOf);
      assert |rest| == |loans| - 1 by {
        assert rest.Keys == loans.Keys - {k};
      }
      TotalFineSameDay(rest, checkoutDate, asOf);
    }
  }

}
