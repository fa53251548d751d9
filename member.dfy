/** `BorrowRecord` and `Member` (Task1/src/library_system/models/member.py). */
module Members {
  import opened Wrappers
  import opened Money
  import opened Books
  import opened Numerals
  import opened PyStr

  /** A calendar date as a day number: consecutive days differ by one. */
  type Day = int

  /**
   * One loan in a member's history. A record is created open (no return
   * date, nothing charged) and closed once, on return.
   */
  datatype BorrowRecord = BorrowRecord(
    isbn: string,
    checkoutDate: Day,
    dueDate: Day,
    returnDate: Option<Day> := None,
    fineCharged: Cents := 0)
  {
    predicate IsOpen()
    {
      returnDate.None?
    }
  }

  /** A freshly created record is open and carries no charge. */
  lemma NewRecordIsOpen(isbn: string, checkoutDate: Day, dueDate: Day)
    ensures BorrowRecord(isbn, checkoutDate, dueDate).IsOpen()
    ensures BorrowRecord(isbn, checkoutDate, dueDate).fineCharged == 0
  {
  }

  class Member {
    const memberId: string
    const name: string
    /** Active loans: isbn to checkout date, so at most one loan per isbn. */
    var borrowedBooks: map<string, Day>
    /** Completed and open loans, oldest first. */
    var borrowingHistory: seq<BorrowRecord>
    var fineBalance: Cents

    /** The dataclass constructor; the last three fields default to empty and zero. */
    constructor (memberId: string, name: string, borrowedBooks: map<string, Day> := map[],
                 borrowingHistory: seq<BorrowRecord> := [], fineBalance: Cents := 0)
      ensures this.memberId == memberId && this.name == name
      ensures this.borrowedBooks == borrowedBooks && this.borrowingHistory == borrowingHistory
      ensures this.fineBalance == fineBalance
    {
      this.memberId := memberId;
      this.name := name;
      this.borrowedBooks := borrowedBooks;
      this.borrowingHistory := borrowingHistory;
      this.fineBalance := fineBalance;
    }

    /**
     * `__str__`: `Member <id>: <name> (Fine: $<balance>)`, the balance
     * written by `FormatMoney` (exactly two decimals).
     */
    function ToString(): (s: string)
      reads this
      ensures StartsWith(s, "Member " + memberId + ": " + name + " (Fine: $")
      ensures EndsWith(s, FormatMoney(fineBalance) + ")")
      ensures |s| == |"Member " + memberId + ": " + name + " (Fine: $"| + |FormatMoney(fineBalance) + ")"|
    {
      var head := "Member " + memberId + ": " + name + " (Fine: $";
      var tail := FormatMoney(fineBalance) + ")";
      ConcatAffixes(head, tail);
      head + tail
    }
  }

}
