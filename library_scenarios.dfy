/**
 * The library's rules on the scenarios of Task1/tests/test_library.py:
 * all loans are taken out on the same day `d` (1 February 2026 in the
 * tests; 21 February is `d + 20` and 10 March is `d + 37`). The lemmas
 * state each test's figures on the fine and rule functions; the methods
 * after them build the `lib` fixture as a `Library` and make each test's
 * calls in order, so the figures follow from the class's own contracts.
 */
module LibraryScenarios {
  import opened Wrappers
  import opened Money
  import opened Books
  import opened Members
  import opened Fines
  import opened LibrarySystem

  /** Three books out since `d` owe $3.00 each on day `d + 20`: $9.00 in all. */
  lemma ThreeLoansOweNine(d: Day)
    ensures TotalFine(map["111" := d, "222" := d, "333" := d], d + 20) == 900
  {
    TotalFineSameDay(map["111" := d, "222" := d, "333" := d], d, d + 20);
    assert |map["111" := d, "222" := d, "333" := d]| == 3 by {
      assert map["111" := d, "222" := d, "333" := d].Keys == {"111", "222", "333"};
    }
  }

  /**
   * Returning one of them on day `d + 20` charges $3.00 and leaves a live
   * balance of $6.00 on the other two.
   */
  lemma ReturnLeavesSix(d: Day)
    ensures FineForLoan(d, d + 20) == 300
    ensures TotalFine(map["222" := d, "333" := d], d + 20) == 600
  {
    TotalFineSameDay(map["222" := d, "333" := d], d, d + 20);
    assert map["222" := d, "333" := d].Keys == {"222", "333"};
  }

  /** With three loans and no fine, a fourth checkout is refused for the loan limit. */
  lemma FourthLoanRefused(d: Day)
    ensures CheckoutRuleBroken(TotalFine(map["111" := d, "222" := d, "333" := d], d), true,
                               map["111" := d, "222" := d, "333" := d], "444") == Some(BorrowLimitReached)
  {
    TotalFineSameDay(map["111" := d, "222" := d, "333" := d], d, d);
    assert map["111" := d, "222" := d, "333" := d].Keys == {"111", "222", "333"};
  }

  /** By day `d + 37` the two remaining loans owe $23.00, which blocks a new checkout. */
  lemma OverdueLoansBlock(d: Day)
    ensures TotalFine(map["222" := d, "333" := d], d + 37) == 2300
    ensures CheckoutRuleBroken(TotalFine(map["222" := d, "333" := d], d + 37), true,
                               map["222" := d, "333" := d], "444") == Some(FineLimitExceeded)
  {
    TotalFineSameDay(map["222" := d, "333" := d], d, d + 37);
    assert map["222" := d, "333" := d].Keys == {"222", "333"};
  }

  /** A book already out to the member is reported as unavailable, not as borrowed twice. */
  lemma SecondCheckoutUnavailable(d: Day)
    ensures CheckoutRuleBroken(TotalFine(map["111" := d], d), false, map["111" := d], "111") == Some(BookNotAvailable)
  {
    TotalFineSameDay(map["111" := d], d, d);
  }

  /** The isbns of the fixture are four different keys. */
  lemma DistinctIsbns()
    ensures "111" != "222" && "111" != "333" && "111" != "444"
    ensures "222" != "333" && "222" != "444" && "333" != "444"
  {
    assert "111"[0] != "222"[0] && "111"[0] != "333"[0] && "111"[0] != "444"[0];
    assert "222"[0] != "333"[0] && "222"[0] != "444"[0] && "333"[0] != "444"[0];
  }

  /** `addBook` of a new isbn: the book is filed under it and starts on the shelf. */
  method Shelve(lib: Library, isbn: string, title: string, author: string) returns (b: Book)
    requires lib.Valid() && isbn !in lib.books
    modifies lib
    ensures fresh(b) && b.isbn == isbn && b.isAvailable
    ensures lib.Valid() && lib.books == old(lib.books)[isbn := b] && lib.members == old(lib.members)
    ensures old(lib.Consistent()) ==> lib.Consistent()
  {
    b := new Book(isbn, title, author);
    var r := lib.AddBook(b);
  }

  /** The four books of the `lib` fixture, filed in a new library and all on the shelf. */
  method Shelf() returns (lib: Library, b1: Book, b2: Book, b3: Book, b4: Book)
    ensures fresh(lib) && fresh(b1) && fresh(b2) && fresh(b3) && fresh(b4)
    ensures lib.Valid() && lib.Consistent() && lib.members == map[]
    ensures lib.books == map["111" := b1, "222" := b2, "333" := b3, "444" := b4]
    ensures b1.isAvailable && b2.isAvailable && b3.isAvailable && b4.isAvailable
    ensures b1.isbn == "111" && b2.isbn == "222" && b3.isbn == "333" && b4.isbn == "444"
  {
    DistinctIsbns();
    lib := new Library();
    b1 := Shelve(lib, "111", "A", "Auth1");
    b2 := Shelve(lib, "222", "B", "Auth2");
    b3 := Shelve(lib, "333", "C", "Auth3");
    b4 := Shelve(lib, "444", "D", "Auth4");
  }

  /**
   * The `lib` fixture: books 111, 222, 333 and 444, all on the shelf, and
   * member M1 with no loans and no history.
   */
  method Fixture() returns (lib: Library, b1: Book, b2: Book, b3: Book, b4: Book, m: Member)
    ensures fresh(lib) && fresh(b1) && fresh(b2) && fresh(b3) && fresh(b4) && fresh(m)
    ensures lib.Valid() && lib.Consistent()
    ensures lib.books == map["111" := b1, "222" := b2, "333" := b3, "444" := b4]
    ensures b1.isAvailable && b2.isAvailable && b3.isAvailable && b4.isAvailable
    ensures lib.members == map["M1" := m] && m.memberId == "M1"
    ensures m.borrowedBooks == map[] && m.borrowingHistory == []
    ensures b1.isbn == "111" && b2.isbn == "222" && b3.isbn == "333" && b4.isbn == "444"
  {
    lib, b1, b2, b3, b4 := Shelf();
    m := new Member("M1", "Saurabh");
    var r := lib.RegisterMember(m);
  }

  /** A `checkoutBook` that breaks no rule: the loan is recorded and the book leaves the shelf. */
  method CheckoutAllowed(lib: Library, m: Member, b: Book, d: Day)
    requires lib.Valid() && m.memberId in lib.members && lib.members[m.memberId] == m
    requires b.isbn in lib.books && lib.books[b.isbn] == b
    requires CheckoutRuleBroken(TotalFine(m.borrowedBooks, d), b.isAvailable, m.borrowedBooks, b.isbn) == None
    modifies m, b
    ensures m.borrowedBooks == old(m.borrowedBooks)[b.isbn := d] && !b.isAvailable
    ensures m.borrowingHistory == old(m.borrowingHistory) + [BorrowRecord(b.isbn, d, DueDate(d))]
  {
    var r := lib.CheckoutBook(m.memberId, b.isbn, d);
  }

  /** The fixture after M1 has taken out 111 on day `d`. */
  method OneLoan(d: Day) returns (lib: Library, b1: Book, m: Member)
    ensures fresh(lib) && fresh(b1) && fresh(m)
    ensures lib.Valid() && lib.members == map["M1" := m] && "111" in lib.books && lib.books["111"] == b1
    ensures m.borrowedBooks == map["111" := d] && !b1.isAvailable
  {
    var b2, b3, b4;
    lib, b1, b2, b3, b4, m := Fixture();
    CheckoutAllowed(lib, m, b1, d);
  }

  /** With 111 out since day `d` and no fine, 222 may be taken out the same day. */
  lemma SecondLoanAllowed(d: Day)
    ensures CheckoutRuleBroken(TotalFine(map["111" := d], d), true, map["111" := d], "222") == None
  {
    TotalFineSameDay(map["111" := d], d, d);
    DistinctIsbns();
  }

  /** With 111 and 222 out since day `d` and no fine, 333 may be taken out the same day. */
  lemma ThirdLoanAllowed(d: Day)
    ensures CheckoutRuleBroken(TotalFine(map["111" := d, "222" := d], d), true, map["111" := d, "222" := d], "333") == None
  {
    TotalFineSameDay(map["111" := d, "222" := d], d, d);
    DistinctIsbns();
    assert map["111" := d, "222" := d].Keys == {"111", "222"};
  }

  /** The fixture after M1 has taken out 111 and 222 on day `d`. */
  method CheckOutTwo(d: Day) returns (lib: Library, b1: Book, b2: Book, b3: Book, b4: Book, m: Member)
    ensures fresh(lib) && fresh(b1) && fresh(b2) && fresh(b3) && fresh(b4) && fresh(m)
    ensures lib.Valid()
    ensures lib.books == map["111" := b1, "222" := b2, "333" := b3, "444" := b4] && lib.members == map["M1" := m]
    ensures b1.isbn == "111" && b2.isbn == "222" && b3.isbn == "333" && b4.isbn == "444" && m.memberId == "M1"
    ensures !b1.isAvailable && !b2.isAvailable && b3.isAvailable && b4.isAvailable
    ensures m.borrowedBooks == map["111" := d, "222" := d]
  {
    lib, b1, b2, b3, b4, m := Fixture();
    CheckoutAllowed(lib, m, b1, d);
    SecondLoanAllowed(d);
    CheckoutAllowed(lib, m, b2, d);
  }

  /** The fixture after M1 has taken out 111, 222 and 333 on day `d`, as several tests begin. */
  method CheckOutThree(d: Day) returns (lib: Library, b1: Book, b2: Book, b3: Book, b4: Book, m: Member)
    ensures fresh(lib) && fresh(b1) && fresh(b2) && fresh(b3) && fresh(b4) && fresh(m)
    ensures lib.Valid()
    ensures lib.books == map["111" := b1, "222" := b2, "333" := b3, "444" := b4] && lib.members == map["M1" := m]
    ensures b1.isbn == "111" && b2.isbn == "222" && b3.isbn == "333" && b4.isbn == "444" && m.memberId == "M1"
    ensures !b1.isAvailable && !b2.isAvailable && !b3.isAvailable && b4.isAvailable
    ensures m.borrowedBooks == map["111" := d, "222" := d, "333" := d]
  {
    lib, b1, b2, b3, b4, m := CheckOutTwo(d);
    ThirdLoanAllowed(d);
    CheckoutAllowed(lib, m, b3, d);
  }

  /** `test_member_not_found`: a checkout by an unknown member fails. */
  method UnknownMember(d: Day) returns (r: Outcome)
    ensures r == Failure(MemberNotFound)
  {
    var lib, b1, b2, b3, b4, m := Fixture();
    r := lib.CheckoutBook("X", "111", d);
  }

  /** `test_book_not_found`: a checkout of an unknown isbn fails. */
  method UnknownBook(d: Day) returns (r: Outcome)
    ensures r == Failure(BookNotFound)
  {
    var lib, b1, b2, b3, b4, m := Fixture();
    assert "999" !in lib.books by {
      assert "999"[0] != "111"[0] && "999"[0] != "222"[0] && "999"[0] != "333"[0] && "999"[0] != "444"[0];
    }
    r := lib.CheckoutBook("M1", "999", d);
  }

  /** `test_checkout_unavailable`: checking out a book already out is refused as unavailable. */
  method CheckoutUnavailable(d: Day) returns (r: Outcome)
    ensures r == Failure(CheckoutRuleViolation(BookNotAvailable))
  {
    var lib, b1, m := OneLoan(d);
    SecondCheckoutUnavailable(d);
    r := lib.CheckoutBook("M1", "111", d);
  }

  /** `test_checkout_max_3`: with three books out, a fourth checkout is refused for the loan limit. */
  method CheckoutMaxThree(d: Day) returns (r: Outcome)
    ensures r == Failure(CheckoutRuleViolation(BorrowLimitReached))
  {
    var lib, b1, b2, b3, b4, m := CheckOutThree(d);
    FourthLoanRefused(d);
    r := lib.CheckoutBook("M1", "444", d);
  }

  /** `test_calculateFine_overdue_three_books`: three loans six days overdue owe $9.00. */
  method OverdueThreeBooks(d: Day) returns (r: Result<Cents, LibraryError>)
    ensures r == Success(900)
  {
    var lib, b1, b2, b3, b4, m := CheckOutThree(d);
    ThreeLoansOweNine(d);
    r := lib.CalculateFine("M1", d + 20);
  }

  /** Ending the loan of 111 leaves the loans of 222 and 333. */
  lemma ReturnFirstLoans(d: Day)
    ensures map["111" := d, "222" := d, "333" := d] - {"111"} == map["222" := d, "333" := d]
  {
    DistinctIsbns();
  }

  /** The three loans of `CheckOutThree`, after 111 is returned on day `d + 20`. */
  method ReturnFirst(d: Day) returns (lib: Library, b1: Book, b4: Book, m: Member, fine: Result<Cents, LibraryError>)
    ensures fresh(lib) && fresh(b1) && fresh(b4) && fresh(m)
    ensures lib.Valid() && lib.members == map["M1" := m] && "111" in lib.books && lib.books["111"] == b1
    ensures "444" in lib.books && lib.books["444"] == b4 && b4.isbn == "444" && b4.isAvailable
    ensures fine == Success(FineForLoan(d, d + 20)) && b1.isAvailable
    ensures m.borrowedBooks == map["222" := d, "333" := d] && m.fineBalance == TotalFine(m.borrowedBooks, d + 20)
  {
    var b2, b3;
    lib, b1, b2, b3, b4, m := CheckOutThree(d);
    ReturnFirstLoans(d);
    fine := lib.ReturnBook("M1", "111", d + 20);
  }

  /**
   * `test_returnBook_updates_live_fineBalance`: returning 111 on day `d + 20`
   * charges $3.00, leaves a balance of $6.00 that `calculateFine` agrees
   * with, and puts 111 back on the shelf.
   */
  method ReturnUpdatesLiveFine(d: Day) returns (fine: Result<Cents, LibraryError>, balance: Cents,
                                                live: Result<Cents, LibraryError>, available: bool)
    ensures fine == Success(300) && balance == 600 && live == Success(600) && available
  {
    var lib, b1, b4, m;
    lib, b1, b4, m, fine := ReturnFirst(d);
    ReturnLeavesSix(d);
    balance := m.fineBalance;
    live := lib.CalculateFine("M1", d + 20);
    available := lib.books["111"].isAvailable;
  }

  /** `test_fine_block_rule_natural_overdue`: by day `d + 37` the two loans left block a checkout. */
  method FineBlocksCheckout(d: Day) returns (r: Outcome)
    ensures r == Failure(CheckoutRuleViolation(FineLimitExceeded))
  {
    var lib, b1, b4, m, fine := ReturnFirst(d);
    OverdueLoansBlock(d);
    r := lib.CheckoutBook("M1", "444", d + 37);
  }

  /** `test_returnBook_not_borrowed_raises`: a book M1 does not hold cannot be returned. */
  method ReturnNotBorrowed(d: Day) returns (r: Result<Cents, LibraryError>)
    ensures r == Failure(CheckoutRuleViolation(NotBorrowed))
  {
    var lib, b1, b2, b3, b4, m := Fixture();
    r := lib.ReturnBook("M1", "111", d);
  }

  /** `test_returnBook_return_before_checkout_raises`: a return dated the day before the checkout is refused. */
  method ReturnBeforeCheckoutDate(d: Day) returns (r: Result<Cents, LibraryError>)
    ensures r == Failure(CheckoutRuleViolation(ReturnBeforeCheckout))
  {
    var lib, b1, m := OneLoan(d);
    r := lib.ReturnBook("M1", "111", d - 1);
  }
}
