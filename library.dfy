/**
 * `Library` (Task1/src/library_system/models/library.py): the catalogue,
 * the member registry and the checkout/return rules that update both.
 */
module LibrarySystem {
  import opened Wrappers
  import opened Money
  import opened Books
  import opened Members
  import opened Fines

  /** The exceptions of `exceptions.py`, and the `ValueError` of a duplicate key. */
  datatype LibraryError =
    | MemberNotFound
    | BookNotFound
    | CheckoutRuleViolation(rule: Rule)
    | DuplicateKey

  /** Which rule a `CheckoutRuleViolation` reports. */
  datatype Rule =
    | FineLimitExceeded
    | BookNotAvailable
    | BorrowLimitReached
    | AlreadyBorrowed
    | NotBorrowed
    | ReturnBeforeCheckout

  type Outcome = Result<(), LibraryError>

  /**
   * The first checkout rule a request breaks, in the order `checkoutBook`
   * checks them: the fine limit, availability, the loan limit, a second loan
   * of the same isbn.
   */
  function CheckoutRuleBroken(liveFine: Cents, bookAvailable: bool, loans: map<string, Day>, isbn: string): (r: Option<Rule>)
    ensures r == None <==> liveFine <= FineBlockThresholdCents && bookAvailable && |loans| < MaxBorrowed && isbn !in loans
    ensures r == Some(FineLimitExceeded) <==> liveFine > FineBlockThresholdCents
    ensures r == Some(BookNotAvailable) <==> liveFine <= FineBlockThresholdCents && !bookAvailable
    ensures r == Some(BorrowLimitReached) <==> liveFine <= FineBlockThresholdCents && bookAvailable && |loans| >= MaxBorrowed
    ensures r == Some(AlreadyBorrowed) <==>
      liveFine <= FineBlockThresholdCents && bookAvailable && |loans| < MaxBorrowed && isbn in loans
  {
    if liveFine > FineBlockThresholdCents then Some(FineLimitExceeded)
    else if !bookAvailable then Some(BookNotAvailable)
    else if |loans| >= MaxBorrowed then Some(BorrowLimitReached)
    else if isbn in loans then Some(AlreadyBorrowed)
    else None
  }

  /** A balance of exactly $10.00 does not block; one cent more does. */
  lemma FineBlockIsStrict(bookAvailable: bool, loans: map<string, Day>, isbn: string)
    ensures CheckoutRuleBroken(1000, bookAvailable, loans, isbn) != Some(FineLimitExceeded)
    ensures CheckoutRuleBroken(1001, bookAvailable, loans, isbn) == Some(FineLimitExceeded)
  {
  }

  predicate OpenFor(r: BorrowRecord, isbn: string)
  {
    r.isbn == isbn && r.IsOpen()
  }

  /** The number of open records for `isbn` in a history. */
  function OpenCount(history: seq<BorrowRecord>, isbn: string): nat
  {
    if history == [] then 0
    else OpenCount(history[..|history| - 1], isbn) + (if OpenFor(history[|history| - 1], isbn) then 1 else 0)
  }

  /** The index of the most recent open record for `isbn`, if there is one. */
  function LatestOpen(history: seq<BorrowRecord>, isbn: string): (r: Option<nat>)
    ensures r.Some? ==> r.value < |history| && OpenFor(history[r.value], isbn)
    ensures r.Some? ==> forall j :: r.value < j < |history| ==> !OpenFor(history[j], isbn)
    ensures r.None? ==> forall j :: 0 <= j < |history| ==> !OpenFor(history[j], isbn)
  {
    if history == [] then None
    else if OpenFor(history[|history| - 1], isbn) then Some(|history| - 1)
    else LatestOpen(history[..|history| - 1], isbn)
  }

  /** With an open record for `isbn` in the history, there is a most recent one. */
  lemma {:induction false} OpenCountFound(history: seq<BorrowRecord>, isbn: string)
    requires OpenCount(history, isbn) > 0
    ensures LatestOpen(history, isbn).Some?
  {
    if !OpenFor(history[|history| - 1], isbn) {
      OpenCountFound(history[..|history| - 1], isbn);
    }
  }

  /** The record of a loan, closed on `returnDate` with `fine` charged. */
  function Closed(r: BorrowRecord, returnDate: Day, fine: Cents): BorrowRecord
  {
    r.(returnDate := Some(returnDate), fineCharged := fine)
  }

  /**
   * The history after a return: the most recent open record for `isbn` is
   * closed in place; every other record, and the length, stay as they were.
   */
  function CloseLatest(history: seq<BorrowRecord>, isbn: string, returnDate: Day, fine: Cents): (h: seq<BorrowRecord>)
    ensures |h| == |history|
    ensures LatestOpen(history, isbn).None? ==> h == history
    ensures LatestOpen(history, isbn).Some? ==>
      var i := LatestOpen(history, isbn).value;
      h[i] == Closed(history[i], returnDate, fine) && forall j :: 0 <= j < |h| && j != i ==> h[j] == history[j]
  {
    match LatestOpen(history, isbn)
    case None => history
    case Some(i) => history[i := Closed(history[i], returnDate, fine)]
  }

  /** Closing a record takes exactly that record's isbn off the open count. */
  lemma {:induction false} OpenCountClose(history: seq<BorrowRecord>, i: nat, returnDate: Day, fine: Cents, isbn: string)
    requires i < |history| && history[i].IsOpen()
    ensures OpenCount(history[i := Closed(history[i], returnDate, fine)], isbn)
      == OpenCount(history, isbn) - (if history[i].isbn == isbn then 1 else 0)
    decreases |history|
  {
    var h := history[i := Closed(history[i], returnDate, fine)];
    var n := |history| - 1;
    if i < n {
      OpenCountClose(history[..n], i, returnDate, fine, isbn);
      assert h[..n] == history[..n][i := Closed(history[i], returnDate, fine)];
    } else {
      assert h[..n] == history[..n];
    }
  }

  /** A closed record went out before it came back and was charged that loan's fine. */
  ghost predicate ClosedCorrectly(r: BorrowRecord)
    requires !r.IsOpen()
  {
    r.checkoutDate <= r.returnDate.value && r.fineCharged == FineForLoan(r.checkoutDate, r.returnDate.value)
  }

  /**
   * What checkout and return keep true of one member's loans and history:
   * at most three loans; every due date is the checkout date plus 14 days;
   * every open record belongs to an active loan with the same checkout date;
   * every closed record carries the fine of its loan; and every active loan
   * has exactly one open record.
   */
  ghost predicate LedgerInvariant(loans: map<string, Day>, history: seq<BorrowRecord>)
  {
    && |loans| <= MaxBorrowed
    && (forall i :: 0 <= i < |history| ==> history[i].dueDate == DueDate(history[i].checkoutDate))
    && (forall i :: 0 <= i < |history| && history[i].IsOpen() ==>
          history[i].isbn in loans && loans[history[i].isbn] == history[i].checkoutDate && history[i].fineCharged == 0)
    && (forall i :: 0 <= i < |history| && !history[i].IsOpen() ==> ClosedCorrectly(history[i]))
    && (forall isbn {:trigger OpenCount(history, isbn)} :: isbn in loans ==> OpenCount(history, isbn) == 1)
  }

  /** A new member (no loans, no history) satisfies the ledger invariant. */
  lemma EmptyLedger()
    ensures LedgerInvariant(map[], [])
  {
  }

  /** A successful checkout keeps the ledger invariant. */
  lemma CheckoutKeepsLedger(loans: map<string, Day>, history: seq<BorrowRecord>, isbn: string, checkoutDate: Day)
    requires LedgerInvariant(loans, history)
    requires |loans| < MaxBorrowed && isbn !in loans
    ensures LedgerInvariant(loans[isbn := checkoutDate], history + [BorrowRecord(isbn, checkoutDate, DueDate(checkoutDate))])
  {
    var loans', history' := loans[isbn := checkoutDate], history + [BorrowRecord(isbn, checkoutDate, DueDate(checkoutDate))];
    assert history'[..|history|] == history;
    forall k | k in loans'
      ensures OpenCount(history', k) == 1
    {
      if k != isbn {
        assert OpenCount(history', k) == OpenCount(history, k);
      } else {
        OpenCountNone(history, k);
      }
    }
  }

  /** No open record for an isbn that is not on loan. */
  lemma {:induction false} OpenCountNone(history: seq<BorrowRecord>, isbn: string)
    requires forall i :: 0 <= i < |history| ==> !OpenFor(history[i], isbn)
    ensures OpenCount(history, isbn) == 0
  {
    if history != [] {
      OpenCountNone(history[..|history| - 1], isbn);
    }
  }

  /** A valid return keeps the ledger invariant. */
  lemma ReturnKeepsLedger(loans: map<string, Day>, history: seq<BorrowRecord>, isbn: string, returnDate: Day)
    requires LedgerInvariant(loans, history)
    requires isbn in loans && loans[isbn] <= returnDate
    ensures LatestOpen(history, isbn).Some?
    ensures LedgerInvariant(loans - {isbn},
      CloseLatest(history, isbn, returnDate, FineForLoan(loans[isbn], returnDate)))
  {
    OpenCountFound(history, isbn);
    var i := LatestOpen(history, isbn).value;
    var fine := FineForLoan(loans[isbn], returnDate);
    var h := CloseLatest(history, isbn, returnDate, fine);
    assert h == history[i := Closed(history[i], returnDate, fine)];
    forall k | k in loans - {isbn}
      ensures OpenCount(h, k) == 1
    {
      OpenCountClose(history, i, returnDate, fine, k);
    }
    forall j | 0 <= j < |h| && h[j].IsOpen()
      ensures h[j].isbn in loans - {isbn}
    {
      if h[j].isbn == isbn {
        OpenCountClose(history, i, returnDate, fine, isbn);
        OpenCountPositive(h, j, isbn);
      }
    }
  }

  /** An open record for `isbn` makes the open count positive. */
  lemma {:induction false} OpenCountPositive(history: seq<BorrowRecord>, j: nat, isbn: string)
    requires j < |history| && OpenFor(history[j], isbn)
    ensures OpenCount(history, isbn) > 0
  {
    if j < |history| - 1 {
      OpenCountPositive(history[..|history| - 1], j, isbn);
    }
  }

  /** `returnBook`'s reversed search: the most recent open record for `isbn`. */
  method FindLatestOpen(history: seq<BorrowRecord>, isbn: string) returns (r: Option<nat>)
    ensures r == LatestOpen(history, isbn)
  {
    var i := |history|;
    while i > 0
      invariant 0 <= i <= |history|
      invariant forall j :: i <= j < |history| ==> !OpenFor(history[j], isbn)
    {
      i := i - 1;
      if history[i].isbn == isbn && history[i].returnDate.None? {
        return Some(i);
      }
    }
    return None;
  }

  /** One member's loans and borrowing history. */
  datatype Ledger = Ledger(loans: map<string, Day>, history: seq<BorrowRecord>)

  /**
   * The loan invariant of the whole library: every member's ledger keeps
   * `LedgerInvariant`, a book on loan is in the catalogue and not
   * available, and no two members hold the same isbn.
   */
  ghost predicate LedgersConsistent(ledgers: map<string, Ledger>, available: map<string, bool>)
  {
    EveryLedgerKept(ledgers) && LoansOffShelf(ledgers, available) && SingleHolder(ledgers)
  }

  ghost predicate EveryLedgerKept(ledgers: map<string, Ledger>)
  {
    forall id :: id in ledgers ==> LedgerInvariant(ledgers[id].loans, ledgers[id].history)
  }

  ghost predicate LoansOffShelf(ledgers: map<string, Ledger>, available: map<string, bool>)
  {
    forall id, isbn :: id in ledgers && isbn in ledgers[id].loans ==> isbn in available && !available[isbn]
  }

  ghost predicate SingleHolder(ledgers: map<string, Ledger>)
  {
    forall id1, id2, isbn ::
      (id1 in ledgers && id2 in ledgers && isbn in ledgers[id1].loans && isbn in ledgers[id2].loans) ==> id1 == id2
  }

  /** Replacing one member's ledger by one that keeps `LedgerInvariant` keeps every ledger kept. */
  lemma KeptAfterUpdate(ledgers: map<string, Ledger>, id: string, l: Ledger)
    requires EveryLedgerKept(ledgers) && LedgerInvariant(l.loans, l.history)
    ensures EveryLedgerKept(ledgers[id := l])
  {
    var ledgers' := ledgers[id := l];
    forall k | k in ledgers'
      ensures LedgerInvariant(ledgers'[k].loans, ledgers'[k].history)
    {
      if k != id {
        assert ledgers'[k] == ledgers[k];
      }
    }
  }

  /** A ledger with no loans keeps every loan off the shelf. */
  lemma OffShelfNoLoans(ledgers: map<string, Ledger>, available: map<string, bool>, id: string, l: Ledger)
    requires LoansOffShelf(ledgers, available) && l.loans == map[]
    ensures LoansOffShelf(ledgers[id := l], available)
  {
  }

  /**
   * Changing one member's ledger and at most one book's availability keeps
   * every loan off the shelf when the new ledger's loans are off the shelf
   * and, if the book comes back, no other member holds it.
   */
  lemma OffShelfAfterUpdate(ledgers: map<string, Ledger>, available: map<string, bool>, id: string, l: Ledger,
                            isbn: string, isAvailable: bool)
    requires LoansOffShelf(ledgers, available)
    requires isbn in available
    requires forall b :: b in l.loans ==> b in available && !available[isbn := isAvailable][b]
    requires isAvailable ==> forall k :: k in ledgers && k != id ==> isbn !in ledgers[k].loans
    ensures LoansOffShelf(ledgers[id := l], available[isbn := isAvailable])
  {
  }

  /** A new ledger whose isbns nobody else holds keeps a single holder per isbn. */
  lemma SingleHolderAfterUpdate(ledgers: map<string, Ledger>, id: string, l: Ledger)
    requires SingleHolder(ledgers)
    requires forall k, isbn :: k in ledgers && k != id && isbn in l.loans ==> isbn !in ledgers[k].loans
    ensures SingleHolder(ledgers[id := l])
  {
  }

  /** Adding a book under a new isbn keeps the library consistent, whatever its availability. */
  lemma AddBookKeepsConsistent(ledgers: map<string, Ledger>, available: map<string, bool>, isbn: string, isAvailable: bool)
    requires LedgersConsistent(ledgers, available) && isbn !in available
    ensures LedgersConsistent(ledgers, available[isbn := isAvailable])
  {
    var available' := available[isbn := isAvailable];
    forall id, b | id in ledgers && b in ledgers[id].loans
      ensures b in available' && !available'[b]
    {
      assert b in available;
    }
  }

  /** Registering a member with no loans and no history keeps the library consistent. */
  lemma RegisterKeepsConsistent(ledgers: map<string, Ledger>, available: map<string, bool>, id: string)
    requires LedgersConsistent(ledgers, available)
    ensures LedgersConsistent(ledgers[id := Ledger(map[], [])], available)
  {
    EmptyLedger();
    KeptAfterUpdate(ledgers, id, Ledger(map[], []));
    SingleHolderAfterUpdate(ledgers, id, Ledger(map[], []));
    OffShelfNoLoans(ledgers, available, id, Ledger(map[], []));
  }

  /**
   * A checkout that passes the rules keeps the library consistent: the
   * book was available, so nobody else holds it.
   */
  lemma CheckoutKeepsConsistent(ledgers: map<string, Ledger>, available: map<string, bool>,
                                id: string, isbn: string, checkoutDate: Day)
    requires LedgersConsistent(ledgers, available)
    requires id in ledgers && isbn in available && available[isbn]
    requires |ledgers[id].loans| < MaxBorrowed && isbn !in ledgers[id].loans
    ensures var l := ledgers[id];
      LedgersConsistent(
        ledgers[id := Ledger(l.loans[isbn := checkoutDate], l.history + [BorrowRecord(isbn, checkoutDate, DueDate(checkoutDate))])],
        available[isbn := false])
  {
    var l := ledgers[id];
    var l' := Ledger(l.loans[isbn := checkoutDate], l.history + [BorrowRecord(isbn, checkoutDate, DueDate(checkoutDate))]);
    CheckoutKeepsLedger(l.loans, l.history, isbn, checkoutDate);
    KeptAfterUpdate(ledgers, id, l');
    SingleHolderAfterUpdate(ledgers, id, l');
    OffShelfAfterUpdate(ledgers, available, id, l', isbn, false);
  }

  /** A valid return keeps the library consistent: only its borrower held the book. */
  lemma ReturnKeepsConsistent(ledgers: map<string, Ledger>, available: map<string, bool>,
                              id: string, isbn: string, returnDate: Day)
    requires LedgersConsistent(ledgers, available)
    requires id in ledgers && isbn in ledgers[id].loans && ledgers[id].loans[isbn] <= returnDate
    ensures var l := ledgers[id];
      LedgersConsistent(
        ledgers[id := Ledger(l.loans - {isbn}, CloseLatest(l.history, isbn, returnDate, FineForLoan(l.loans[isbn], returnDate)))],
        available[isbn := true])
  {
    var l := ledgers[id];
    var l' := Ledger(l.loans - {isbn}, CloseLatest(l.history, isbn, returnDate, FineForLoan(l.loans[isbn], returnDate)));
    ReturnKeepsLedger(l.loans, l.history, isbn, returnDate);
    assert forall k :: k in ledgers && k != id ==> isbn !in ledgers[k].loans;
    KeptAfterUpdate(ledgers, id, l');
    SingleHolderAfterUpdate(ledgers, id, l');
    OffShelfAfterUpdate(ledgers, available, id, l', isbn, true);
  }

  class Library {
    var books: map<string, Book>
    /** The isbns in the order they were added: the iteration order of the `books` dict. */
    var bookOrder: seq<string>
    var members: map<string, Member>

    /** Each book is filed under its own isbn and each member under their own id. */
    ghost predicate Valid()
      reads this
    {
      && BooksFiled()
      && MembersFiled()
      && (forall i, j :: 0 <= i < j < |bookOrder| ==> bookOrder[i] != bookOrder[j])
      && (forall isbn :: isbn in books <==> isbn in bookOrder)
    }

    ghost predicate BooksFiled()
      reads this
    {
      forall isbn :: isbn in books ==> books[isbn].isbn == isbn
    }

    ghost predicate MembersFiled()
      reads this
    {
      forall id :: id in members ==> members[id].memberId == id
    }

    /** Each member's loans and history, by member id. */
    ghost function Ledgers(): map<string, Ledger>
      reads this, members.Values
    {
      map id | id in members :: Ledger(members[id].borrowedBooks, members[id].borrowingHistory)
    }

    /** Each book's availability, by isbn. */
    ghost function Availability(): map<string, bool>
      reads this, books.Values
    {
      map isbn | isbn in books :: books[isbn].isAvailable
    }

    /** The loan invariant of the whole library, `LedgersConsistent` on its current state. */
    ghost predicate Consistent()
      reads this, books.Values, members.Values
    {
      LedgersConsistent(Ledgers(), Availability())
    }

    ghost function MemberFrame(memberId: string): set<object>
      reads this
    {
      if memberId in members then {members[memberId]} else {}
    }

    ghost function BookFrame(isbn: string): set<object>
      reads this
    {
      if isbn in books then {books[isbn]} else {}
    }

    constructor ()
      ensures Valid() && Consistent()
      ensures books == map[] && bookOrder == [] && members == map[]
    {
      books := map[];
      bookOrder := [];
      members := map[];
    }

    /** `addBook`: a second book with the same isbn is refused and changes nothing. */
    method AddBook(book: Book) returns (r: Outcome)
      requires Valid()
      modifies this
      ensures Valid()
      ensures old(book.isbn in books) ==> r == Failure(DuplicateKey) && books == old(books) && bookOrder == old(bookOrder)
      ensures old(book.isbn !in books) ==>
        r == Success(()) && books == old(books)[book.isbn := book] && bookOrder == old(bookOrder) + [book.isbn]
      ensures members == old(members)
      ensures old(Consistent()) ==> Consistent()
    {
      if book.isbn in books {
        return Failure(DuplicateKey);
      }
      ghost var ledgers0, available0 := Ledgers(), Availability();
      books := books[book.isbn := book];
      bookOrder := bookOrder + [book.isbn];
      assert Ledgers() == ledgers0;
      assert Availability() == available0[book.isbn := book.isAvailable];
      if LedgersConsistent(ledgers0, available0) {
        AddBookKeepsConsistent(ledgers0, available0, book.isbn, book.isAvailable);
      }
      r := Success(());
    }

    /**
     * `registerMember`: a second member with the same id is refused and
     * changes nothing. A member registered with no loans and no history keeps
     * the loan invariant; the source accepts any member, so one registered
     * with loans already recorded need not.
     */
    method RegisterMember(member: Member) returns (r: Outcome)
      requires Valid()
      modifies this
      ensures Valid()
      ensures old(member.memberId in members) ==> r == Failure(DuplicateKey) && members == old(members)
      ensures old(member.memberId !in members) ==> r == Success(()) && members == old(members)[member.memberId := member]
      ensures books == old(books) && bookOrder == old(bookOrder)
      ensures old(Consistent()) && member.borrowedBooks == map[] && member.borrowingHistory == [] ==> Consistent()
    {
      if member.memberId in members {
        return Failure(DuplicateKey);
      }
      ghost var ledgers0, available0 := Ledgers(), Availability();
      members := members[member.memberId := member];
      assert Ledgers() == ledgers0[member.memberId := Ledger(member.borrowedBooks, member.borrowingHistory)];
      assert Availability() == available0;
      if LedgersConsistent(ledgers0, available0) {
        RegisterKeepsConsistent(ledgers0, available0, member.memberId);
      }
      r := Success(());
    }

    /** `calculateFine`: the live balance as of `asOf`, the sum of the per-loan fines. Changes nothing. */
    method CalculateFine(memberId: string, asOf: Day) returns (r: Result<Cents, LibraryError>)
      requires Valid()
      ensures memberId !in members ==> r == Failure(MemberNotFound)
      ensures memberId in members ==> r == Success(TotalFine(members[memberId].borrowedBooks, asOf))
    {
      if memberId !in members {
        return Failure(MemberNotFound);
      }
      var loans := members[memberId].borrowedBooks;
      var total := 0;
      var pending := loans.Keys;
      while pending != {}
        invariant pending <= loans.Keys
        invariant total + FineOver(pending, loans, asOf) == TotalFine(loans, asOf)
        decreases pending
      {
        var isbn :| isbn in pending;
        FineOverRemove(pending, loans, asOf, isbn);
        total := total + FineForLoan(loans[isbn], asOf);
        pending := pending - {isbn};
      }
      r := Success(total);
    }

    /** `member.fineBalance = self.calculateFine(...)`: only the balance changes. */
    method RefreshBalance(member: Member, asOf: Day)
      requires Valid() && member.memberId in members && members[member.memberId] == member
      modifies member
      ensures member.fineBalance == TotalFine(member.borrowedBooks, asOf)
      ensures member.borrowedBooks == old(member.borrowedBooks) && member.borrowingHistory == old(member.borrowingHistory)
      ensures Ledgers() == old(Ledgers()) && Availability() == old(Availability())
    {
      var total := CalculateFine(member.memberId, asOf);
      member.fineBalance := total.value;
    }

    /** The writes of a successful checkout: the loan, the availability and the open record. */
    method RecordLoan(member: Member, book: Book, checkoutDate: Day)
      requires MembersFiled() && BooksFiled() && member.memberId in members && members[member.memberId] == member
      requires book.isbn in books && books[book.isbn] == book
      modifies member, book
      ensures member.borrowedBooks == old(member.borrowedBooks)[book.isbn := checkoutDate]
      ensures member.borrowingHistory == old(member.borrowingHistory) + [BorrowRecord(book.isbn, checkoutDate, DueDate(checkoutDate))]
      ensures !book.isAvailable && member.fineBalance == old(member.fineBalance)
      ensures Ledgers() == old(Ledgers())[member.memberId := Ledger(member.borrowedBooks, member.borrowingHistory)]
      ensures Availability() == old(Availability())[book.isbn := false]
    {
      ghost var ledgers0, available0 := Ledgers(), Availability();
      member.borrowedBooks := member.borrowedBooks[book.isbn := checkoutDate];
      book.isAvailable := false;
      member.borrowingHistory := member.borrowingHistory + [BorrowRecord(book.isbn, checkoutDate, DueDate(checkoutDate))];
      assert forall id :: id in members && id != member.memberId ==> members[id] != member;
    }

    /** `returnBook`'s loop: close the most recent open record for `isbn`, if any. */
    static method CloseRecord(member: Member, isbn: string, returnDate: Day, fine: Cents)
      modifies member
      ensures member.borrowingHistory == CloseLatest(old(member.borrowingHistory), isbn, returnDate, fine)
      ensures member.borrowedBooks == old(member.borrowedBooks) && member.fineBalance == old(member.fineBalance)
    {
      var found := FindLatestOpen(member.borrowingHistory, isbn);
      if found.Some? {
        var i := found.value;
        member.borrowingHistory := member.borrowingHistory[i := Closed(member.borrowingHistory[i], returnDate, fine)];
      }
    }

    /**
     * The writes of a valid return: the most recent open record for the
     * isbn is closed, the loan ends and the book is available again.
     */
    method CloseLoan(member: Member, book: Book, returnDate: Day, fine: Cents)
      requires MembersFiled() && BooksFiled() && member.memberId in members && members[member.memberId] == member
      requires book.isbn in books && books[book.isbn] == book
      modifies member, book
      ensures member.borrowedBooks == old(member.borrowedBooks) - {book.isbn}
      ensures member.borrowingHistory == CloseLatest(old(member.borrowingHistory), book.isbn, returnDate, fine)
      ensures book.isAvailable && member.fineBalance == old(member.fineBalance)
      ensures Ledgers() == old(Ledgers())[member.memberId := Ledger(member.borrowedBooks, member.borrowingHistory)]
      ensures Availability() == old(Availability())[book.isbn := true]
    {
      ghost var ledgers0, available0 := Ledgers(), Availability();
      CloseRecord(member, book.isbn, returnDate, fine);
      member.borrowedBooks := member.borrowedBooks - {book.isbn};
      book.isAvailable := true;
      assert forall id :: id in members && id != member.memberId ==> members[id] != member;
    }

    /**
     * `checkoutBook`. An unknown member, then an unknown book, fail with no
     * change. Otherwise the member's balance is first refreshed to the live
     * fine as of the checkout date; then the rules are checked in order, and
     * a broken rule leaves loans, availability and history as they were.
     * A successful checkout records the loan, marks the book unavailable
     * and appends one open record due 14 days later; the new loan adds
     * nothing to the refreshed balance.
     */
    method CheckoutBook(memberId: string, isbn: string, checkoutDate: Day) returns (r: Outcome)
      requires Valid()
      modifies MemberFrame(memberId), BookFrame(isbn)
      ensures memberId !in members ==> r == Failure(MemberNotFound)
      ensures memberId in members && isbn !in books ==> r == Failure(BookNotFound)
      ensures r == Failure(MemberNotFound) || r == Failure(BookNotFound) ==>
        unchanged(MemberFrame(memberId)) && unchanged(BookFrame(isbn))
      ensures memberId in members && isbn in books ==>
        var m, b := members[memberId], books[isbn];
        var live := TotalFine(old(m.borrowedBooks), checkoutDate);
        && m.fineBalance == live
        && match CheckoutRuleBroken(live, old(b.isAvailable), old(m.borrowedBooks), isbn)
           case Some(rule) =>
             && r == Failure(CheckoutRuleViolation(rule))
             && m.borrowedBooks == old(m.borrowedBooks)
             && m.borrowingHistory == old(m.borrowingHistory)
             && b.isAvailable == old(b.isAvailable)
           case None =>
             && r == Success(())
             && m.borrowedBooks == old(m.borrowedBooks)[isbn := checkoutDate]
             && m.borrowingHistory == old(m.borrowingHistory) + [BorrowRecord(isbn, checkoutDate, DueDate(checkoutDate))]
             && !b.isAvailable
             && m.fineBalance == TotalFine(m.borrowedBooks, checkoutDate)
      ensures old(Consistent()) ==> Consistent()
    {
      if memberId !in members {
        return Failure(MemberNotFound);
      }
      var member := members[memberId];
      if isbn !in books {
        return Failure(BookNotFound);
      }
      var book := books[isbn];
      RefreshBalance(member, checkoutDate);
      ghost var ledgers0, available0 := Ledgers(), Availability();
      var broken := CheckoutRuleBroken(member.fineBalance, book.isAvailable, member.borrowedBooks, isbn);
      if broken.Some? {
        return Failure(CheckoutRuleViolation(broken.value));
      }

      ghost var loans0 := member.borrowedBooks;
      RecordLoan(member, book, checkoutDate);
      RefreshBalance(member, checkoutDate);
      TotalFineAdd(loans0, isbn, checkoutDate, checkoutDate);
      if LedgersConsistent(ledgers0, available0) {
        CheckoutKeepsConsistent(ledgers0, available0, memberId, isbn, checkoutDate);
      }
      r := Success(());
    }

    /**
     * `returnBook`. Fails, changing nothing, for an unknown member or book,
     * an isbn the member does not hold, or a return date before the checkout
     * date. Otherwise it closes the most recent open record for the isbn,
     * ends the loan, makes the book available, refreshes the balance over
     * the remaining loans and returns this loan's fine.
     */
    method ReturnBook(memberId: string, isbn: string, returnDate: Day) returns (r: Result<Cents, LibraryError>)
      requires Valid()
      modifies MemberFrame(memberId), BookFrame(isbn)
      ensures memberId !in members ==> r == Failure(MemberNotFound)
      ensures memberId in members && isbn !in books ==> r == Failure(BookNotFound)
      ensures memberId in members && isbn in books && isbn !in old(members[memberId].borrowedBooks) ==>
        r == Failure(CheckoutRuleViolation(NotBorrowed))
      ensures (memberId in members && isbn in books && isbn in old(members[memberId].borrowedBooks) &&
        returnDate < old(members[memberId].borrowedBooks[isbn])) ==>
        r == Failure(CheckoutRuleViolation(ReturnBeforeCheckout))
      ensures (memberId in members && isbn in books && isbn in old(members[memberId].borrowedBooks) &&
        returnDate >= old(members[memberId].borrowedBooks[isbn])) ==> r.Success?
      ensures r.Failure? ==> unchanged(MemberFrame(memberId)) && unchanged(BookFrame(isbn))
      ensures r.Success? ==>
        var m, b := members[memberId], books[isbn];
        var checkoutDate := old(m.borrowedBooks[isbn]);
        var fine := FineForLoan(checkoutDate, returnDate);
        && memberId in members && isbn in books && isbn in old(m.borrowedBooks) && checkoutDate <= returnDate
        && r.value == fine
        && m.borrowedBooks == old(m.borrowedBooks) - {isbn}
        && b.isAvailable
        && m.borrowingHistory == CloseLatest(old(m.borrowingHistory), isbn, returnDate, fine)
        && m.fineBalance == TotalFine(m.borrowedBooks, returnDate)
        && m.fineBalance == TotalFine(old(m.borrowedBooks), returnDate) - fine
      ensures old(Consistent()) ==> Consistent()
    {
      if memberId !in members {
        return Failure(MemberNotFound);
      }
      var member := members[memberId];
      if isbn !in books {
        return Failure(BookNotFound);
      }
      var book := books[isbn];
      if isbn !in member.borrowedBooks {
        return Failure(CheckoutRuleViolation(NotBorrowed));
      }
      var checkoutDate := member.borrowedBooks[isbn];
      if returnDate < checkoutDate {
        return Failure(CheckoutRuleViolation(ReturnBeforeCheckout));
      }
      ghost var ledgers0, available0 := Ledgers(), Availability();
      ghost var loans0 := member.borrowedBooks;

      var fine := FineForLoan(checkoutDate, returnDate);
      CloseLoan(member, book, returnDate, fine);
      RefreshBalance(member, returnDate);
      TotalFineRemove(loans0, isbn, returnDate);
      if LedgersConsistent(ledgers0, available0) {
        ReturnKeepsConsistent(ledgers0, available0, memberId, isbn, returnDate);
      }
      r := Success(fine);
    }

    /** The available books among the isbns in `order`, in that order. */
    ghost function AvailableIn(order: seq<string>): (r: seq<Book>)
      reads this, books.Values
      requires forall i :: 0 <= i < |order| ==> order[i] in books
      ensures forall b :: b in r ==> b in books.Values && b.isAvailable
      ensures forall i :: 0 <= i < |order| && books[order[i]].isAvailable ==> books[order[i]] in r
    {
      if order == [] then []
      else
        var last := books[order[|order| - 1]];
        AvailableIn(order[..|order| - 1]) + (if last.isAvailable then [last] else [])
    }

    /** `getAvailableBooks`: exactly the available books, in the order they were added. Changes nothing. */
    method GetAvailableBooks() returns (r: seq<Book>)
      requires Valid()
      ensures r == AvailableIn(bookOrder)
      ensures forall b :: b in r <==> b in books.Values && b.isAvailable
    {
      r := [];
      var i := 0;
      while i < |bookOrder|
        invariant 0 <= i <= |bookOrder|
        invariant r == AvailableIn(bookOrder[..i])
      {
        assert bookOrder[..i + 1][..i] == bookOrder[..i];
        var book := books[bookOrder[i]];
        if book.isAvailable {
          r := r + [book];
        }
        i := i + 1;
      }
      assert bookOrder[..i] == bookOrder;
      forall b | b in books.Values && b.isAvailable
        ensures b in r
      {
        var isbn :| isbn in books && books[isbn] == b;
        var k :| 0 <= k < |bookOrder| && bookOrder[k] == isbn;
      }
    }

    /** `getMemberBorrowingHistory`: the member's whole history, oldest first. Changes nothing. */
    method GetMemberBorrowingHistory(memberId: string) returns (r: Result<seq<BorrowRecord>, LibraryError>)
      requires Valid()
      ensures memberId !in members ==> r == Failure(MemberNotFound)
      ensures memberId in members ==> r == Success(members[memberId].borrowingHistory)
    {
      if memberId !in members {
        return Failure(MemberNotFound);
      }
      r := Success(members[memberId].borrowingHistory);
    }
  }

}
