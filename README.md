# Library loans and order invoicing, modelled in Dafny

This project models the two programs of the repository.

**Task1: a small library.** `Library` keeps a catalogue of `Book`s and a register of `Member`s.
- `checkoutBook` lends a book to a member under four rules, checked in this order:
  1. the live fine must not exceed $10.00;
  2. the book must be available;
  3. the member may hold at most three books;
  4. the member may not hold the same isbn twice.
- A successful checkout records the loan, marks the book unavailable and appends an open `BorrowRecord` that is due 14 days later.
- `returnBook` closes the most recent open record for the isbn, ends the loan, makes the book available again and charges $0.50 for every day past the due date.
- `calculateFine` is the live fine: the sum of the per-loan fines of the active loans.
- `getAvailableBooks` and `getMemberBorrowingHistory` read the state.

The library, its books and its members are classes whose fields the methods update in place, with `modifies` frames. The dates are day numbers and the money is whole cents. Every per-loan fine is a multiple of $0.50, so the source's `round(..., 2)` on floats is exact in cents.

Besides each operation's own contract, a library-wide loan invariant (`LibrarySystem.LedgersConsistent`) is proved to be kept by every operation:
- each member has at most three loans;
- each open record belongs to an active loan;
- each closed record carries its loan's fine;
- each active loan has exactly one open record;
- a lent book is in the catalogue and is not available;
- no two members hold the same isbn.

**Task2: an order invoice pipeline** (`order_processor.py`). `parse_orders` reads `|`-separated lines. It skips blank lines and comments, checks each remaining line in a fixed order and logs the line number, reason and raw text of each rejected line:
1. the field count;
2. empty names;
3. the quantity must be a positive integer;
4. the price must be a non-negative decimal, rounded half-up to cents;
5. the date must be `%Y-%m-%d`.

The rest of the pipeline:
- `OrderLine` computes a line total, a 10% discount above $500.00 and a net total.
- `summarize_by_customer` groups the lines into one `CustomerSummary` per customer, kept in first-seen order.
- `format_report` sorts the summaries by lower-cased name and accumulates a grand-total row.

`Decimal` amounts are integer cents, and `quantize(..., ROUND_HALF_UP)` is `Money.RoundHalfUp` on an exact fraction. Python's `int()`, `Decimal()`, `strptime`, `str.strip`, `str.split` and `str.lower` are written out as functions on strings.

Module layout:
- `Wrappers`, `Numerals`, `PyStr`: option and result types, digit strings, and Python string helpers.
- `Money`: decimals, rounding and money text.
- `Books`, `Members`, `Fines`, `LibrarySystem`, `LibraryScenarios`: Task1.
- `OrderDates`, `Orders`, `OrderParsing`, `OrderSummary`, `OrderReport`: Task2.

Where the code's own comments and the code differ, the model follows the code:
- The comment on `Member.fineBalance` speaks of fines charged on return. The code stores the live fine of the remaining loans, refreshed at every checkout and return.
- `checkoutBook` writes the refreshed balance before it checks the rules. A refused checkout therefore leaves loans, availability and history alone, but not the balance.
- `_parse_date` is documented as strict ISO, but `strptime("%Y-%m-%d")` also accepts a one-digit month or day (`2024-3-5`). See `OrderDates.ShortFieldsAccepted`.
- `Book` takes an `isAvailable` argument, so a book can be catalogued as already unavailable with nobody holding it. The loan invariant is therefore one-way: a lent book is unavailable.

## Model

| member | source | states |
|---|---|---|
| Books.Book.constructor | Task1/src/library_system/models/book.py:2-6 | the fields are the arguments; availability defaults to true |
| Books.Book.ToString | Task1/src/library_system/models/book.py:8-10 | the text starts with "title by author (ISBN: isbn)", ends in " - " and the status, and is exactly as long as the two, so it is the one string "title by author (ISBN: isbn) - status"; it ends in " - Available" exactly when the book is available, otherwise in " - Checked out" |
| Members.NewRecordIsOpen | Task1/src/library_system/models/member.py:6-12 | a new borrow record has no return date and no fine charged |
| Members.Member.constructor | Task1/src/library_system/models/member.py:15-27 | the fields are the arguments; loans, history and balance default to empty and zero |
| Members.Member.ToString | Task1/src/library_system/models/member.py:29-30 | the text starts with "Member id: name (Fine: $", ends in the balance with two decimals and ")", and is exactly as long as the two, so nothing lies between them |
| Fines.DueDate | Task1/src/library_system/models/library.py:35-36 | a loan is due 14 days after its checkout date |
| Fines.FineForLoan | Task1/src/library_system/models/library.py:39-44 | a loan's fine is zero exactly up to and including its due date, and always a whole number of $0.50 days |
| Fines.FineZeroUntilDue | Task1/src/library_system/models/library.py:39-44 | a loan's fine is zero exactly when the date is on or before the due date, 14 days after checkout |
| Fines.FineLinear | Task1/src/library_system/models/library.py:39-44 | n days past the due date cost n times $0.50 |
| Fines.FineMonotone | Task1/src/library_system/models/library.py:39-44 | a loan's fine never decreases over time and grows by at most $0.50 a day |
| Fines.FineOverRemove | Task1/src/library_system/models/library.py:127-131 | the sum of fines over a set of loans is one loan's fine plus the sum over the rest |
| Fines.FineOverFrame | Task1/src/library_system/models/library.py:127-131 | the sum of fines depends only on the checkout dates of the loans summed |
| Fines.TotalFineAdd | Task1/src/library_system/models/library.py:127-131 | a new loan adds exactly its own fine to the live total |
| Fines.TotalFineRemove | Task1/src/library_system/models/library.py:127-131 | ending a loan subtracts exactly its fine from the live total |
| Fines.TotalFineSameDay | Task1/src/library_system/models/library.py:127-131 | loans made on the same day owe their count times one loan's fine |
| LibrarySystem.CheckoutRuleBroken | Task1/src/library_system/models/library.py:68-79 | the first broken rule, in the code's order: a fine over $10.00 first, then an unavailable book, then three loans held, then the isbn already held; none exactly when all four pass |
| LibrarySystem.FineBlockIsStrict | Task1/src/library_system/models/library.py:69 | a balance of exactly $10.00 does not block a checkout, and $10.01 does |
| LibrarySystem.LatestOpen | Task1/src/library_system/models/library.py:109-113 | the index found is an open record for the isbn with no open record for it after it; none exactly when the history has no open record for it |
| LibrarySystem.FindLatestOpen | Task1/src/library_system/models/library.py:109-113 | the reversed search of the history finds the most recent open record for the isbn |
| LibrarySystem.CloseLatest | Task1/src/library_system/models/library.py:109-113 | the history keeps its length; only the most recent open record for the isbn is closed with the return date and fine, and nothing changes if there is none |
| LibrarySystem.OpenCountFound | Task1/src/library_system/models/library.py:109-113 | a history with an open record for the isbn has a most recent one |
| LibrarySystem.OpenCountClose | Task1/src/library_system/models/library.py:111-112 | closing an open record lowers that isbn's open count by one and leaves every other isbn's count alone |
| LibrarySystem.OpenCountNone | Task1/src/library_system/models/library.py:109-113 | a history without open records for an isbn has an open count of zero |
| LibrarySystem.OpenCountPositive | Task1/src/library_system/models/library.py:109-113 | a history with an open record for an isbn has a positive open count |
| LibrarySystem.EmptyLedger | Task1/src/library_system/models/member.py:20-24 | a member with no loans and no history satisfies the ledger invariant |
| LibrarySystem.CheckoutKeepsLedger | Task1/src/library_system/models/library.py:81-90 | a checkout within the limits keeps one member's ledger invariant |
| LibrarySystem.ReturnKeepsLedger | Task1/src/library_system/models/library.py:100-115 | a valid return finds an open record for the isbn and keeps the ledger invariant |
| LibrarySystem.KeptAfterUpdate | Task1/src/library_system/models/library.py:81-90 | replacing one member's ledger by one that keeps the invariant keeps every ledger's invariant |
| LibrarySystem.OffShelfNoLoans | Task1/src/library_system/models/library.py:55-60 | a member with no loans keeps every lent book unavailable |
| LibrarySystem.OffShelfAfterUpdate | Task1/src/library_system/models/library.py:81-82 | updating one ledger and one book's availability keeps every lent book unavailable when the new loans are unavailable and a returned book is held by nobody else |
| LibrarySystem.SingleHolderAfterUpdate | Task1/src/library_system/models/library.py:81 | a ledger whose isbns nobody else holds keeps one holder per isbn |
| LibrarySystem.AddBookKeepsConsistent | Task1/src/library_system/models/library.py:47-52 | adding a book under a new isbn keeps the library's loan invariant, whatever its availability |
| LibrarySystem.RegisterKeepsConsistent | Task1/src/library_system/models/library.py:55-60 | registering a member with no loans keeps the loan invariant |
| LibrarySystem.CheckoutKeepsConsistent | Task1/src/library_system/models/library.py:63-92 | a checkout of an available book within the limits keeps the loan invariant |
| LibrarySystem.ReturnKeepsConsistent | Task1/src/library_system/models/library.py:95-120 | a valid return keeps the loan invariant |
| LibrarySystem.Library.constructor | Task1/src/library_system/models/library.py:18-20 | a new library has no books and no members and satisfies the loan invariant |
| LibrarySystem.Library.AddBook | Task1/src/library_system/models/library.py:47-52 | a duplicate isbn is refused and nothing changes; otherwise the book is filed under its isbn, after the others in catalogue order, and the loan invariant is kept |
| LibrarySystem.Library.RegisterMember | Task1/src/library_system/models/library.py:55-60 | a duplicate id is refused and nothing changes; otherwise the member is filed under their id, and the loan invariant is kept for a member with no loans |
| LibrarySystem.Library.CalculateFine | Task1/src/library_system/models/library.py:123-131 | an unknown member fails; otherwise the result is the sum of the fines of the member's active loans as of the date |
| LibrarySystem.Library.RefreshBalance | Task1/src/library_system/models/library.py:68 | the balance becomes the live fine; loans, history and availability are unchanged |
| LibrarySystem.Library.RecordLoan | Task1/src/library_system/models/library.py:81-90 | the loan is recorded, the book becomes unavailable and one open record due 14 days later is appended |
| LibrarySystem.Library.CloseRecord | Task1/src/library_system/models/library.py:109-113 | the member's history becomes the old one with its most recent open record for the isbn closed in place, and unchanged if there is none; loans and balance stay as they were |
| LibrarySystem.Library.CloseLoan | Task1/src/library_system/models/library.py:109-116 | the most recent open record is closed, the loan ends and the book becomes available |
| LibrarySystem.Library.CheckoutBook | Task1/src/library_system/models/library.py:63-92 | an unknown member, then an unknown book, fail and change nothing. Otherwise the balance is refreshed first and the first broken rule fails, leaving loans, history and availability unchanged. A success records the loan, marks the book unavailable and appends an open record. The loan invariant is kept |
| LibrarySystem.Library.ReturnBook | Task1/src/library_system/models/library.py:95-120 | an unknown member or book, a book not held, or a date before the checkout fails and changes nothing; a held book returned on or after its checkout date succeeds. A success returns the loan's fine, closes the latest open record, ends the loan, makes the book available and sets the balance to the old live fine less this one. The loan invariant is kept |
| LibrarySystem.Library.AvailableIn | Task1/src/library_system/models/library.py:134-135 | every book listed is in the catalogue and available, and every available book of the order is listed |
| LibrarySystem.Library.GetAvailableBooks | Task1/src/library_system/models/library.py:134-135 | exactly the available books, in catalogue order |
| LibrarySystem.Library.GetMemberBorrowingHistory | Task1/src/library_system/models/library.py:138-140 | an unknown member fails; otherwise the result is the member's whole history |
| LibraryScenarios.ThreeLoansOweNine | Task1/tests/test_library.py:44-51 | three loans made on one day owe $9.00 twenty days later |
| LibraryScenarios.ReturnLeavesSix | Task1/tests/test_library.py:54-67 | returning one of them charges $3.00 and leaves $6.00 owed |
| LibraryScenarios.FourthLoanRefused | Task1/tests/test_library.py:35-41 | a fourth loan is refused by the loan limit |
| LibraryScenarios.OverdueLoansBlock | Task1/tests/test_library.py:72-83 | two loans 37 days old owe $23.00, which blocks a checkout |
| LibraryScenarios.SecondCheckoutUnavailable | Task1/tests/test_library.py:29-32 | a second checkout of a lent book is refused because it is not available |
| LibraryScenarios.UnknownMember | Task1/tests/test_library.py:19-21 | on the fixture library, `checkoutBook` by an unknown member fails with MemberNotFound |
| LibraryScenarios.UnknownBook | Task1/tests/test_library.py:24-26 | on the fixture library, `checkoutBook` of an unknown isbn fails with BookNotFound |
| LibraryScenarios.CheckoutUnavailable | Task1/tests/test_library.py:29-32 | `checkoutBook` twice of the same book: the second call fails as not available |
| LibraryScenarios.CheckoutMaxThree | Task1/tests/test_library.py:35-41 | three `checkoutBook` calls succeed and the fourth fails for the loan limit |
| LibraryScenarios.OverdueThreeBooks | Task1/tests/test_library.py:44-51 | after three `checkoutBook` calls, `calculateFine` twenty days later returns $9.00 |
| LibraryScenarios.ReturnUpdatesLiveFine | Task1/tests/test_library.py:54-69 | `returnBook` returns $3.00, the stored balance becomes $6.00, `calculateFine` agrees, and the book is available again |
| LibraryScenarios.FineBlocksCheckout | Task1/tests/test_library.py:72-83 | after one return, the two loans left make a `checkoutBook` on day d+37 fail for the fine limit |
| LibraryScenarios.ReturnNotBorrowed | Task1/tests/test_library.py:86-88 | `returnBook` of a book the member does not hold fails as not borrowed |
| LibraryScenarios.ReturnBeforeCheckoutDate | Task1/tests/test_library.py:91-95 | `returnBook` dated the day before the checkout fails |
| Orders.OrderLine.LineTotal | Task2/order_processor.py:26-29 | non-negative for a non-negative quantity and price; one item costs the unit price |
| Orders.OrderLine.Discount | Task2/order_processor.py:31-37 | zero up to $500.00; above it, 10% of the line total rounded half-up to the cent; positive exactly above $500.00 |
| Orders.OrderLine.NetTotal | Task2/order_processor.py:39-42 | the line total up to $500.00; above it, 90% of the line total to within half a cent |
| Orders.NetWithinTotal | Task2/order_processor.py:39-42 | the net total lies between zero and the line total |
| Orders.ThresholdLineUndiscounted | Task2/tests/test_order_processor.py:19-30 | a $500.00 line gets no discount |
| Orders.JustOverThreshold | Task2/tests/test_order_processor.py:33-44 | a $500.01 line gets a $50.00 discount and nets $450.01 |
| Money.RoundHalfUp | Task2/order_processor.py:29 | the result is within half a unit of the exact quotient, and a tie goes away from zero |
| Money.RoundHalfUpOdd | Task2/order_processor.py:29 | rounding is symmetric about zero |
| Money.RoundHalfUpUnique | Task2/order_processor.py:29 | any integer within half a unit, with ties away from zero, is the rounded value |
| Money.RoundHalfUpExact | Task2/order_processor.py:29 | an exact multiple rounds to itself |
| Money.ParseUnsignedPoint | Task2/order_processor.py:70-73 | digits, a point and digits read as that positional decimal |
| Money.Quantize | Task2/order_processor.py:73 | a result is the decimal rounded to cents, within half a cent and a tie away from zero, and fits the 28-digit context; it is refused exactly when the rounded value does not fit |
| Money.HalfCentRoundsAway | Task2/order_processor.py:73 | 0.005 rounds to 0.01 and -0.005 to -0.01 |
| Money.ParseMoney | Task2/order_processor.py:70-73 | text that is not a decimal is refused; a decimal is refused exactly when its value rounded half-up to cents does not fit the 28-digit context, and otherwise reads as that rounded value |
| Money.QuantizeCents | Task2/order_processor.py:73 | a value already in cents quantizes to itself |
| Money.MoneyRoundTrip | Task2/order_processor.py:70-73 | parsing an amount written with two decimals gives the amount back |
| Money.ParseFormatted | Task2/order_processor.py:72 | an amount written with two decimals reads as that decimal |
| Money.FormatMoney | Task1/src/library_system/models/member.py:30 | the text ends in a point and two digits, starts with '-' exactly for a negative amount, and between the sign and the point has digits with no leading zero other than a lone "0" |
| Numerals.ParseInt | Task2/order_processor.py:113 | accepted exactly for ASCII digits with an optional leading '+' or '-'; the value is the digits' value, negated after '-' |
| Numerals.IntRoundTrip | Task2/order_processor.py:113 | a number's decimal text reads back as the number |
| OrderDates.ParseDate | Task2/order_processor.py:65-67 | an accepted date is a calendar date |
| OrderDates.ParseDateFields | Task2/order_processor.py:65-67 | a four-digit year, a dash, a month and a dash, then a day, are read field by field |
| OrderDates.DateRoundTrip | Task2/order_processor.py:65-67 | a calendar date written as YYYY-MM-DD parses back to itself |
| OrderDates.ShortFieldsAccepted | Task2/order_processor.py:65-67 | `2024-3-5` is accepted as 5 March 2024 |
| OrderDates.ImpossibleDayRefused | Task2/order_processor.py:65-67 | 29 February 2023 is refused |
| OrderDates.LeapDayAccepted | Task2/order_processor.py:65-67 | 29 February 2024 is accepted |
| PyStr.Strip | Task2/order_processor.py:95 | the result has no blanks at either end |
| PyStr.StripIdempotent | Task2/order_processor.py:95-99 | stripping twice is stripping once |
| PyStr.JoinSplit | Task2/order_processor.py:99 | joining the pieces of a split with the separator gives the line back |
| PyStr.SplitJoin | Task2/order_processor.py:99 | splitting a join of separator-free pieces gives the pieces back |
| PyStr.Lower | Task2/order_processor.py:199 | the same length, with each ASCII capital mapped to its lower case |
| PyStr.LessTransitive | Task2/order_processor.py:199 | string order is transitive |
| PyStr.LessTrichotomy | Task2/order_processor.py:199 | any two strings are ordered or equal |
| OrderParsing.SplitFields | Task2/order_processor.py:99 | one field per piece of the split, each without surrounding blanks |
| OrderParsing.CheckFields | Task2/order_processor.py:99-145 | an accepted record holds the names as read and the quantity, price and date their fields parse to |
| OrderParsing.FirstFailingCheck | Task2/order_processor.py:100-134 | each rejection reason holds exactly when every earlier check passes and its own fails: field count, empty names, quantity, price, date; acceptance exactly when all pass |
| OrderParsing.NegativeQuantityRefused | Task2/tests/test_order_processor.py:76 | a quantity of -1 is refused as an invalid quantity |
| OrderParsing.ZeroQuantityRefused | Task2/tests/test_order_processor.py:77 | a quantity of 0 is refused as an invalid quantity |
| OrderParsing.ClassifyLine | Task2/order_processor.py:95-97 | a line is skipped exactly when it is blank or a comment once stripped |
| OrderParsing.AcceptedLineValid | Task2/order_processor.py:107-134 | an accepted line holds non-empty names, a positive quantity, a non-negative price and a calendar date |
| OrderParsing.ValidateLine | Task2/order_processor.py:95-145 | the loop body's outcome for one line is that line's classification |
| OrderParsing.ParseOrders | Task2/order_processor.py:91-149 | the records and the error log are those of the file's lines taken in order |
| OrderParsing.LoopStep | Task2/order_processor.py:94-145 | each line extends the records and the log by exactly what its outcome adds |
| OrderParsing.EveryLineAccounted | Task2/order_processor.py:94-145 | every line is kept, logged or skipped, and only one of these |
| OrderParsing.AcceptedAreValid | Task2/order_processor.py:107-145 | every record returned is valid |
| OrderParsing.ErrorsNameTheirLines | Task2/order_processor.py:101-133 | each log entry names a line of the file by its 1-based number, carries it as read and the reason it is rejected for; entries come in line order |
| OrderParsing.RejectedIsLogged | Task2/order_processor.py:101-133 | a line is rejected exactly when the log has an entry for it |
| OrderParsing.RenderedRecordAccepted | Task2/order_processor.py:94-145 | a record written as a line of the file format parses back to itself |
| OrderParsing.RenderedFileParses | Task2/order_processor.py:94-149 | a file written record by record parses back to the same records with an empty log |
| OrderSummary.SummarizeByCustomer | Task2/order_processor.py:152-179 | the loop's dictionary and key order are those of adding the lines one by one |
| OrderSummary.SummarizeValid | Task2/order_processor.py:161-177 | the keys are distinct, each key has an entry and only those, and each entry is filed under its own customer |
| OrderSummary.SummarizeEntries | Task2/order_processor.py:152-179 | there is an entry exactly for each customer with a line, holding that customer's distinct order ids and the sums of the quantities, line totals and discounts of its lines |
| Orders.CustomerSummary.NumOrders | Task2/order_processor.py:54-57 | no orders exactly when there is no order id |
| Orders.CustomerSummary.NetTotal | Task2/order_processor.py:59-62 | the net total plus the discounts is the gross, so it is no more than the gross |
| OrderSummary.GrowCountsDistinct | Task2/order_processor.py:174 | a line with an order id already seen leaves the order count alone; a new id adds one |
| OrderSummary.SummaryOfCustomer | Task2/order_processor.py:54-62 | a customer's order count is its number of distinct order ids, its net total its gross less its discounts |
| OrderSummary.SummariesConserveTotals | Task2/order_processor.py:163-177 | the summaries' items, gross and discounts add up to those of all the lines |
| OrderSummary.AliceAndBob | Task2/tests/test_order_processor.py:93-116 | Alice: 2 orders, 3 items, $620.00 gross, $60.00 discount, $560.00 net; Bob: 1 order, 3 items, $15.00 with no discount |
| OrderReport.SortByName | Task2/order_processor.py:199 | as many rows as summaries; SortSorted, SortPermutes and SortStable state the order |
| OrderReport.SortSorted | Task2/order_processor.py:199 | the rows are in order of lower-cased customer name |
| OrderReport.SortPermutes | Task2/order_processor.py:199 | sorting neither adds nor drops a summary |
| OrderReport.SortStable | Task2/order_processor.py:199 | summaries with the same key keep their order |
| OrderReport.SortSums | Task2/order_processor.py:199 | sorting leaves the column sums unchanged |
| OrderReport.FormatReport | Task2/order_processor.py:182-242 | one row per summary in sorted order, and a grand-total row whose columns are the column sums over all summaries, its net the grand gross less the grand discount |
| OrderReport.NetInIsGrossLessDiscount | Task2/order_processor.py:39-42 | the net totals of some lines sum to their gross less their discounts |
| OrderReport.GrandTotalsOfLines | Task2/order_processor.py:152-242 | the grand-total items, gross, discount and net of the report equal the sums over all the order lines |

## Left out

- Floating point: fines are exact in cents, because every fine is a multiple of $0.50 and the amounts stay far below where binary floats lose cents.
- Python's `Decimal`: amounts are integer cents. The decimal context is modelled only by its 28-digit limit in `Money.Quantize`. Every sum in the code is re-quantized to cents; on amounts already in cents below 10^28 cents that changes nothing.
- Orders.OrderLine.LineTotal, OrderSummary.SummarizeByCustomer and OrderReport.FormatReport: amounts are unbounded integers, so the `decimal.InvalidOperation` that `quantize` raises once a line total, a customer's sum or a grand total reaches 10^28 cents is not modelled; `parse_orders` bounds neither the quantity nor the number of lines, so such a file is accepted and the code then fails in `summarize_by_customer` or `format_report`.
- `int()` accepts an optional sign and ASCII digits. Underscores, surrounding blanks inside a field and non-ASCII digits are not modelled, nor is the limit of 4300 digits on Python 3.11 and later, past which `int()` raises ValueError and the line is logged as an invalid quantity.
- `Decimal()` accepts an optional sign, digits and an optional fraction. Exponents, `NaN`, `Infinity`, underscores and non-ASCII Unicode digits (which `Decimal()` also accepts) are not modelled, so such fields count as unparseable. Nor is a negative zero: a price such as `-0.001` quantizes to `Decimal('-0.00')`, which is accepted and may be written `-0.00`; the model's whole cents have no sign on zero.
- `str.lower` is modelled on ASCII letters only. `str.isspace` and `str.strip` use Python's whole set of whitespace characters.
- `strptime`'s digits: Python's `%Y`, `%m` and `%d` also accept non-ASCII Unicode decimal digits; `OrderDates` accepts ASCII digits only.
- The order-id, customer and product fields are not restricted by the code; `OrderParsing.Writable` restricts them only for the write-and-read-back lemmas.
- File I/O is not modelled: the existence check of the input file, `read_text().splitlines()` and the error file write. `ParseOrders` takes the lines and returns the error entries.
- The text of the error messages is not modelled. An error entry keeps its line number, reason and raw line.
- `date.today()` as a default date is left out: every date is a parameter.
- Fines.DueDate: day numbers are unbounded, so a due date past 31 December 9999, where `_due_date` raises OverflowError, is not modelled.
- `generate_invoice_summary` and the command line around it are not part of this model; they only chain the modelled steps with file I/O.
- `format_report`'s layout is not modelled: headers, column widths, padding and the thousands separator. `FormatReport` returns the table rows as values.
- The `isinstance` checks of `addBook` and `registerMember` are left out: the Dafny types already rule out a non-Book or non-Member.
- `demo.py`, `conftest.py` and the package `__init__.py` are not part of this model.
- Aliasing is not modelled. A `BorrowRecord` and a `CustomerSummary` are values: closing a record replaces it in the history, and a summary is replaced in its dictionary entry.
- Orders.OrderLine.LineTotal: assumes a unit price in whole cents, as `_parse_money` produces. An `OrderLine` built directly with a finer price would be rounded by the code, and that case is not modelled.
- LibrarySystem.Library.RegisterMember: the loan invariant is proved only for a member registered with no loans and no history. The code accepts any member.
