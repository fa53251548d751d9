/**
 * `parse_orders` (Task2/order_processor.py) over the lines of the input
 * file: each line is skipped, accepted as an `OrderLine`, or rejected with
 * the reason of the first check it fails.
 */
module OrderParsing {
  import opened Wrappers
  import opened Numerals
  import opened PyStr
  import opened Money
  import opened OrderDates
  import opened Orders

  const FieldSeparator: char := '|'
  const FieldCount: nat := 6
  const CommentMarker: char := '#'

  /** Why a line was rejected; the error log's message text is not modelled. */
  datatype Reason =
    | WrongFieldCount(count: nat)
    | EmptyField
    | InvalidQuantity
    | InvalidUnitPrice
    | InvalidDate

  /** One entry of the error log: the 1-based line number, the reason and the line as read. */
  datatype ParseError = ParseError(lineNo: nat, reason: Reason, raw: string)

  /** What the loop does with one line. */
  datatype Outcome = Skipped | Accepted(line: OrderLine) | Rejected(reason: Reason)

  /** A stripped line that is blank or a comment is skipped. */
  predicate IsSkipped(line: string)
  {
    line == [] || line[0] == CommentMarker
  }

  /** Each piece with its surrounding blanks removed. */
  function StripAll(pieces: seq<string>): (parts: seq<string>)
    ensures |parts| == |pieces|
    ensures forall k :: 0 <= k < |parts| ==> Trimmed(parts[k])
  {
    seq(|pieces|, k requires 0 <= k < |pieces| => Strip(pieces[k]))
  }

  /** Pieces without surrounding blanks are left as they are. */
  lemma StripAllTrimmed(pieces: seq<string>)
    requires forall k :: 0 <= k < |pieces| ==> Trimmed(pieces[k])
    ensures StripAll(pieces) == pieces
  {
    forall k | 0 <= k < |pieces|
      ensures StripAll(pieces)[k] == pieces[k]
    {
      StripTrimmed(pieces[k]);
    }
  }

  /** `[p.strip() for p in line.split("|")]`. */
  function SplitFields(line: string): (parts: seq<string>)
    ensures |parts| == |Split(line, FieldSeparator)|
    ensures forall k :: 0 <= k < |parts| ==> Trimmed(parts[k])
  {
    StripAll(Split(line, FieldSeparator))
  }

  predicate NamesPresent(parts: seq<string>)
    requires |parts| == FieldCount
  {
    parts[0] != [] && parts[1] != [] && parts[2] != []
  }

  /** `int(qty_s)` succeeds and is positive. */
  predicate QuantityOk(text: string)
  {
    ParseInt(text).Some? && ParseInt(text).value > 0
  }

  /** `_parse_money(price_s)` succeeds and is not negative. */
  predicate PriceOk(text: string)
  {
    ParseMoney(text).Some? && ParseMoney(text).value >= 0
  }

  /** What an accepted record always satisfies. */
  predicate ValidRecord(ol: OrderLine)
  {
    && ol.orderId != [] && ol.customer != [] && ol.product != []
    && Trimmed(ol.orderId) && Trimmed(ol.customer) && Trimmed(ol.product)
    && ol.quantity > 0 && ol.unitPrice >= 0
    && IsCalendarDate(ol.orderDate)
  }

  /**
   * The checks on the fields of a line that is neither blank nor a comment,
   * in the order the loop makes them. An accepted record holds the fields
   * as read and the values they parse to.
   */
  function CheckFields(parts: seq<string>): (r: Outcome)
    ensures r != Skipped
    ensures r.Accepted? ==>
      && |parts| == FieldCount
      && r.line.orderId == parts[0] && r.line.customer == parts[1] && r.line.product == parts[2]
      && ParseInt(parts[3]) == Some(r.line.quantity)
      && ParseMoney(parts[4]) == Some(r.line.unitPrice)
      && ParseDate(parts[5]) == Some(r.line.orderDate)
  {
    if |parts| != FieldCount then Rejected(WrongFieldCount(|parts|))
    else if parts[0] == [] || parts[1] == [] || parts[2] == [] then Rejected(EmptyField)
    else match ParseInt(parts[3])
      case None => Rejected(InvalidQuantity)
      case Some(qty) =>
        if qty <= 0 then Rejected(InvalidQuantity)
        else match ParseMoney(parts[4])
          case None => Rejected(InvalidUnitPrice)
          case Some(unitPrice) =>
            if unitPrice < 0 then Rejected(InvalidUnitPrice)
            else match ParseDate(parts[5])
              case None => Rejected(InvalidDate)
              case Some(orderDate) => Accepted(OrderLine(parts[0], parts[1], parts[2], qty, unitPrice, orderDate))
  }

  /**
   * The checks run in a fixed order and the first one to fail decides: each
   * rejection means every earlier check passed and its own check failed,
   * and acceptance means that all of them passed.
   */
  lemma FirstFailingCheck(parts: seq<string>)
    ensures CheckFields(parts) == Rejected(WrongFieldCount(|parts|)) <==> |parts| != FieldCount
    ensures CheckFields(parts) == Rejected(EmptyField) <==> |parts| == FieldCount && !NamesPresent(parts)
    ensures CheckFields(parts) == Rejected(InvalidQuantity) <==>
      |parts| == FieldCount && NamesPresent(parts) && !QuantityOk(parts[3])
    ensures CheckFields(parts) == Rejected(InvalidUnitPrice) <==>
      |parts| == FieldCount && NamesPresent(parts) && QuantityOk(parts[3]) && !PriceOk(parts[4])
    ensures CheckFields(parts) == Rejected(InvalidDate) <==>
      |parts| == FieldCount && NamesPresent(parts) && QuantityOk(parts[3]) && PriceOk(parts[4])
      && ParseDate(parts[5]).None?
    ensures CheckFields(parts).Accepted? <==>
      |parts| == FieldCount && NamesPresent(parts) && QuantityOk(parts[3]) && PriceOk(parts[4])
      && ParseDate(parts[5]).Some?
  {
  }

  /** The outcome of one raw line of the file. */
  function ClassifyLine(raw: string): (r: Outcome)
    ensures r.Skipped? <==> IsSkipped(Strip(raw))
  {
    var line := Strip(raw);
    if IsSkipped(line) then Skipped else CheckFields(SplitFields(line))
  }

  /** Fields without surrounding blanks that pass every check make a valid record. */
  lemma CheckedFieldsValid(parts: seq<string>)
    requires forall k :: 0 <= k < |parts| ==> Trimmed(parts[k])
    ensures CheckFields(parts).Accepted? ==> ValidRecord(CheckFields(parts).line)
  {
  }

  /** A line that is accepted holds a valid record. */
  lemma AcceptedLineValid(raw: string)
    ensures ClassifyLine(raw).Accepted? ==> ValidRecord(ClassifyLine(raw).line)
  {
    var line := Strip(raw);
    if !IsSkipped(line) {
      CheckedFieldsValid(SplitFields(line));
    }
  }

  /** `f` applied to each element of `s`, in order. */
  function MapSeq<A, B>(f: A -> B, s: seq<A>): (r: seq<B>)
    ensures |r| == |s|
  {
    if s == [] then []
    else
      var n := |s| - 1;
      MapSeq(f, s[..n]) + [f(s[n])]
  }

  lemma {:induction false} MapSeqAt<A, B>(f: A -> B, s: seq<A>, i: nat)
    requires i < |s|
    ensures MapSeq(f, s)[i] == f(s[i])
  {
    var n := |s| - 1;
    if i < n {
      MapSeqAt(f, s[..n], i);
      assert MapSeq(f, s)[i] == MapSeq(f, s[..n])[i];
    }
  }

  lemma MapSeqStep<A, B>(f: A -> B, s: seq<A>, i: nat)
    requires i < |s|
    ensures MapSeq(f, s[..i + 1]) == MapSeq(f, s[..i]) + [f(s[i])]
  {
    assert s[..i + 1][..i] == s[..i];
  }

  /** The outcome of every line of the file, in order. */
  function Classified(lines: seq<string>): (r: seq<Outcome>)
    ensures |r| == |lines|
  {
    MapSeq(ClassifyLine, lines)
  }

  /** The outcome of line `i` of the file is that of the line on its own. */
  lemma ClassifiedAt(lines: seq<string>, i: nat)
    requires i < |lines|
    ensures Classified(lines)[i] == ClassifyLine(lines[i])
  {
    MapSeqAt(ClassifyLine, lines, i);
  }

  /** What one outcome adds to the list of records: the record if it is accepted. */
  function KeptFrom(outcome: Outcome): seq<OrderLine>
  {
    if outcome.Accepted? then [outcome.line] else []
  }

  /** What line `lineNo` adds to the error log: an entry if it is rejected. */
  function LoggedFrom(lineNo: nat, raw: string, outcome: Outcome): seq<ParseError>
  {
    if outcome.Rejected? then [ParseError(lineNo, outcome.reason, raw)] else []
  }

  /** The records kept for a run of outcomes, in order. */
  function Kept(outcomes: seq<Outcome>): (r: seq<OrderLine>)
    ensures |r| <= |outcomes|
  {
    if outcomes == [] then []
    else
      var n := |outcomes| - 1;
      Kept(outcomes[..n]) + KeptFrom(outcomes[n])
  }

  /** The error log for a run of lines and their outcomes, the lines numbered from 1. */
  function Logged(lines: seq<string>, outcomes: seq<Outcome>): (r: seq<ParseError>)
    requires |lines| == |outcomes|
    ensures |r| <= |outcomes|
  {
    if outcomes == [] then []
    else
      var n := |outcomes| - 1;
      Logged(lines[..n], outcomes[..n]) + LoggedFrom(n + 1, lines[n], outcomes[n])
  }

  /** The number of skipped outcomes. */
  function SkippedCount(outcomes: seq<Outcome>): (r: nat)
    ensures r <= |outcomes|
  {
    if outcomes == [] then 0
    else
      var n := |outcomes| - 1;
      SkippedCount(outcomes[..n]) + (if outcomes[n].Skipped? then 1 else 0)
  }

  /** The records `parse_orders` returns for the lines of a file. */
  function AcceptedOf(lines: seq<string>): seq<OrderLine>
  {
    Kept(Classified(lines))
  }

  /** The entries `parse_orders` writes to the error log for the lines of a file. */
  function ErrorsOf(lines: seq<string>): seq<ParseError>
  {
    Logged(lines, Classified(lines))
  }

  /** One more line extends the records and the error log by what its outcome adds. */
  lemma LoopStep(lines: seq<string>, i: nat)
    requires i < |lines|
    ensures AcceptedOf(lines[..i + 1]) == AcceptedOf(lines[..i]) + KeptFrom(ClassifyLine(lines[i]))
    ensures ErrorsOf(lines[..i + 1])
      == ErrorsOf(lines[..i]) + LoggedFrom(i + 1, lines[i], ClassifyLine(lines[i]))
  {
    var prefix := lines[..i + 1];
    assert prefix[..i] == lines[..i] && prefix[i] == lines[i];
    MapSeqStep(ClassifyLine, lines, i);
    var outcomes := Classified(prefix);
    assert outcomes[..i] == Classified(lines[..i]);
  }

  /**
   * The body of the loop of `parse_orders` for one line, statement by
   * statement: the strip and the skip test, the split, then each check's
   * `try`/`except` and `continue` as an early return. `ClassifyLine` is the
   * specification it is proved against; `ParseOrders` runs this body.
   */
  method ValidateLine(rawLine: string) returns (outcome: Outcome)
    ensures outcome == ClassifyLine(rawLine)
  {
    var line := Strip(rawLine);
    if line == [] || line[0] == CommentMarker {
      return Skipped;
    }
    var parts := SplitFields(line);
    if |parts| != FieldCount {
      return Rejected(WrongFieldCount(|parts|));
    }
    var orderId, customer, product, qtyText, priceText, dateText :=
      parts[0], parts[1], parts[2], parts[3], parts[4], parts[5];
    if orderId == [] || customer == [] || product == [] {
      return Rejected(EmptyField);
    }
    var qty := ParseInt(qtyText);
    if qty.None? || qty.value <= 0 {
      return Rejected(InvalidQuantity);
    }
    var unitPrice := ParseMoney(priceText);
    if unitPrice.None? || unitPrice.value < 0 {
      return Rejected(InvalidUnitPrice);
    }
    var orderDate := ParseDate(dateText);
    if orderDate.None? {
      return Rejected(InvalidDate);
    }
    return Accepted(OrderLine(orderId, customer, product, qty.value, unitPrice.value, orderDate.value));
  }

  /**
   * The loop of `parse_orders` over the lines of the file: skipped lines
   * leave both lists alone, rejected ones add an entry to the error log
   * and accepted ones a record to the result.
   */
  method ParseOrders(lines: seq<string>) returns (valid: seq<OrderLine>, errors: seq<ParseError>)
    ensures valid == AcceptedOf(lines) && errors == ErrorsOf(lines)
  {
    valid, errors := [], [];
    for i := 0 to |lines|
      invariant valid == AcceptedOf(lines[..i])
      invariant errors == ErrorsOf(lines[..i])
    {
      var lineNo, rawLine := i + 1, lines[i];
      var outcome := ValidateLine(rawLine);
      LoopStep(lines, i);
      match outcome
      case Skipped =>
      case Rejected(reason) =>
        errors := errors + [ParseError(lineNo, reason, rawLine)];
      case Accepted(record) =>
        valid := valid + [record];
    }
    assert lines[..|lines|] == lines;
  }

  /** Every outcome is counted exactly once: kept, logged or skipped. */
  lemma {:induction false} EveryOutcomeCounted(lines: seq<string>, outcomes: seq<Outcome>)
    requires |lines| == |outcomes|
    ensures |Kept(outcomes)| + |Logged(lines, outcomes)| + SkippedCount(outcomes) == |outcomes|
  {
    if outcomes != [] {
      var n := |outcomes| - 1;
      EveryOutcomeCounted(lines[..n], outcomes[..n]);
    }
  }

  /** Every line of the file is kept, logged or skipped, and only one of these. */
  lemma EveryLineAccounted(lines: seq<string>)
    ensures |AcceptedOf(lines)| + |ErrorsOf(lines)| + SkippedCount(Classified(lines)) == |lines|
  {
    EveryOutcomeCounted(lines, Classified(lines));
  }

  lemma ConcatAssociative<T>(x: seq<T>, y: seq<T>, z: seq<T>)
    ensures (x + y) + z == x + (y + z)
  {
  }

  /** One more outcome adds what it keeps at the end. */
  lemma KeptSnoc(a: seq<Outcome>, x: Outcome)
    ensures Kept(a + [x]) == Kept(a) + KeptFrom(x)
  {
    assert (a + [x])[..|a|] == a;
  }

  /** Records are kept in the order of their outcomes. */
  lemma {:induction false} KeptConcat(a: seq<Outcome>, b: seq<Outcome>)
    ensures Kept(a + b) == Kept(a) + Kept(b)
    decreases |b|
  {
    if b == [] {
      assert a + b == a;
    } else {
      var n := |b| - 1;
      var front := b[..n];
      assert b == front + [b[n]];
      assert a + b == (a + front) + [b[n]];
      KeptSnoc(a + front, b[n]);
      KeptSnoc(front, b[n]);
      KeptConcat(a, front);
      ConcatAssociative(Kept(a), Kept(b[..n]), KeptFrom(b[n]));
    }
  }

  /** Every accepted outcome carries a valid record. */
  predicate AcceptedValid(outcomes: seq<Outcome>)
  {
    forall i :: 0 <= i < |outcomes| && outcomes[i].Accepted? ==> ValidRecord(outcomes[i].line)
  }

  lemma {:induction false} KeptValid(outcomes: seq<Outcome>)
    requires AcceptedValid(outcomes)
    ensures forall k :: 0 <= k < |Kept(outcomes)| ==> ValidRecord(Kept(outcomes)[k])
  {
    if outcomes != [] {
      var n := |outcomes| - 1;
      KeptValid(outcomes[..n]);
      var earlier, last := Kept(outcomes[..n]), KeptFrom(outcomes[n]);
      assert Kept(outcomes) == earlier + last;
      forall k | 0 <= k < |earlier| + |last|
        ensures ValidRecord((earlier + last)[k])
      {
        if k < |earlier| {
          assert (earlier + last)[k] == earlier[k];
        } else {
          assert (earlier + last)[k] == outcomes[n].line;
        }
      }
    }
  }

  /** Every record `parse_orders` returns is valid: named, a positive quantity, a price and a date. */
  lemma AcceptedAreValid(lines: seq<string>)
    ensures forall k :: 0 <= k < |AcceptedOf(lines)| ==> ValidRecord(AcceptedOf(lines)[k])
  {
    forall i | 0 <= i < |lines|
      ensures Classified(lines)[i].Accepted? ==> ValidRecord(Classified(lines)[i].line)
    {
      ClassifiedAt(lines, i);
      AcceptedLineValid(lines[i]);
    }
    KeptValid(Classified(lines));
  }

  /**
   * Each entry of `log` names a line of `lines` by number, carries that line
   * as read and the reason its outcome gives, and the entries come in line
   * order.
   */
  predicate LogMatches(lines: seq<string>, outcomes: seq<Outcome>, log: seq<ParseError>)
    requires |lines| == |outcomes|
  {
    && (forall k :: 0 <= k < |log| ==>
         && 1 <= log[k].lineNo <= |lines| && lines[log[k].lineNo - 1] == log[k].raw
         && outcomes[log[k].lineNo - 1] == Rejected(log[k].reason))
    && (forall k :: 0 < k < |log| ==> log[k - 1].lineNo < log[k].lineNo)
  }

  lemma {:induction false} LoggedMatches(lines: seq<string>, outcomes: seq<Outcome>)
    requires |lines| == |outcomes|
    ensures LogMatches(lines, outcomes, Logged(lines, outcomes))
  {
    if outcomes != [] {
      var n := |outcomes| - 1;
      LoggedMatches(lines[..n], outcomes[..n]);
      var earlier, last := Logged(lines[..n], outcomes[..n]), LoggedFrom(n + 1, lines[n], outcomes[n]);
      var r := Logged(lines, outcomes);
      assert r == earlier + last;
      forall k | 0 <= k < |r|
        ensures 1 <= r[k].lineNo <= |lines| && lines[r[k].lineNo - 1] == r[k].raw
        ensures outcomes[r[k].lineNo - 1] == Rejected(r[k].reason)
        ensures 0 < k ==> r[k - 1].lineNo < r[k].lineNo
      {
        if k < |earlier| {
          assert r[k] == earlier[k];
          assert lines[..n][r[k].lineNo - 1] == lines[r[k].lineNo - 1];
          assert outcomes[..n][r[k].lineNo - 1] == outcomes[r[k].lineNo - 1];
        } else {
          assert r[k] == last[0];
          if 0 < k {
            assert r[k - 1] == earlier[k - 1];
          }
        }
      }
    }
  }

  /**
   * Each entry of the error log names a line of the file, carries that line
   * as read and the reason that line is rejected for, in line order.
   */
  lemma ErrorsNameTheirLines(lines: seq<string>)
    ensures var log := ErrorsOf(lines);
      forall k :: 0 <= k < |log| ==>
        && 1 <= log[k].lineNo <= |lines| && lines[log[k].lineNo - 1] == log[k].raw
        && ClassifyLine(log[k].raw) == Rejected(log[k].reason)
    ensures var log := ErrorsOf(lines);
      forall k :: 0 < k < |log| ==> log[k - 1].lineNo < log[k].lineNo
  {
    var log := ErrorsOf(lines);
    LoggedMatches(lines, Classified(lines));
    forall k | 0 <= k < |log|
      ensures ClassifyLine(log[k].raw) == Rejected(log[k].reason)
    {
      var j := log[k].lineNo - 1;
      assert lines[j] == log[k].raw && Classified(lines)[j] == Rejected(log[k].reason);
      ClassifiedAt(lines, j);
    }
  }

  /** The log has an entry for line `lineNo`. */
  predicate HasEntryFor(log: seq<ParseError>, lineNo: nat)
  {
    exists k :: 0 <= k < |log| && log[k].lineNo == lineNo
  }

  lemma EntryInConcat(a: seq<ParseError>, b: seq<ParseError>, lineNo: nat)
    ensures HasEntryFor(a + b, lineNo) <==> HasEntryFor(a, lineNo) || HasEntryFor(b, lineNo)
  {
    if HasEntryFor(a + b, lineNo) {
      var k :| 0 <= k < |a + b| && (a + b)[k].lineNo == lineNo;
      if k < |a| {
        assert a[k] == (a + b)[k];
      } else {
        assert b[k - |a|] == (a + b)[k];
      }
    }
    if HasEntryFor(a, lineNo) {
      var k :| 0 <= k < |a| && a[k].lineNo == lineNo;
      assert (a + b)[k] == a[k];
    }
    if HasEntryFor(b, lineNo) {
      var k :| 0 <= k < |b| && b[k].lineNo == lineNo;
      assert (a + b)[|a| + k] == b[k];
    }
  }

  /** An outcome is a rejection exactly when the log has an entry for its line. */
  lemma {:induction false} RejectionLogged(lines: seq<string>, outcomes: seq<Outcome>, i: nat)
    requires |lines| == |outcomes| && i < |outcomes|
    ensures outcomes[i].Rejected? <==> HasEntryFor(Logged(lines, outcomes), i + 1)
  {
    var n := |outcomes| - 1;
    var earlier, last := Logged(lines[..n], outcomes[..n]), LoggedFrom(n + 1, lines[n], outcomes[n]);
    assert Logged(lines, outcomes) == earlier + last;
    EntryInConcat(earlier, last, i + 1);
    if i < n {
      RejectionLogged(lines[..n], outcomes[..n], i);
      assert outcomes[..n][i] == outcomes[i];
      assert !HasEntryFor(last, i + 1);
    } else {
      NoEntryPastEnd(lines[..n], outcomes[..n]);
      assert outcomes[i].Rejected? ==> last[0].lineNo == i + 1;
    }
  }

  /** The log of a run of lines has no entry for the line after it. */
  lemma NoEntryPastEnd(lines: seq<string>, outcomes: seq<Outcome>)
    requires |lines| == |outcomes|
    ensures !HasEntryFor(Logged(lines, outcomes), |lines| + 1)
  {
    LoggedMatches(lines, outcomes);
  }

  /** A line of the file is rejected exactly when the error log has an entry for it. */
  lemma RejectedIsLogged(lines: seq<string>, i: nat)
    requires i < |lines|
    ensures ClassifyLine(lines[i]).Rejected? <==> HasEntryFor(ErrorsOf(lines), i + 1)
  {
    RejectionLogged(lines, Classified(lines), i);
    ClassifiedAt(lines, i);
  }

  /** The fields a record is written back as: the line format the parser reads. */
  function RecordFields(ol: OrderLine): (parts: seq<string>)
    requires ol.quantity >= 0 && ol.unitPrice >= 0 && IsCalendarDate(ol.orderDate)
    ensures |parts| == FieldCount
  {
    [ol.orderId, ol.customer, ol.product, NatToString(ol.quantity), FormatMoney(ol.unitPrice), FormatDate(ol.orderDate)]
  }

  function Render(ol: OrderLine): string
    requires ol.quantity >= 0 && ol.unitPrice >= 0 && IsCalendarDate(ol.orderDate)
  {
    Join(RecordFields(ol), FieldSeparator)
  }

  /** A record whose names can be written on one line and read back unchanged. */
  predicate Writable(ol: OrderLine)
  {
    && ValidRecord(ol)
    && FieldSeparator !in ol.orderId && FieldSeparator !in ol.customer && FieldSeparator !in ol.product
    && ol.orderId[0] != CommentMarker
    && ol.unitPrice < Pow10(DecimalPrecision)
  }

  /** Fields with no separator and no surrounding blanks, as one line. */
  predicate JoinableFields(parts: seq<string>)
  {
    && |parts| >= 1
    && (forall k :: 0 <= k < |parts| ==> Trimmed(parts[k]) && FieldSeparator !in parts[k])
    && parts[0] != [] && parts[|parts| - 1] != []
  }

  /** Such a line has no blanks at either end and starts with its first field. */
  lemma JoinedLineTrimmed(parts: seq<string>)
    requires JoinableFields(parts)
    ensures var line := Join(parts, FieldSeparator); line != [] && line[0] == parts[0][0] && Trimmed(line)
  {
    var line := Join(parts, FieldSeparator);
    JoinAffixes(parts, FieldSeparator);
    var last := parts[|parts| - 1];
    assert line[0] == parts[0][0];
    assert line[|line| - 1] == last[|last| - 1];
  }

  /** Splitting such a line and stripping the pieces gives the fields back. */
  lemma JoinedLineSplits(parts: seq<string>)
    requires JoinableFields(parts)
    ensures SplitFields(Join(parts, FieldSeparator)) == parts
  {
    SplitJoin(parts, FieldSeparator);
    StripAllTrimmed(parts);
  }

  /** A line of fields with no separator and no surrounding blanks is checked field by field. */
  lemma ClassifyJoined(parts: seq<string>)
    requires JoinableFields(parts) && parts[0][0] != CommentMarker
    ensures ClassifyLine(Join(parts, FieldSeparator)) == CheckFields(parts)
  {
    var line := Join(parts, FieldSeparator);
    JoinedLineTrimmed(parts);
    StripTrimmed(line);
    JoinedLineSplits(parts);
  }

  /** Digits and one other printable character, with a digit at each end, make a field as it is. */
  lemma PlainField(s: string, other: char)
    requires other != FieldSeparator
    requires forall i :: 0 <= i < |s| ==> IsDigit(s[i]) || s[i] == other
    requires s != [] && IsDigit(s[0]) && IsDigit(s[|s| - 1])
    ensures FieldSeparator !in s && Trimmed(s)
  {
  }

  /** Fields that read as a record make `CheckFields` accept that record. */
  lemma FieldsReadAsRecord(parts: seq<string>, ol: OrderLine)
    requires |parts| == FieldCount
    requires parts[0] == ol.orderId && parts[1] == ol.customer && parts[2] == ol.product
    requires ol.orderId != [] && ol.customer != [] && ol.product != []
    requires ParseInt(parts[3]) == Some(ol.quantity) && ol.quantity > 0
    requires ParseMoney(parts[4]) == Some(ol.unitPrice) && ol.unitPrice >= 0
    requires ParseDate(parts[5]) == Some(ol.orderDate)
    ensures CheckFields(parts) == Accepted(ol)
  {
  }

  /** The written fields of a record can be joined into one line. */
  lemma RecordFieldsJoinable(ol: OrderLine)
    requires Writable(ol)
    ensures JoinableFields(RecordFields(ol))
  {
    var parts := RecordFields(ol);
    PlainField(parts[3], '0');
    FormatMoneyPlain(ol.unitPrice);
    PlainField(parts[4], '.');
    FormatDatePlain(ol.orderDate);
    PlainField(parts[5], '-');
    forall k | 0 <= k < |parts|
      ensures Trimmed(parts[k]) && FieldSeparator !in parts[k]
    {
    }
  }

  lemma QuantityFieldReads(ol: OrderLine)
    requires Writable(ol)
    ensures ParseInt(RecordFields(ol)[3]) == Some(ol.quantity)
  {
    IntRoundTrip(ol.quantity);
  }

  lemma PriceFieldReads(ol: OrderLine)
    requires Writable(ol)
    ensures ParseMoney(RecordFields(ol)[4]) == Some(ol.unitPrice)
  {
    MoneyRoundTrip(ol.unitPrice);
  }

  lemma DateFieldReads(ol: OrderLine)
    requires Writable(ol)
    ensures ParseDate(RecordFields(ol)[5]) == Some(ol.orderDate)
  {
    DateRoundTrip(ol.orderDate);
  }

  /** The written fields of a record pass every check and give the record back. */
  lemma RecordFieldsAccepted(ol: OrderLine)
    requires Writable(ol)
    ensures CheckFields(RecordFields(ol)) == Accepted(ol)
  {
    QuantityFieldReads(ol);
    PriceFieldReads(ol);
    DateFieldReads(ol);
    FieldsReadAsRecord(RecordFields(ol), ol);
  }

  /** Writing a record as a line and parsing the line gives the record back. */
  lemma RenderedRecordAccepted(ol: OrderLine)
    requires Writable(ol)
    ensures ClassifyLine(Render(ol)) == Accepted(ol)
  {
    RecordFieldsJoinable(ol);
    ClassifyJoined(RecordFields(ol));
    RecordFieldsAccepted(ol);
  }

  lemma {:induction false} AllAcceptedKept(lines: seq<string>, outcomes: seq<Outcome>, records: seq<OrderLine>)
    requires |lines| == |outcomes| == |records|
    requires forall i :: 0 <= i < |outcomes| ==> outcomes[i] == Accepted(records[i])
    ensures Kept(outcomes) == records && Logged(lines, outcomes) == []
  {
    if outcomes != [] {
      var n := |outcomes| - 1;
      AllAcceptedKept(lines[..n], outcomes[..n], records[..n]);
      assert records == records[..n] + [records[n]];
    }
  }

  /** A file written record by record parses back to the same records and an empty error log. */
  lemma RenderedFileParses(records: seq<OrderLine>, lines: seq<string>)
    requires |lines| == |records|
    requires forall k :: 0 <= k < |records| ==> Writable(records[k]) && lines[k] == Render(records[k])
    ensures AcceptedOf(lines) == records && ErrorsOf(lines) == []
  {
    forall k | 0 <= k < |records|
      ensures Classified(lines)[k] == Accepted(records[k])
    {
      ClassifiedAt(lines, k);
      RenderedRecordAccepted(records[k]);
    }
    AllAcceptedKept(lines, Classified(lines), records);
  }

  /** A quantity of -1 is refused, whatever the price and date fields hold. */
  lemma NegativeQuantityRefused(parts: seq<string>)
    requires |parts| == FieldCount && NamesPresent(parts) && parts[3] == "-1"
    ensures CheckFields(parts) == Rejected(InvalidQuantity)
  {
    assert ParseInt("-1") == Some(-1) by {
      assert "-1"[1..] == "1";
    }
  }

  /** A quantity of 0 is refused, whatever the price and date fields hold. */
  lemma ZeroQuantityRefused(parts: seq<string>)
    requires |parts| == FieldCount && NamesPresent(parts) && parts[3] == "0"
    ensures CheckFields(parts) == Rejected(InvalidQuantity)
  {
    assert ParseInt("0") == Some(0);
  }

}
