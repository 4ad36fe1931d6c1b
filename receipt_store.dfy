/** The receipts table of the backend (packages/backend/src/db.ts): one row
    per receipt, a UNIQUE image hash, an AUTOINCREMENT id, and the CSV
    import, monthly queries, updates and deletes built on it. SQLite's
    callbacks run here as sequential steps; storage failures the driver can
    report are a parameter (`Fault`) so that every rollback path exists. */
module ReceiptStore {
  import opened Wrappers
  import opened JsText
  import opened Calendar
  import opened Sequences
  import opened Storage

  /** One row of `receipts`. `useImage` is the stored BOOLEAN, 0 or 1. */
  datatype Receipt = Receipt(
    id: nat,
    imageHash: string,
    storeName: string,
    totalAmount: int,
    receiptDate: Option<string>,
    createdAt: string,
    useImage: int)

  // ---------------------------------------------------------------------
  // Table invariant
  // ---------------------------------------------------------------------

  /** Table order is insertion order: AUTOINCREMENT ids grow along it, and
      the UNIQUE constraint keeps the image hashes apart. */
  predicate RowBefore(a: Receipt, b: Receipt) {
    a.id < b.id && a.imageHash != b.imageHash
  }

  /** `nextId` is SQLite's sqlite_sequence entry plus one: ids are never
      reused, even after a delete. */
  predicate TableInvariant(rows: seq<Receipt>, nextId: nat) {
    SortedBy(rows, RowBefore) &&
    forall i :: 0 <= i < |rows| ==> 1 <= rows[i].id < nextId
  }

  predicate HasHash(rows: seq<Receipt>, hash: string) {
    exists i :: 0 <= i < |rows| && rows[i].imageHash == hash
  }

  predicate HasId(rows: seq<Receipt>, id: int) {
    exists i :: 0 <= i < |rows| && rows[i].id == id
  }

  // ---------------------------------------------------------------------
  // parseAndSaveCSV: the CSV the import expects
  // ---------------------------------------------------------------------

  /** What one data line of the import contributes. */
  datatype NewReceipt = NewReceipt(storeName: string, totalAmount: int, receiptDate: Option<string>)

  /** The header check: the first line, split on commas and not trimmed,
      must start with the fields `store_name` and `total_amount`. */
  predicate HeaderOk(csv: string) {
    HeaderFieldsOk(CsvLines(csv)[0])
  }

  predicate HeaderFieldsOk(first: string) {
    var header := Split(first, {','});
    header[0] == "store_name" && |header| >= 2 && header[1] == "total_amount"
  }

  /** One data line: blank lines and lines whose second field does not
      `parseInt` are skipped (a missing second field is `undefined`, which is
      NaN); the third field, when present, is the receipt date. */
  function DataLine(line: string): Option<NewReceipt> {
    var t := Trim(line);
    if t == [] then None
    else
      var parts := Split(t, {','});
      var amount := if |parts| > 1 then ParseInt(parts[1]) else None;
      if amount.None? then None
      else Some(NewReceipt(parts[0], amount.value, if |parts| > 2 then Some(parts[2]) else None))
  }

  /** Each data line, read on its own. */
  function ParsedLines(lines: seq<string>): (r: seq<Option<NewReceipt>>)
    ensures |r| == |lines|
  {
    if lines == [] then [] else [DataLine(lines[0])] + ParsedLines(lines[1..])
  }

  /** The batch the import tries to insert: every valid data line after the
      header. */
  function CsvBatch(csv: string): seq<NewReceipt> {
    Present(ParsedLines(CsvLines(csv)[1..]))
  }

  /** The rows a committed batch appends, with consecutive ids from `firstId`
      and `use_image` false. */
  function NewRows(batch: seq<NewReceipt>, hash: string, createdAt: string, firstId: nat): (r: seq<Receipt>)
    ensures |r| == |batch|
  {
    if batch == [] then []
    else
      NewRows(batch[..|batch| - 1], hash, createdAt, firstId) +
      [Receipt(firstId + |batch| - 1, hash, batch[|batch| - 1].storeName,
               batch[|batch| - 1].totalAmount, batch[|batch| - 1].receiptDate, createdAt, 0)]
  }

  /** The error of the first INSERT in a batch of `n` rows that fails. The
      first row carries the new hash; every later row carries the same hash
      and so breaks UNIQUE(image_hash). */
  function BatchInsertError(n: nat, fault: Fault): (r: Option<DbError>)
    ensures r.None? <==> n == 0 || (n == 1 && fault != InsertFails(0))
  {
    if n >= 1 && fault == InsertFails(0) then Some(StorageError)
    else if n >= 2 then Some(UniqueViolation)
    else None
  }

  /** What `parseAndSaveCSV` resolves or rejects with. A failing lookup of
      the hash rejects first; a known hash resolves false; a failing BEGIN
      rejects; a bad header rejects; any failing INSERT or a failing
      finalize/COMMIT rolls the whole batch back and rejects; otherwise it
      resolves true. */
  function SaveOutcome(rows: seq<Receipt>, csv: string, hash: string, fault: Fault): (r: Result<bool, DbError>)
    ensures fault == LookupFails ==> r == Err(StorageError)
    ensures fault != LookupFails && HasHash(rows, hash) ==> r == Ok(false)
    ensures fault == BeginFails && !HasHash(rows, hash) ==> r == Err(StorageError)
    ensures fault != LookupFails && fault != BeginFails && !HasHash(rows, hash) && !HeaderOk(csv)
            ==> r == Err(InvalidHeader)
    ensures r == Ok(true) <==>
      fault != LookupFails && fault != BeginFails &&
      !HasHash(rows, hash) && HeaderOk(csv) && |CsvBatch(csv)| <= 1 &&
      !(|CsvBatch(csv)| == 1 && fault == InsertFails(0)) && fault != CommitFails
  {
    if fault == LookupFails then Err(StorageError)
    else if HasHash(rows, hash) then Ok(false)
    else if fault == BeginFails then Err(StorageError)
    else if !HeaderOk(csv) then Err(InvalidHeader)
    else
      var e := BatchInsertError(|CsvBatch(csv)|, fault);
      if e.Some? then Err(e.value)
      else if fault == CommitFails then Err(StorageError)
      else Ok(true)
  }

  /** Because every row of a batch shares the image hash, an import can
      commit at most one receipt: a CSV with two or more valid data lines
      is always rolled back. */
  lemma TwoDataLinesNeverCommit(rows: seq<Receipt>, csv: string, hash: string, fault: Fault)
    requires !HasHash(rows, hash) && HeaderOk(csv) && |CsvBatch(csv)| >= 2
    ensures SaveOutcome(rows, csv, hash, fault) == Err(UniqueViolation)
         || SaveOutcome(rows, csv, hash, fault) == Err(StorageError)
  {
  }

  // ---------------------------------------------------------------------
  // The header check, restated on the text
  // ---------------------------------------------------------------------

  lemma NoCommaIn(s: string)
    requires s == "store_name" || s == "total_amount"
    ensures forall i :: 0 <= i < |s| ==> s[i] !in {','}
  {
  }

  const HeaderPrefix: string := "store_name,total_amount,"

  lemma HeaderPrefixParts()
    ensures "store_name,total_amount" == "store_name" + [','] + "total_amount"
    ensures HeaderPrefix == "store_name" + [','] + "total_amount" + [',']
  {
  }

  lemma ExactHeaderFields()
    ensures Split("store_name,total_amount", {','}) == ["store_name", "total_amount"]
  {
    NoCommaIn("store_name");
    NoCommaIn("total_amount");
    HeaderPrefixParts();
    SplitAtFirst("store_name", ',', "total_amount", {','});
    SplitNoSeparator("total_amount", {','});
  }

  lemma LongerHeaderFields(rest: string)
    ensures Split(HeaderPrefix + rest, {','}) == ["store_name", "total_amount"] + Split(rest, {','})
  {
    NoCommaIn("store_name");
    NoCommaIn("total_amount");
    HeaderPrefixParts();
    assert HeaderPrefix + rest == "store_name" + [','] + ("total_amount" + [','] + rest);
    SplitAtFirst("store_name", ',', "total_amount" + [','] + rest, {','});
    SplitAtFirst("total_amount", ',', rest, {','});
  }

  lemma HeaderFieldsShape(first: string)
    requires HeaderFieldsOk(first)
    ensures first == "store_name,total_amount" || IsPrefix(HeaderPrefix, first)
  {
    var h := Split(first, {','});
    JoinSplit(first, ',');
    HeaderPrefixParts();
    if |h| == 2 {
      assert Join(h[1..], ',') == "total_amount";
    } else {
      var tail := Join(h[2..], ',');
      assert Join(h[1..], ',') == "total_amount" + [','] + tail;
      assert first == HeaderPrefix + tail;
    }
  }

  /** The header is accepted exactly when the first line of the trimmed CSV
      is `store_name,total_amount`, alone or followed by a comma and more
      fields. */
  lemma HeaderOkIff(csv: string)
    ensures HeaderOk(csv) <==>
      var first := CsvLines(csv)[0];
      first == "store_name,total_amount" || IsPrefix(HeaderPrefix, first)
  {
    var first := CsvLines(csv)[0];
    if first == "store_name,total_amount" {
      ExactHeaderFields();
    } else if IsPrefix(HeaderPrefix, first) {
      LongerHeaderFields(first[|HeaderPrefix|..]);
      assert first == HeaderPrefix + first[|HeaderPrefix|..];
    } else if HeaderFieldsOk(first) {
      HeaderFieldsShape(first);
    }
  }

  // ---------------------------------------------------------------------
  // A one-receipt CSV reads back
  // ---------------------------------------------------------------------

  /** A field that survives the import unchanged: no comma, no line break. */
  predicate PlainField(s: string) {
    forall i :: 0 <= i < |s| ==> s[i] != ',' && s[i] != '\n'
  }

  const CsvHeader: string := "store_name" + "," + "total_amount" + "," + "receipt_date"

  /** A data line of the import: store name, amount and date. */
  function ReceiptLine(store: string, amount: int, date: string): string {
    store + "," + IntToString(amount) + "," + date
  }

  /** The CSV of one receipt, as the import expects it. */
  function OneReceiptCsv(store: string, amount: int, date: string): string {
    CsvHeader + "\n" + ReceiptLine(store, amount, date)
  }

  lemma IntToStringPlain(n: int)
    ensures PlainField(IntToString(n))
    ensures !IsJsSpace(IntToString(n)[|IntToString(n)| - 1])
  {
    var d := NatToString(if n < 0 then -n else n);
    assert IntToString(n) == (if n < 0 then "-" + d else d);
    forall i | 0 <= i < |d| ensures d[i] != ',' && d[i] != '\n' {
      assert IsDigit(d[i]);
    }
    assert IsDigit(d[|d| - 1]);
  }

  /** The header the one-receipt CSV uses passes the check. */
  lemma FieldNamePlain(s: string)
    requires s == "store_name" || s == "total_amount" || s == "receipt_date"
    ensures PlainField(s)
  {
  }

  lemma CsvHeaderAccepted()
    ensures HeaderFieldsOk(CsvHeader)
    ensures forall i :: 0 <= i < |CsvHeader| ==> CsvHeader[i] != '\n'
    ensures CsvHeader != [] && !IsJsSpace(CsvHeader[0])
  {
    FieldNamePlain("store_name");
    FieldNamePlain("total_amount");
    FieldNamePlain("receipt_date");
    FieldsLinePlain("store_name", "total_amount", "receipt_date");
    assert CsvHeader == "store_name" + [','] + "total_amount" + [','] + "receipt_date";
    SplitThree("store_name", "total_amount", "receipt_date", ',');
    assert CsvHeader[0] == 's';
  }

  /** Three plain fields joined by commas make a line without a line break. */
  lemma FieldsLinePlain(a: string, b: string, c: string)
    requires PlainField(a) && PlainField(b) && PlainField(c)
    ensures forall i :: 0 <= i < |a + "," + b + "," + c| ==> (a + "," + b + "," + c)[i] != '\n'
  {
    var line := a + "," + b + "," + c;
    forall i | 0 <= i < |line| ensures line[i] != '\n' {
      if i < |a| { assert line[i] == a[i]; }
      else if i == |a| { }
      else if i < |a| + 1 + |b| { assert line[i] == b[i - |a| - 1]; }
      else if i == |a| + 1 + |b| { }
      else { assert line[i] == c[i - |a| - 2 - |b|]; }
    }
  }

  lemma ReceiptLinePlain(store: string, amount: int, date: string)
    requires PlainField(store) && PlainField(date) && date != []
    ensures forall i :: 0 <= i < |ReceiptLine(store, amount, date)| ==> ReceiptLine(store, amount, date)[i] != '\n'
    ensures ReceiptLine(store, amount, date)[|ReceiptLine(store, amount, date)| - 1] == date[|date| - 1]
  {
    IntToStringPlain(amount);
    FieldsLinePlain(store, IntToString(amount), date);
  }

  /** A data line made of a store name, an amount and a date reads back as
      that receipt. */
  lemma ReceiptLineReadsBack(store: string, amount: int, date: string)
    requires PlainField(store) && PlainField(date)
    requires store != [] && !IsJsSpace(store[0])
    requires date != [] && !IsJsSpace(date[|date| - 1])
    ensures DataLine(ReceiptLine(store, amount, date)) == Some(NewReceipt(store, amount, Some(date)))
  {
    ReceiptLineFields(store, amount, date);
    ParseIntOfToString(amount, []);
    assert IntToString(amount) + [] == IntToString(amount);
    DataLineOfFields(ReceiptLine(store, amount, date), store, IntToString(amount), date, amount);
  }

  /** A trimmed line with three fields whose second parses reads as that
      receipt. */
  lemma DataLineOfFields(line: string, a: string, b: string, c: string, n: int)
    requires line != [] && Trim(line) == line
    requires Split(line, {','}) == [a, b, c] && ParseInt(b) == Some(n)
    ensures DataLine(line) == Some(NewReceipt(a, n, Some(c)))
  {
  }

  /** Trimming leaves such a line alone and splitting it gives back its
      three fields. */
  lemma ReceiptLineFields(store: string, amount: int, date: string)
    requires PlainField(store) && PlainField(date)
    requires store != [] && !IsJsSpace(store[0])
    requires date != [] && !IsJsSpace(date[|date| - 1])
    ensures Trim(ReceiptLine(store, amount, date)) == ReceiptLine(store, amount, date)
    ensures Split(ReceiptLine(store, amount, date), {','}) == [store, IntToString(amount), date]
  {
    var amt := IntToString(amount);
    IntToStringPlain(amount);
    var line := ReceiptLine(store, amount, date);
    assert line[0] == store[0] && line[|line| - 1] == date[|date| - 1];
    TrimNoop(line);
    assert line == store + [','] + amt + [','] + date;
    SplitThree(store, amt, date, ',');
  }

  lemma BatchOfOneLine(line: string)
    ensures Present(ParsedLines([line])) ==
      if DataLine(line).Some? then [DataLine(line).value] else []
  {
    assert [line][1..] == [];
    assert ParsedLines([line]) == [DataLine(line)];
    PresentSingle(DataLine(line));
  }

  /** The import reads a one-receipt CSV back into exactly that receipt:
      store name, amount and date, with the header accepted. */
  lemma OneReceiptCsvBatch(store: string, amount: int, date: string)
    requires PlainField(store) && PlainField(date)
    requires store != [] && !IsJsSpace(store[0])
    requires date != [] && !IsJsSpace(date[|date| - 1])
    ensures HeaderOk(OneReceiptCsv(store, amount, date))
    ensures CsvBatch(OneReceiptCsv(store, amount, date)) == [NewReceipt(store, amount, Some(date))]
  {
    var line := ReceiptLine(store, amount, date);
    ReceiptLinePlain(store, amount, date);
    CsvHeaderAccepted();
    CsvLinesOfTwo(CsvHeader, line);
    ReceiptLineReadsBack(store, amount, date);
    assert CsvLines(OneReceiptCsv(store, amount, date))[1..] == [line];
    BatchOfOneLine(line);
  }

  // ---------------------------------------------------------------------
  // How SQLite stores and reads a date
  // ---------------------------------------------------------------------

  /** White space as SQLite's parsers skip it: space, tab, line feed,
      vertical tab, form feed and carriage return. */
  predicate IsSqliteSpace(c: char) {
    c == ' ' || '\t' <= c <= '\r'
  }

  predicate AllSqliteSpace(s: string) {
    forall i :: 0 <= i < |s| ==> IsSqliteSpace(s[i])
  }

  function SkipSpaces(s: string): (r: string)
    ensures |r| <= |s| && r == s[|s| - |r|..]
    ensures r != [] ==> !IsSqliteSpace(r[0])
  {
    if s != [] && IsSqliteSpace(s[0]) then SkipSpaces(s[1..]) else s
  }

  /** The text of a well-formed integer or real literal, which a column of
      NUMERIC affinity (such as `receipt_date DATE`) stores as an INTEGER or
      a REAL instead of as TEXT: optional white space, a sign, digits with
      an optional decimal point and at least one digit in all, an optional
      exponent `e` or `E` with an optional sign and at least one digit, and
      optional white space. `20251215` and `2025.12` are such texts. */
  predicate IsNumericText(s: string) {
    IsUnsignedNumber(StripSign(SkipSpaces(s)))
  }

  function StripSign(t: string): string {
    if t != [] && (t[0] == '+' || t[0] == '-') then t[1..] else t
  }

  predicate IsUnsignedNumber(u: string) {
    var a := DigitPrefix(u);
    MantissaRest(a != [], u[|a|..])
  }

  /** What may follow the integer digits; `hasDigits` says whether there
      were any. */
  predicate MantissaRest(hasDigits: bool, r: string) {
    if r != [] && r[0] == '.' then
      var b := DigitPrefix(r[1..]);
      (hasDigits || b != []) && ExponentThenSpaces(r[1 + |b|..])
    else hasDigits && ExponentThenSpaces(r)
  }

  predicate ExponentThenSpaces(r: string) {
    if r != [] && (r[0] == 'e' || r[0] == 'E') then
      var v := StripSign(r[1..]);
      var e := DigitPrefix(v);
      e != [] && AllSqliteSpace(v[|e|..])
    else AllSqliteSpace(r)
  }

  /** Digits followed by a `-` are not a number. */
  lemma DigitsDashNotUnsigned(d: string, rest: string)
    requires AllDigits(d) && rest != [] && rest[0] == '-'
    ensures !IsUnsignedNumber(d + rest)
  {
    DigitPrefixOfDigits(d, rest);
    assert (d + rest)[|d|..] == rest;
    assert !IsSqliteSpace(rest[0]);
  }

  /** A text that starts with digits and a `-` (every date the store
      writes, and every window bound) is not a number, and stays TEXT. */
  lemma DigitsDashNotNumeric(d: string, rest: string)
    requires d != [] && AllDigits(d) && rest != [] && rest[0] == '-'
    ensures !IsNumericText(d + rest)
  {
    var s := d + rest;
    assert s[0] == d[0];
    assert SkipSpaces(s) == s by { assert !IsSqliteSpace(s[0]); }
    assert StripSign(s) == s;
    DigitsDashNotUnsigned(d, rest);
  }

  /** A text that starts like a date is not a number. */
  lemma DateTextNotNumeric(s: string)
    requires |s| >= 5 && AllDigits(s[..4]) && s[4] == '-'
    ensures !IsNumericText(s)
  {
    assert s == s[..4] + s[4..];
    DigitsDashNotNumeric(s[..4], s[4..]);
  }

  /** A text of digits alone is stored as a number. */
  lemma DigitsAreNumeric(d: string)
    requires d != [] && AllDigits(d)
    ensures IsNumericText(d)
  {
    assert SkipSpaces(d) == d by { assert !IsSqliteSpace(d[0]); }
    assert StripSign(d) == d;
    assert DigitPrefix(d) == d by {
      DigitPrefixOfDigits(d, []);
      assert d + [] == d;
    }
    assert d[|d|..] == [];
  }

  /** An all-digit date such as `20251215` is stored as a number. */
  lemma CompactDateIsNumeric()
    ensures IsNumericText("20251215")
  {
    DigitsAreNumeric("20251215");
  }

  /** The same holds after a minus sign. */
  lemma SignedDigitsDashNotNumeric(d: string, rest: string)
    requires d != [] && AllDigits(d) && rest != [] && rest[0] == '-'
    ensures !IsNumericText("-" + (d + rest))
  {
    var s := "-" + (d + rest);
    assert SkipSpaces(s) == s by { assert s[0] == '-'; }
    assert StripSign(s) == d + rest;
    DigitsDashNotUnsigned(d, rest);
  }

  /** The start of a month's window is TEXT, so SQLite compares it with
      the stored dates as it stands. */
  lemma MonthStartNotNumeric(year: int, month: int)
    ensures !IsNumericText(MonthStart(year, month))
  {
    var tail := "-" + PadStart2(IntToString(month)) + "-01";
    var s := MonthStart(year, month);
    assert s == IntToString(year) + tail;
    if year >= 0 {
      DigitsDashNotNumeric(NatToString(year), tail);
    } else {
      var d := NatToString(-year);
      assert s == "-" + (d + tail);
      SignedDigitsDashNotNumeric(d, tail);
    }
  }

  /** What SQLite's date functions accept after the ten characters of a
      date: nothing, or, after any run of spaces and `T`s, a time. */
  predicate IsSqliteTimePart(t: string) {
    var u := SkipSpacesAndT(t);
    u == [] || IsSqliteClock(u)
  }

  function SkipSpacesAndT(s: string): (r: string)
    ensures |r| <= |s|
  {
    if s != [] && (IsSqliteSpace(s[0]) || s[0] == 'T') then SkipSpacesAndT(s[1..]) else s
  }

  /** `HH:MM`, `HH:MM:SS` or `HH:MM:SS.f...` with hours 00 to 23, then
      optional spaces and an optional `Z`, which all leave the date as it
      is. */
  predicate IsSqliteClock(u: string) {
    |u| >= 5 && IsTwoDigits(u[..2], 24) && u[2] == ':' && IsTwoDigits(u[3..5], 60) &&
    SecondsThenZone(u[5..])
  }

  predicate SecondsThenZone(r: string) {
    if r != [] && r[0] == ':' then |r| >= 3 && IsTwoDigits(r[1..3], 60) && FractionThenZone(r[3..])
    else UtcZone(r)
  }

  predicate FractionThenZone(r: string) {
    if |r| >= 2 && r[0] == '.' && IsDigit(r[1]) then UtcZone(r[1 + |DigitPrefix(r[1..])|..])
    else UtcZone(r)
  }

  predicate UtcZone(r: string) {
    var v := SkipSpaces(r);
    v == [] || ((v[0] == 'Z' || v[0] == 'z') && AllSqliteSpace(v[1..]))
  }

  /** The day `strftime` reads from a stored TEXT date: a `YYYY-MM-DD`
      date with a month from 1 to 12 and a day from 1 to 31, optionally
      followed by a time; a day past the end of the month carries into
      the next month. Any other text reads as NULL (`None`). */
  function StoredDay(date: string): (r: Option<Day>)
    ensures r.Some? ==> 1 <= r.value.month <= 12
    ensures IsRealIsoDate(date) ==> r == Some(IsoDay3(date))
  {
    LooseIsoDayOfReal(date);
    assert |date| == 10 ==> date[..10] == date && date[10..] == [];
    if |date| >= 10 && IsLooseIsoDate(date[..10]) && IsSqliteTimePart(date[10..]) then
      Some(LooseIsoDay(date[..10]))
    else None
  }

  /** SQLite's `CURRENT_TIMESTAMP` form, `YYYY-MM-DD HH:MM:SS`, reads as its
      date. */
  lemma StoredDayOfTimestamp(d: string, clock: string)
    requires IsRealIsoDate(d) && IsClockText(clock)
    ensures StoredDay(d + " " + clock) == Some(IsoDay3(d))
  {
    var s := d + " " + clock;
    assert s[..10] == d && s[10..] == " " + clock;
    LooseIsoDayOfReal(d);
    assert SkipSpacesAndT(" " + clock) == clock by {
      assert (" " + clock)[1..] == clock;
    }
    assert clock[..2][..2] == clock[..2];
    assert clock[5..][1..3] == clock[6..];
    assert clock[5..][3..] == [];
  }

  // ---------------------------------------------------------------------
  // Monthly queries
  // ---------------------------------------------------------------------

  /** `${year}-${month.toString().padStart(2, '0')}-01`. */
  function MonthStart(year: int, month: int): string {
    IntToString(year) + "-" + PadStart2(IntToString(month)) + "-01"
  }

  /** `receipt_date >= start AND receipt_date < end`. A NULL date never
      matches. A date that reads as a number was stored as an INTEGER or a
      REAL, which sorts before every TEXT value and so is never at or after
      the TEXT start (the bounds never read as numbers:
      `MonthStartNotNumeric`). Any other date is TEXT and compares
      character by character. */
  predicate InWindow(row: Receipt, start: string, end: string) {
    row.receiptDate.Some? && !IsNumericText(row.receiptDate.value) &&
    !LexLess(row.receiptDate.value, start) && LexLess(row.receiptDate.value, end)
  }

  /** The half-open window of a month, from its first day to the first day
      of the next month; December rolls over to January of the next year. */
  function MonthWindow(year: int, month: int): (r: (string, string))
    requires 1 <= month <= 12
    ensures r.0 == MonthStart(year, month)
    ensures r.1 == MonthStart(NextMonth(year, month).0, NextMonth(year, month).1)
  {
    var next := NextMonth(year, month);
    (MonthStart(year, month), MonthStart(next.0, next.1))
  }

  /** The rows of a month, in table order. */
  function MonthRows(rows: seq<Receipt>, year: int, month: int): seq<Receipt>
    requires 1 <= month <= 12
  {
    var w := MonthWindow(year, month);
    Filter(rows, (row: Receipt) => InWindow(row, w.0, w.1))
  }

  function Amount(row: Receipt): int { row.totalAmount }

  /** `getMonthlyTotal`: a month outside 1..12 rejects; otherwise
      `SUM(total_amount)` over the window, where the NULL of an empty sum
      becomes 0 through `|| 0`. */
  function MonthlyTotal(rows: seq<Receipt>, year: int, month: int): (r: Result<int, DbError>)
    ensures r.Err? <==> month < 1 || month > 12
    ensures r.Err? ==> r.error == InvalidMonth
    ensures 1 <= month <= 12 && MonthRows(rows, year, month) == [] ==> r == Ok(0)
  {
    if month < 1 || month > 12 then Err(InvalidMonth)
    else Ok(SumOf(MonthRows(rows, year, month), Amount))
  }

  /** For a four-digit year the first day of a month is written as its
      `YYYY-MM-DD` text. */
  lemma MonthStartIsIsoDate(year: int, month: int)
    requires 1000 <= year <= 9999 && 1 <= month <= 12
    ensures MonthStart(year, month) == IsoDate(year, month, 1)
  {
    FourDigitYear(year);
    PadStart2Digits(month);
    FirstDayDigits();
    var Y, M := Digits(year, 4), Digits(month, 2);
    assert MonthStart(year, month) == Y + "-" + M + "-01";
    DashJoin(Y, M);
    assert IsoDate(year, month, 1) == Y + ("-" + (M + ("-" + "01")));
  }

  lemma FourDigitYear(year: int)
    requires 1000 <= year <= 9999
    ensures IntToString(year) == Digits(year, 4)
  {
    assert Pow10(3) == 1000 && Pow10(4) == 10000;
    NatToStringFixedWidth(year, 4);
  }

  lemma FirstDayDigits()
    ensures Digits(1, 2) == "01"
  {
  }

  lemma DashJoin(y: string, m: string)
    ensures y + "-" + m + "-01" == y + ("-" + (m + ("-" + "01")))
  {
  }

  /** A day (numbered from 1) lies in the half-open range from the first of
      a month to the first of the next month exactly when it belongs to
      that month. */
  lemma DateInMonthIff(y: int, m: int, d: int, year: int, month: int)
    requires 1 <= m <= 12 && 1 <= month <= 12 && d >= 1
    ensures var next := NextMonth(year, month);
      (!DateLess(y, m, d, year, month, 1) && DateLess(y, m, d, next.0, next.1, 1)) <==>
      (y == year && m == month)
  {
    if month == 12 {
      assert NextMonth(year, month) == (year + 1, 1);
    } else {
      assert NextMonth(year, month) == (year, month + 1);
    }
  }

  /** For a four-digit year, the window holds exactly the `YYYY-MM-DD` dates
      of that month. */
  lemma MonthWindowSelectsMonth(year: int, month: int, d: string)
    requires 1000 <= year <= 9999 && 1 <= month <= 12
    requires !(year == 9999 && month == 12)
    requires IsIsoDateText(d) && 1 <= IsoMonth(d) <= 12 && 1 <= IsoDay(d)
    ensures var w := MonthWindow(year, month);
      (!LexLess(d, w.0) && LexLess(d, w.1)) <==>
      (IsoYear(d) == year && IsoMonth(d) == month)
  {
    var next := NextMonth(year, month);
    MonthStartIsIsoDate(year, month);
    MonthStartIsIsoDate(next.0, next.1);
    IsoDateRoundTrip(d);
    var y, m, dd := IsoYear(d), IsoMonth(d), IsoDay(d);
    IsoDateOrder(y, m, dd, year, month, 1);
    IsoDateOrder(y, m, dd, next.0, next.1, 1);
    DateInMonthIff(y, m, dd, year, month);
  }

  /** A row dated `YYYY-MM-DD` in a four-digit year is in a month's window
      exactly when its date lies in that month. */
  lemma RowInMonthIff(row: Receipt, year: int, month: int)
    requires 1000 <= year <= 9999 && 1 <= month <= 12 && !(year == 9999 && month == 12)
    requires row.receiptDate.Some? && IsIsoDateText(row.receiptDate.value)
    requires 1 <= IsoMonth(row.receiptDate.value) <= 12 && 1 <= IsoDay(row.receiptDate.value)
    ensures var w := MonthWindow(year, month);
      InWindow(row, w.0, w.1) <==>
      (IsoYear(row.receiptDate.value) == year && IsoMonth(row.receiptDate.value) == month)
  {
    var d := row.receiptDate.value;
    DateTextNotNumeric(d);
    MonthWindowSelectsMonth(year, month, d);
  }

  /** A row whose date reads as a number (`20251215` from a CSV line, say)
      belongs to no month: neither the month total nor the details count
      it. */
  lemma NumericDateInNoMonth(rows: seq<Receipt>, i: nat, year: int, month: int)
    requires i < |rows| && 1 <= month <= 12
    requires rows[i].receiptDate.Some? && IsNumericText(rows[i].receiptDate.value)
    ensures rows[i] !in MonthRows(rows, year, month)
    ensures rows[i] !in DetailRows(rows, year, month)
  {
    SortByPermutation(MonthRows(rows, year, month), DetailsLe);
    assert rows[i] !in multiset(MonthRows(rows, year, month));
  }

  // ---------------------------------------------------------------------
  // getMonthlyReceiptDetails
  // ---------------------------------------------------------------------

  /** A row as the details query hands it out, `use_image` turned into a
      boolean with `!!`. */
  datatype ReceiptView = ReceiptView(
    id: nat,
    imageHash: string,
    storeName: string,
    totalAmount: int,
    receiptDate: Option<string>,
    createdAt: string,
    useImage: bool)

  datatype MonthlyDetails = MonthlyDetails(receipts: seq<ReceiptView>, total: int)

  function View(row: Receipt): ReceiptView {
    ReceiptView(row.id, row.imageHash, row.storeName, row.totalAmount,
                row.receiptDate, row.createdAt, row.useImage != 0)
  }

  function Views(rows: seq<Receipt>): (r: seq<ReceiptView>)
    ensures |r| == |rows| && forall i :: 0 <= i < |rows| ==> r[i] == View(rows[i])
  {
    if rows == [] then [] else [View(rows[0])] + Views(rows[1..])
  }

  function ViewAmount(v: ReceiptView): int { v.totalAmount }

  /** The image hash, by which the monthly scripts group the lines of one
      receipt. */
  function Hash(v: ReceiptView): string { v.imageHash }

  /** `COALESCE(receipt_date, created_at)`. */
  function SortKey(row: Receipt): string {
    if row.receiptDate.Some? then row.receiptDate.value else row.createdAt
  }

  /** `ORDER BY COALESCE(receipt_date, created_at) ASC, id ASC`. */
  predicate DetailsLe(a: Receipt, b: Receipt) {
    LexLess(SortKey(a), SortKey(b)) || (SortKey(a) == SortKey(b) && a.id <= b.id)
  }

  lemma DetailsLeTotalPreorder()
    ensures TotalPreorder(DetailsLe)
  {
    forall a, b ensures DetailsLe(a, b) || DetailsLe(b, a) {
      if SortKey(a) != SortKey(b) { LexLessTotal(SortKey(a), SortKey(b)); }
    }
    forall a, b, c | DetailsLe(a, b) && DetailsLe(b, c) ensures DetailsLe(a, c) {
      if LexLess(SortKey(a), SortKey(b)) && LexLess(SortKey(b), SortKey(c)) {
        LexLessTransitive(SortKey(a), SortKey(b), SortKey(c));
      }
    }
  }

  /** The rows the details query returns, in the query's order. */
  function DetailRows(rows: seq<Receipt>, year: int, month: int): seq<Receipt>
    requires 1 <= month <= 12
  {
    SortBy(MonthRows(rows, year, month), DetailsLe)
  }

  lemma {:induction false} SumOfViews(rows: seq<Receipt>)
    ensures SumOf(Views(rows), ViewAmount) == SumOf(rows, Amount)
  {
    if rows != [] { SumOfViews(rows[1..]); }
  }

  /** The details of a month list the window's rows in ascending
      (date, id) order, and their total is the month total. */
  lemma DetailsMatchMonthlyTotal(rows: seq<Receipt>, year: int, month: int)
    requires 1 <= month <= 12
    ensures SortedBy(DetailRows(rows, year, month), DetailsLe)
    ensures multiset(DetailRows(rows, year, month)) == multiset(MonthRows(rows, year, month))
    ensures MonthlyTotal(rows, year, month)
         == Ok(SumOf(Views(DetailRows(rows, year, month)), ViewAmount))
  {
    DetailsLeTotalPreorder();
    SortByCorrect(MonthRows(rows, year, month), DetailsLe);
    SumOfPermutation(DetailRows(rows, year, month), MonthRows(rows, year, month), Amount);
    SumOfViews(DetailRows(rows, year, month));
  }

  // ---------------------------------------------------------------------
  // getAvailableMonths
  // ---------------------------------------------------------------------

  /** A `{year, month}` entry: `Unknown` is the group whose `strftime` is
      NULL, which `parseInt` turns into NaN. */
  datatype MonthKey = Known(year: int, month: int) | Unknown

  /** `strftime('%Y', receipt_date)` and `strftime('%m', receipt_date)`:
      the year and month of the day SQLite reads from the date. */
  function MonthOf(row: Receipt): (r: MonthKey)
    ensures r.Known? ==> 1 <= r.month <= 12
    ensures row.receiptDate.Some? && IsRealIsoDate(row.receiptDate.value) ==>
      r == Known(IsoYear(row.receiptDate.value), IsoMonth(row.receiptDate.value))
  {
    if row.receiptDate.None? then Unknown
    else
      var d := StoredDay(row.receiptDate.value);
      if d.None? then Unknown else Known(d.value.year, d.value.month)
  }

  /** `ORDER BY year DESC, month DESC`: newer months first, and the NULL
      group last. */
  predicate Newer(a: MonthKey, b: MonthKey) {
    match (a, b)
    case (Known(y1, m1), Known(y2, m2)) => y1 > y2 || (y1 == y2 && m1 > m2)
    case (Known(_, _), Unknown) => true
    case (Unknown, _) => false
  }

  predicate NewestFirst(ks: seq<MonthKey>) {
    forall i, j :: 0 <= i < j < |ks| ==> Newer(ks[i], ks[j])
  }

  function InsertMonth(k: MonthKey, ks: seq<MonthKey>): (r: seq<MonthKey>)
    requires NewestFirst(ks)
    ensures NewestFirst(r)
    ensures forall x :: x in r <==> x == k || x in ks
  {
    if ks == [] then [k]
    else if k == ks[0] then ks
    else if Newer(k, ks[0]) then [k] + ks
    else
      var tail := InsertMonth(k, ks[1..]);
      assert forall x :: x in tail ==> Newer(ks[0], x);
      [ks[0]] + tail
  }

  /** `getAvailableMonths`: one entry per month that has receipts, newest
      first, without repetitions; rows without a readable date make one
      `Unknown` entry at the end. */
  function AvailableMonths(rows: seq<Receipt>): (r: seq<MonthKey>)
    ensures NewestFirst(r)
    ensures forall i :: 0 <= i < |rows| ==> MonthOf(rows[i]) in r
    ensures forall k :: k in r ==> exists i :: 0 <= i < |rows| && MonthOf(rows[i]) == k
  {
    if rows == [] then []
    else
      var init := AvailableMonths(rows[..|rows| - 1]);
      var r := InsertMonth(MonthOf(rows[|rows| - 1]), init);
      assert forall i :: 0 <= i < |rows| - 1 ==> rows[..|rows| - 1][i] == rows[i];
      r
  }

  /** The list has no month twice and, if any, one `Unknown` entry, last. */
  lemma AvailableMonthsDistinct(rows: seq<Receipt>)
    ensures var r := AvailableMonths(rows);
      (forall i, j :: 0 <= i < j < |r| ==> r[i] != r[j]) &&
      (forall i :: 0 <= i < |r| - 1 ==> r[i].Known?)
  {
    var r := AvailableMonths(rows);
    forall i, j | 0 <= i < j < |r| ensures r[i] != r[j] {
      assert Newer(r[i], r[j]);
    }
    forall i | 0 <= i < |r| - 1 ensures r[i].Known? {
      assert Newer(r[i], r[i + 1]);
    }
  }

  // ---------------------------------------------------------------------
  // Reads by image hash
  // ---------------------------------------------------------------------

  /** `SELECT ... WHERE image_hash = ?` with `db.get`: the first matching row. */
  function FindByHash(rows: seq<Receipt>, hash: string): (r: Option<Receipt>)
    ensures r.None? <==> !HasHash(rows, hash)
    ensures r.Some? ==> r.value in rows && r.value.imageHash == hash
  {
    if rows == [] then None
    else if rows[0].imageHash == hash then Some(rows[0])
    else
      var r := FindByHash(rows[1..], hash);
      assert HasHash(rows, hash) ==> rows[0].imageHash == hash || HasHash(rows[1..], hash) by {
        if HasHash(rows, hash) {
          var i :| 0 <= i < |rows| && rows[i].imageHash == hash;
          if i > 0 { assert rows[1..][i - 1].imageHash == hash; }
        }
      }
      assert HasHash(rows[1..], hash) ==> HasHash(rows, hash) by {
        if HasHash(rows[1..], hash) {
          var i :| 0 <= i < |rows[1..]| && rows[1..][i].imageHash == hash;
          assert rows[i + 1].imageHash == hash;
        }
      }
      r
  }

  /** `getReceiptTotal`: the receipt's amount, or 0 when no receipt has the
      hash (`row?.total_amount || 0`). */
  function ReceiptTotal(rows: seq<Receipt>, hash: string): (r: int)
    ensures !HasHash(rows, hash) ==> r == 0
    ensures HasHash(rows, hash) ==> exists i :: 0 <= i < |rows| && rows[i].imageHash == hash && rows[i].totalAmount == r
  {
    var found := FindByHash(rows, hash);
    if found.Some? then found.value.totalAmount else 0
  }

  /** `getReceiptDetails`: the receipt with that hash, or a rejection. */
  function ReceiptDetails(rows: seq<Receipt>, hash: string): (r: Result<Receipt, DbError>)
    ensures r.Err? <==> !HasHash(rows, hash)
    ensures r.Err? ==> r.error == NotFound
    ensures r.Ok? ==> r.value in rows && r.value.imageHash == hash
  {
    var found := FindByHash(rows, hash);
    if found.Some? then Ok(found.value) else Err(NotFound)
  }

  /** A receipt appended under a new hash is what the hash reads back. */
  lemma {:induction false} FindAppended(rows: seq<Receipt>, row: Receipt)
    requires !HasHash(rows, row.imageHash)
    ensures FindByHash(rows + [row], row.imageHash) == Some(row)
  {
    if rows != [] {
      assert (rows + [row])[1..] == rows[1..] + [row];
      forall i | 0 <= i < |rows[1..]| ensures rows[1..][i].imageHash != row.imageHash {
        assert rows[1..][i] == rows[i + 1];
      }
      assert rows[0].imageHash != row.imageHash;
      FindAppended(rows[1..], row);
    }
  }

  // ---------------------------------------------------------------------
  // insertManualReceipt, updateReceipt, deletes
  // ---------------------------------------------------------------------

  /** The hash of a hand-entered receipt,
      `manual_${store}_${date}_${amount}_${Date.now()}`. */
  function ManualHash(store: string, date: string, amount: int, now: int): string {
    "manual_" + store + "_" + date + "_" + IntToString(amount) + "_" + IntToString(now)
  }

  /** Two hand entries of the same receipt at different clock readings get
      different hashes, so the second does not collide with the first. */
  lemma ManualHashDistinctTimes(store: string, date: string, amount: int, t1: int, t2: int)
    requires t1 != t2
    ensures ManualHash(store, date, amount, t1) != ManualHash(store, date, amount, t2)
  {
    var p := "manual_" + store + "_" + date + "_" + IntToString(amount) + "_";
    assert ManualHash(store, date, amount, t1) == p + IntToString(t1);
    assert ManualHash(store, date, amount, t2) == p + IntToString(t2);
    ParseIntOfToString(t1, []);
    ParseIntOfToString(t2, []);
    assert IntToString(t1) + [] == IntToString(t1);
    assert IntToString(t2) + [] == IntToString(t2);
    assert (p + IntToString(t1))[|p|..] == IntToString(t1);
    assert (p + IntToString(t2))[|p|..] == IntToString(t2);
  }

  /** The columns an `updateReceipt` call supplies; `None` is `undefined`. */
  datatype ReceiptPatch = ReceiptPatch(
    storeName: Option<string>,
    totalAmount: Option<int>,
    receiptDate: Option<string>,
    useImage: Option<bool>)

  predicate PatchIsEmpty(p: ReceiptPatch) {
    p.storeName.None? && p.totalAmount.None? && p.receiptDate.None? && p.useImage.None?
  }

  /** One `column = ?` of the dynamic UPDATE. */
  datatype Assignment =
    | SetStoreName(storeName: string)
    | SetTotalAmount(totalAmount: int)
    | SetReceiptDate(receiptDate: string)
    | SetUseImage(useImage: int)

  function Assign(row: Receipt, a: Assignment): Receipt {
    match a
    case SetStoreName(s) => row.(storeName := s)
    case SetTotalAmount(t) => row.(totalAmount := t)
    case SetReceiptDate(d) => row.(receiptDate := Some(d))
    case SetUseImage(u) => row.(useImage := u)
  }

  function AssignAll(row: Receipt, assignments: seq<Assignment>): Receipt
    decreases assignments
  {
    if assignments == [] then row
    else AssignAll(Assign(row, assignments[0]), assignments[1..])
  }

  /** The row an update leaves: every supplied column takes its new value,
      every other column keeps its old one. */
  function Patched(row: Receipt, p: ReceiptPatch): (r: Receipt)
    ensures r.id == row.id && r.imageHash == row.imageHash && r.createdAt == row.createdAt
    ensures p.storeName.None? ==> r.storeName == row.storeName
    ensures p.totalAmount.None? ==> r.totalAmount == row.totalAmount
    ensures p.receiptDate.None? ==> r.receiptDate == row.receiptDate
    ensures p.useImage.None? ==> r.useImage == row.useImage
  {
    Receipt(row.id, row.imageHash,
            p.storeName.GetOr(row.storeName),
            p.totalAmount.GetOr(row.totalAmount),
            if p.receiptDate.Some? then p.receiptDate else row.receiptDate,
            row.createdAt,
            if p.useImage.Some? then (if p.useImage.value then 1 else 0) else row.useImage)
  }

  /** Applying the same update twice is applying it once. */
  lemma PatchedIdempotent(row: Receipt, p: ReceiptPatch)
    ensures Patched(Patched(row, p), p) == Patched(row, p)
  {
  }

  function UpdateWhere(rows: seq<Receipt>, id: int, p: ReceiptPatch): (r: seq<Receipt>)
    ensures |r| == |rows|
    ensures forall i :: 0 <= i < |rows| ==> r[i] == if rows[i].id == id then Patched(rows[i], p) else rows[i]
  {
    if rows == [] then []
    else [if rows[0].id == id then Patched(rows[0], p) else rows[0]] + UpdateWhere(rows[1..], id, p)
  }

  function SetUseImageWhere(rows: seq<Receipt>, hash: string, flag: int): (r: seq<Receipt>)
    ensures |r| == |rows|
    ensures forall i :: 0 <= i < |rows| ==>
      r[i] == if rows[i].imageHash == hash then rows[i].(useImage := flag) else rows[i]
  {
    if rows == [] then []
    else [if rows[0].imageHash == hash then rows[0].(useImage := flag) else rows[0]]
         + SetUseImageWhere(rows[1..], hash, flag)
  }

  /** A delete by id takes away exactly one row when the id exists and none
      otherwise, since ids are unique. */
  lemma {:induction false} DeleteOneCount(rows: seq<Receipt>, nextId: nat, id: int)
    requires TableInvariant(rows, nextId)
    ensures |Filter(rows, (r: Receipt) => r.id != id)| == |rows| - (if HasId(rows, id) then 1 else 0)
  {
    if rows != [] {
      InvariantTail(rows, nextId);
      HasIdCons(rows, id);
      DeleteOneCount(rows[1..], nextId, id);
    }
  }

  /** The rows after the first keep the invariant and have larger ids. */
  lemma InvariantTail(rows: seq<Receipt>, nextId: nat)
    requires TableInvariant(rows, nextId) && rows != []
    ensures TableInvariant(rows[1..], nextId)
    ensures !HasId(rows[1..], rows[0].id)
  {
    var tail := rows[1..];
    forall i | 0 <= i < |tail| ensures tail[i].id != rows[0].id {
      assert RowBefore(rows[0], rows[i + 1]);
    }
  }

  lemma HasIdCons(rows: seq<Receipt>, id: int)
    requires rows != []
    ensures HasId(rows, id) <==> rows[0].id == id || HasId(rows[1..], id)
  {
    if HasId(rows, id) && rows[0].id != id {
      var i :| 0 <= i < |rows| && rows[i].id == id;
      assert rows[1..][i - 1].id == id;
    }
    if HasId(rows[1..], id) {
      var i :| 0 <= i < |rows[1..]| && rows[1..][i].id == id;
      assert rows[i + 1].id == id;
    }
  }

  lemma {:induction false} InvariantAfterUpdate(rows: seq<Receipt>, nextId: nat, id: int, p: ReceiptPatch)
    requires TableInvariant(rows, nextId)
    ensures TableInvariant(UpdateWhere(rows, id, p), nextId)
  {
    var r := UpdateWhere(rows, id, p);
    forall i, j | 0 <= i < j < |r| ensures RowBefore(r[i], r[j]) {
      assert RowBefore(rows[i], rows[j]);
    }
  }

  lemma {:induction false} InvariantAfterSetUseImage(rows: seq<Receipt>, nextId: nat, hash: string, flag: int)
    requires TableInvariant(rows, nextId)
    ensures TableInvariant(SetUseImageWhere(rows, hash, flag), nextId)
  {
    var r := SetUseImageWhere(rows, hash, flag);
    forall i, j | 0 <= i < j < |r| ensures RowBefore(r[i], r[j]) {
      assert RowBefore(rows[i], rows[j]);
    }
  }

  lemma InvariantAfterFilter(rows: seq<Receipt>, nextId: nat, p: Receipt -> bool)
    requires TableInvariant(rows, nextId)
    ensures TableInvariant(Filter(rows, p), nextId)
  {
    FilterKeepsOrder(rows, p, RowBefore);
    var r := Filter(rows, p);
    forall i | 0 <= i < |r| ensures 1 <= r[i].id < nextId {
      assert r[i] in multiset(rows);
    }
  }

  lemma InvariantAfterAppend(rows: seq<Receipt>, nextId: nat, row: Receipt)
    requires TableInvariant(rows, nextId)
    requires !HasHash(rows, row.imageHash) && row.id == nextId && nextId >= 1
    ensures TableInvariant(rows + [row], nextId + 1)
  {
    var r := rows + [row];
    forall i, j | 0 <= i < j < |r| ensures RowBefore(r[i], r[j]) {
      if j == |rows| {
        assert r[i] == rows[i];
      } else {
        assert RowBefore(rows[i], rows[j]);
      }
    }
  }

  /** Each new row carries the import's hash and the next id in turn. */
  lemma {:induction false} NewRowsFields(batch: seq<NewReceipt>, hash: string, createdAt: string, firstId: nat)
    ensures forall k :: 0 <= k < |batch| ==>
      NewRows(batch, hash, createdAt, firstId)[k].id == firstId + k &&
      NewRows(batch, hash, createdAt, firstId)[k].imageHash == hash
  {
    if batch != [] {
      NewRowsFields(batch[..|batch| - 1], hash, createdAt, firstId);
    }
  }

  lemma FirstNewRow(x: NewReceipt, hash: string, createdAt: string, firstId: nat)
    ensures NewRows([x], hash, createdAt, firstId) ==
      [Receipt(firstId, hash, x.storeName, x.totalAmount, x.receiptDate, createdAt, 0)]
  {
    assert [x][..0] == [];
  }

  /** Appending an empty batch changes nothing; appending rows of a batch
      brings their hash into the table. */
  lemma AppendedRows(rows: seq<Receipt>, batch: seq<NewReceipt>, hash: string, createdAt: string, firstId: nat)
    ensures batch == [] ==> rows + NewRows(batch, hash, createdAt, firstId) == rows
    ensures batch != [] ==> HasHash(rows + NewRows(batch, hash, createdAt, firstId), hash)
  {
    var all := rows + NewRows(batch, hash, createdAt, firstId);
    if batch == [] {
      assert all == rows;
    } else {
      NewRowsFields(batch, hash, createdAt, firstId);
      assert all[|rows|].imageHash == hash;
    }
  }

  /** An INSERT error met after the first `i` parsed lines is the error of
      the whole batch. */
  lemma BatchErrorPersists(parsed: seq<Option<NewReceipt>>, i: nat, statements: nat, fault: Fault)
    requires i <= |parsed| && statements == |Present(parsed[..i])|
    requires BatchInsertError(statements, fault).Some?
    ensures BatchInsertError(|Present(parsed)|, fault) == BatchInsertError(statements, fault)
  {
    PresentPrefix(parsed, i);
    BatchInsertErrorStable(statements, |Present(parsed)|, fault);
  }

  /** Once an INSERT of the batch has failed, later lines do not change the
      error the import rejects with. */
  lemma BatchInsertErrorStable(n: nat, m: nat, fault: Fault)
    requires n <= m && BatchInsertError(n, fault).Some?
    ensures BatchInsertError(m, fault) == BatchInsertError(n, fault)
  {
  }

  // ---------------------------------------------------------------------
  // The table
  // ---------------------------------------------------------------------

  class ReceiptTable {
    var rows: seq<Receipt>
    var nextId: nat

    predicate Valid()
      reads this
    {
      nextId >= 1 && TableInvariant(rows, nextId)
    }

    /** `initializeDatabase` on a fresh file: an empty table whose
        AUTOINCREMENT counter starts at 1. */
    constructor ()
      ensures Valid() && rows == [] && nextId == 1
    {
      rows := [];
      nextId := 1;
    }

    /** One INSERT INTO receipts. UNIQUE(image_hash) is checked first; then
        the statement may still fail in storage (`fails`). */
    method InsertRow(imageHash: string, storeName: string, totalAmount: int,
                     receiptDate: Option<string>, createdAt: string, useImage: int, fails: bool)
      returns (err: Option<DbError>)
      requires Valid()
      modifies this
      ensures Valid()
      ensures old(HasHash(rows, imageHash)) ==> err == Some(UniqueViolation) && unchanged(this)
      ensures !old(HasHash(rows, imageHash)) && fails ==> err == Some(StorageError) && unchanged(this)
      ensures err.None? <==> !old(HasHash(rows, imageHash)) && !fails
      ensures err.None? ==>
        nextId == old(nextId) + 1 &&
        rows == old(rows) + [Receipt(old(nextId), imageHash, storeName, totalAmount, receiptDate, createdAt, useImage)]
    {
      if HasHash(rows, imageHash) {
        return Some(UniqueViolation);
      }
      if fails {
        return Some(StorageError);
      }
      var row := Receipt(nextId, imageHash, storeName, totalAmount, receiptDate, createdAt, useImage);
      InvariantAfterAppend(rows, nextId, row);
      rows := rows + [row];
      nextId := nextId + 1;
      err := None;
    }

    /** One turn of the line loop: the parsed line `i`, when it holds a row,
        is INSERTed as statement number `statements`, after the `batch` rows
        before it went in without error. */
    method InsertLine(parsed: seq<Option<NewReceipt>>, i: nat, statements: nat, fault: Fault,
                      ghost rows0: seq<Receipt>, ghost next0: nat, ghost batch: seq<NewReceipt>,
                      imageHash: string, createdAt: string)
      returns (statements': nat, ghost batch': seq<NewReceipt>, err: Option<DbError>)
      requires i < |parsed| && batch == Present(parsed[..i]) && statements == |batch|
      requires Valid() && !HasHash(rows0, imageHash)
      requires BatchInsertError(statements, fault).None?
      requires rows == rows0 + NewRows(batch, imageHash, createdAt, next0) && nextId == next0 + statements
      modifies this
      ensures Valid()
      ensures batch' == Present(parsed[..i + 1]) && statements' == |batch'|
      ensures err == BatchInsertError(statements', fault)
      ensures err.None? ==>
        rows == rows0 + NewRows(batch', imageHash, createdAt, next0) && nextId == next0 + statements'
    {
      PresentStep(parsed, i);
      if parsed[i].None? {
        return statements, batch, None;
      }
      var row := parsed[i].value;
      AppendedRows(rows0, batch, imageHash, createdAt, next0);
      err := InsertRow(imageHash, row.storeName, row.totalAmount, row.receiptDate,
                       createdAt, 0, fault == InsertFails(statements));
      if err.None? {
        FirstNewRow(row, imageHash, createdAt, next0);
      }
      statements', batch' := statements + 1, batch + [row];
    }

    /** The INSERTs of the line loop of `parseAndSaveCSV`, one per parsed
        line that holds a row, stopping at the first that fails. The
        statements the source still issues after a failure are undone by
        the same ROLLBACK, so the outcome is the same. */
    method InsertBatch(parsed: seq<Option<NewReceipt>>, imageHash: string, createdAt: string, fault: Fault)
      returns (failure: Option<DbError>)
      requires Valid() && !HasHash(rows, imageHash)
      modifies this
      ensures Valid()
      ensures failure == BatchInsertError(|Present(parsed)|, fault)
      ensures failure.None? ==>
        rows == old(rows) + NewRows(Present(parsed), imageHash, createdAt, old(nextId)) &&
        nextId == old(nextId) + |Present(parsed)|
    {
      var statements := 0;
      var i := 0;
      ghost var batch: seq<NewReceipt> := [];
      while i < |parsed|
        invariant 0 <= i <= |parsed|
        invariant batch == Present(parsed[..i]) && statements == |batch|
        invariant Valid()
        invariant BatchInsertError(statements, fault).None?
        invariant rows == old(rows) + NewRows(batch, imageHash, createdAt, old(nextId))
        invariant nextId == old(nextId) + statements
      {
        var err;
        statements, batch, err := InsertLine(parsed, i, statements, fault, old(rows), old(nextId), batch, imageHash, createdAt);
        if err.Some? {
          BatchErrorPersists(parsed, i + 1, statements, fault);
          return err;
        }
        i := i + 1;
      }
      assert parsed[..i] == parsed;
      return None;
    }

    /** `parseAndSaveCSV`. The line loop stops at the first failing INSERT;
        the statements the source still issues after it are undone by the
        same ROLLBACK, so the outcome is the same. `createdAt` is the
        CURRENT_TIMESTAMP default of the new rows. */
    method ParseAndSaveCsv(csv: string, imageHash: string, createdAt: string, fault: Fault)
      returns (r: Result<bool, DbError>)
      requires Valid()
      modifies this
      ensures Valid()
      ensures r == SaveOutcome(old(rows), csv, imageHash, fault)
      ensures r == Ok(true) ==>
        rows == old(rows) + NewRows(CsvBatch(csv), imageHash, createdAt, old(nextId)) &&
        nextId == old(nextId) + |CsvBatch(csv)|
      ensures r != Ok(true) ==> rows == old(rows) && nextId == old(nextId)
    {
      if fault == LookupFails {
        return Err(StorageError);
      }
      if HasHash(rows, imageHash) {
        return Ok(false);
      }
      if fault == BeginFails {
        return Err(StorageError);
      }
      // BEGIN TRANSACTION
      var savedRows, savedNext := rows, nextId;
      var lines := Split(Trim(csv), {'\n'});
      var header := Split(lines[0], {','});
      if header[0] != "store_name" || |header| < 2 || header[1] != "total_amount" {
        return Err(InvalidHeader);
      }
      var failure := InsertBatch(ParsedLines(lines[1..]), imageHash, createdAt, fault);
      if failure.Some? {
        // ROLLBACK
        rows, nextId := savedRows, savedNext;
        return Err(failure.value);
      }
      if fault == CommitFails {
        // ROLLBACK
        rows, nextId := savedRows, savedNext;
        return Err(StorageError);
      }
      // COMMIT
      return Ok(true);
    }

    /** `insertManualReceipt`: the hash is made from the fields and the
        clock reading `now` (`Date.now()`); the row keeps `use_image`. */
    method InsertManualReceipt(storeName: string, totalAmount: int, receiptDate: string,
                               useImage: bool, now: int, createdAt: string, fails: bool)
      returns (r: Result<bool, DbError>)
      requires Valid()
      modifies this
      ensures Valid()
      ensures var hash := ManualHash(storeName, receiptDate, totalAmount, now);
        if old(HasHash(rows, hash)) || fails then
          r.Err? && rows == old(rows) && nextId == old(nextId)
        else
          r == Ok(true) && nextId == old(nextId) + 1 &&
          rows == old(rows) + [Receipt(old(nextId), hash, storeName, totalAmount, Some(receiptDate),
                                       createdAt, if useImage then 1 else 0)]
    {
      var hash := ManualHash(storeName, receiptDate, totalAmount, now);
      var err := InsertRow(hash, storeName, totalAmount, Some(receiptDate), createdAt,
                           if useImage then 1 else 0, fails);
      if err.Some? {
        return Err(err.value);
      }
      return Ok(true);
    }

    /** `updateReceipt`: the SET list is built one supplied column at a
        time; with none it resolves false and runs no query. Otherwise the
        row with that id takes the supplied values and the result says
        whether such a row exists (`this.changes > 0`). */
    method UpdateReceipt(id: int, patch: ReceiptPatch) returns (r: bool)
      requires Valid()
      modifies this
      ensures Valid()
      ensures PatchIsEmpty(patch) ==> !r && rows == old(rows)
      ensures !PatchIsEmpty(patch) ==> r == old(HasId(rows, id)) && rows == UpdateWhere(old(rows), id, patch)
      ensures nextId == old(nextId)
    {
      var fields: seq<Assignment> := [];
      if patch.storeName.Some? {
        fields := fields + [SetStoreName(patch.storeName.value)];
      }
      if patch.totalAmount.Some? {
        fields := fields + [SetTotalAmount(patch.totalAmount.value)];
      }
      if patch.receiptDate.Some? {
        fields := fields + [SetReceiptDate(patch.receiptDate.value)];
      }
      if patch.useImage.Some? {
        fields := fields + [SetUseImage(if patch.useImage.value then 1 else 0)];
      }
      assert fields == SetList(patch);
      if |fields| == 0 {
        return false;
      }
      r := HasId(rows, id);
      AssignWhereIsUpdate(rows, id, patch);
      InvariantAfterUpdate(rows, nextId, id, patch);
      rows := AssignWhere(rows, id, fields);
    }

    /** `updateUseImage`: every row with the hash (at most one) takes the
        flag as 1 or 0. */
    method UpdateUseImage(imageHash: string, useImage: bool)
      requires Valid()
      modifies this
      ensures Valid()
      ensures rows == SetUseImageWhere(old(rows), imageHash, if useImage then 1 else 0)
      ensures nextId == old(nextId)
    {
      InvariantAfterSetUseImage(rows, nextId, imageHash, if useImage then 1 else 0);
      rows := SetUseImageWhere(rows, imageHash, if useImage then 1 else 0);
    }

    /** `deleteReceipt`: removes the row with that id; true iff there was one. */
    method DeleteReceipt(id: int) returns (r: bool)
      requires Valid()
      modifies this
      ensures Valid()
      ensures r == old(HasId(rows, id))
      ensures rows == Filter(old(rows), (row: Receipt) => row.id != id)
      ensures nextId == old(nextId)
    {
      r := HasId(rows, id);
      InvariantAfterFilter(rows, nextId, (row: Receipt) => row.id != id);
      rows := Filter(rows, (row: Receipt) => row.id != id);
    }

    /** `deleteMultipleReceipts`: an empty list resolves 0 without touching
        the table; otherwise one DELETE ... WHERE id IN (...) in a
        transaction, whose failure rolls back and rejects, and the result is
        the number of rows removed. */
    method DeleteMultipleReceipts(ids: seq<int>, fails: bool) returns (r: Result<nat, DbError>)
      requires Valid()
      modifies this
      ensures Valid()
      ensures |ids| == 0 ==> r == Ok(0) && rows == old(rows)
      ensures |ids| > 0 && fails ==> r == Err(StorageError) && rows == old(rows)
      ensures |ids| > 0 && !fails ==>
        rows == Filter(old(rows), (row: Receipt) => row.id !in ids) &&
        r == Ok(|Filter(old(rows), (row: Receipt) => row.id in ids)|)
      ensures nextId == old(nextId)
    {
      if |ids| == 0 {
        return Ok(0);
      }
      if fails {
        return Err(StorageError);
      }
      var removed := Filter(rows, (row: Receipt) => row.id in ids);
      InvariantAfterFilter(rows, nextId, (row: Receipt) => row.id !in ids);
      rows := Filter(rows, (row: Receipt) => row.id !in ids);
      r := Ok(|removed|);
    }

    /** `getMonthlyReceiptDetails`: the window's rows in query order, each
        with `use_image` made boolean, and the running total of their
        amounts. */
    method MonthlyReceiptDetails(year: int, month: int) returns (r: Result<MonthlyDetails, DbError>)
      requires Valid()
      ensures month < 1 || month > 12 ==> r == Err(InvalidMonth)
      ensures 1 <= month <= 12 ==>
        r.Ok? && r.value.receipts == Views(DetailRows(rows, year, month)) &&
        r.value.total == SumOf(r.value.receipts, ViewAmount)
    {
      if month < 1 || month > 12 {
        return Err(InvalidMonth);
      }
      var found := DetailRows(rows, year, month);
      var receipts: seq<ReceiptView> := [];
      var total := 0;
      var i := 0;
      while i < |found|
        invariant 0 <= i <= |found|
        invariant receipts == Views(found[..i])
        invariant total == SumOf(receipts, ViewAmount)
      {
        DetailsStep(found, i, receipts, total);
        receipts := receipts + [View(found[i])];
        total := total + found[i].totalAmount;
        i := i + 1;
      }
      assert found[..i] == found;
      return Ok(MonthlyDetails(receipts, total));
    }
  }

  /** One turn of the `getMonthlyReceiptDetails` loop keeps the views and
      the running total in step with the rows read so far. */
  lemma DetailsStep(found: seq<Receipt>, i: nat, receipts: seq<ReceiptView>, total: int)
    requires i < |found| && receipts == Views(found[..i]) && total == SumOf(receipts, ViewAmount)
    ensures receipts + [View(found[i])] == Views(found[..i + 1])
    ensures total + found[i].totalAmount == SumOf(receipts + [View(found[i])], ViewAmount)
  {
    SumOfConcat(receipts, [View(found[i])], ViewAmount);
    assert Views(found[..i + 1]) == Views(found[..i]) + [View(found[i])];
  }

  /** The SET list `updateReceipt` builds, in column order. */
  function SetList(p: ReceiptPatch): (r: seq<Assignment>)
    ensures r == [] <==> PatchIsEmpty(p)
  {
    (if p.storeName.Some? then [SetStoreName(p.storeName.value)] else []) +
    (if p.totalAmount.Some? then [SetTotalAmount(p.totalAmount.value)] else []) +
    (if p.receiptDate.Some? then [SetReceiptDate(p.receiptDate.value)] else []) +
    (if p.useImage.Some? then [SetUseImage(if p.useImage.value then 1 else 0)] else [])
  }

  /** The SET list applies exactly the patch. */
  lemma PatchAsAssignments(p: ReceiptPatch, row: Receipt)
    ensures AssignAll(row, SetList(p)) == Patched(row, p)
  {
    var a := if p.storeName.Some? then [SetStoreName(p.storeName.value)] else [];
    var b := if p.totalAmount.Some? then [SetTotalAmount(p.totalAmount.value)] else [];
    var c := if p.receiptDate.Some? then [SetReceiptDate(p.receiptDate.value)] else [];
    var d := if p.useImage.Some? then [SetUseImage(if p.useImage.value then 1 else 0)] else [];
    AssignAllConcat(row, a + b + c, d);
    AssignAllConcat(row, a + b, c);
    AssignAllConcat(row, a, b);
  }

  /** `UPDATE receipts SET ... WHERE id = ?` with a SET list. */
  function AssignWhere(rows: seq<Receipt>, id: int, fields: seq<Assignment>): (r: seq<Receipt>)
    ensures |r| == |rows|
  {
    if rows == [] then []
    else [if rows[0].id == id then AssignAll(rows[0], fields) else rows[0]] + AssignWhere(rows[1..], id, fields)
  }

  lemma {:induction false} AssignWhereIsUpdate(rows: seq<Receipt>, id: int, p: ReceiptPatch)
    ensures AssignWhere(rows, id, SetList(p)) == UpdateWhere(rows, id, p)
  {
    if rows != [] {
      PatchAsAssignments(p, rows[0]);
      AssignWhereIsUpdate(rows[1..], id, p);
    }
  }

  lemma {:induction false} AssignAllConcat(row: Receipt, a: seq<Assignment>, b: seq<Assignment>)
    ensures AssignAll(row, a + b) == AssignAll(AssignAll(row, a), b)
    decreases a
  {
    if a == [] {
      assert a + b == b;
    } else {
      assert (a + b)[1..] == a[1..] + b;
      AssignAllConcat(Assign(row, a[0]), a[1..], b);
    }
  }
}
