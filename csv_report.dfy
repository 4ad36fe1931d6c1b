/** The receipt CSV reader and the report built from it
    (packages/backend/src/csv-mail-sender.ts). Lines are `mm/dd,store,amount`,
    optionally under a header line; the report states the month's total, the
    amount billed and the receipts ordered by month and day. */
module CsvReport {
  import opened Wrappers
  import opened JsText
  import opened Sequences
  import opened Calendar
  import opened Billing
  import opened Storage

  /** One accepted line: the `mm/dd` text, the store and the amount. */
  datatype ReceiptData = ReceiptData(date: string, storeName: string, amount: int)

  // ---------------------------------------------------------------------
  // Reading the file
  // ---------------------------------------------------------------------

  /** `fileContent.split('\n').filter(line => line.trim() !== '')`. */
  function NonBlankLines(content: string): seq<string> {
    KeepNonBlank(Split(content, {'\n'}))
  }

  predicate NonBlank(line: string) { Trim(line) != [] }

  /** The lines whose trim is not empty, in order. */
  function KeepNonBlank(lines: seq<string>): (r: seq<string>)
    ensures forall k :: 0 <= k < |r| ==> Trim(r[k]) != []
    ensures forall k :: 0 <= k < |lines| ==> (lines[k] in r <==> Trim(lines[k]) != [])
  {
    Filter(lines, NonBlank)
  }

  /** The filter goes line by line: the lines of a concatenation are kept
      part by part, a blank line is dropped and any other line is kept, so
      the kept lines are the non-blank lines in their order. */
  lemma KeepNonBlankPieces(a: seq<string>, b: seq<string>, line: string)
    ensures KeepNonBlank(a + b) == KeepNonBlank(a) + KeepNonBlank(b)
    ensures KeepNonBlank([line]) == if Trim(line) == [] then [] else [line]
  {
    FilterConcat(a, b, NonBlank);
    FilterCons(line, [], NonBlank);
    assert [line] + [] == [line];
  }

  /** Lines of which none is blank are all kept, in order. */
  lemma KeepNonBlankAll(lines: seq<string>)
    requires forall k :: 0 <= k < |lines| ==> Trim(lines[k]) != []
    ensures KeepNonBlank(lines) == lines
  {
    FilterAll(lines, NonBlank);
  }

  /** The words whose presence in the lower-cased first line marks it as a
      header: a date, a store or an amount, in Japanese or in English. */
  const HeaderKeywords: seq<string> := ["日付", "date", "店", "store", "金額", "amount"]

  /** `s` includes at least one of `words`. */
  predicate ContainsAny(s: string, words: seq<string>) {
    words != [] && (Contains(s, words[0]) || ContainsAny(s, words[1..]))
  }

  lemma {:induction false} ContainsAnyAt(s: string, words: seq<string>, k: nat)
    requires k < |words| && Contains(s, words[k])
    ensures ContainsAny(s, words)
  {
    if k > 0 {
      ContainsAnyAt(s, words[1..], k - 1);
    }
  }

  /** The header heuristic. */
  predicate LooksLikeHeader(line: string) {
    ContainsAny(ToLowerAscii(line), HeaderKeywords)
  }

  /** Where the data lines start: after a first line that looks like a
      header, else at the first line. */
  function StartIndex(lines: seq<string>): (r: nat)
    ensures r <= |lines|
    ensures r == 1 <==> |lines| > 0 && LooksLikeHeader(lines[0])
  {
    if |lines| > 0 && LooksLikeHeader(lines[0]) then 1 else 0
  }

  /** `part.trim().replace(/^["']|["']$/g, '')`. */
  function CleanField(part: string): string {
    StripQuotes(Trim(part))
  }

  /** `line.split(',').map(...)`: the cleaned comma-separated fields. */
  function Fields(line: string): (r: seq<string>)
    ensures |r| == |Split(line, {','})|
  {
    CleanFields(Split(line, {','}))
  }

  function CleanFields(parts: seq<string>): (r: seq<string>)
    ensures |r| == |parts|
  {
    if parts == [] then [] else [CleanField(parts[0])] + CleanFields(parts[1..])
  }

  /** The characters `/[¥,円]/g` removes from the amount. */
  const AmountNoise: set<char> := {'¥', ',', '円'}

  /** `/^\d{1,2}\/\d{1,2}$/`: one or two digits, a slash, one or two digits. */
  predicate IsMonthDay(date: string) {
    var p := Split(date, {'/'});
    |p| == 2 && 1 <= |p[0]| <= 2 && 1 <= |p[1]| <= 2 && AllDigits(p[0]) && AllDigits(p[1])
  }

  /** One line of the loop: blank lines, lines with fewer than three fields,
      amounts that do not parse and dates that are not `mm/dd` are skipped. */
  function ReadLine(line: string): (r: Option<ReceiptData>)
    ensures r.Some? ==> IsMonthDay(r.value.date)
    ensures r.Some? ==> |Split(Trim(line), {','})| >= 3
  {
    var t := Trim(line);
    if t == [] then None
    else
      var parts := Fields(t);
      if |parts| < 3 then None
      else
        var amount := ParseInt(RemoveChars(parts[2], AmountNoise));
        if amount.None? then None
        else if !IsMonthDay(parts[0]) then None
        else Some(ReceiptData(parts[0], parts[1], amount.value))
  }

  function ReadLines(lines: seq<string>): (r: seq<Option<ReceiptData>>)
    ensures |r| == |lines| && forall k :: 0 <= k < |lines| ==> r[k] == ReadLine(lines[k])
  {
    seq(|lines|, k requires 0 <= k < |lines| => ReadLine(lines[k]))
  }

  /** The lines after the header, if there is one. */
  function DataLines(content: string): (r: seq<string>)
    ensures |r| <= |NonBlankLines(content)|
  {
    var lines := NonBlankLines(content);
    lines[StartIndex(lines)..]
  }

  /** The receipts the given data lines hold, in line order. */
  function ReceiptsOf(lines: seq<string>): (r: seq<ReceiptData>)
    ensures |r| <= |lines|
  {
    Present(ReadLines(lines))
  }

  /** What `readReceiptCsvFile` returns for a file's content: the accepted
      lines after the header, in file order. */
  function ReadReceipts(content: string): seq<ReceiptData> {
    ReceiptsOf(DataLines(content))
  }

  /** Every receipt read has an `mm/dd` date and comes from a line of its
      own. */
  lemma {:induction false} ReadReceiptsValid(content: string)
    ensures forall r :: r in ReadReceipts(content) ==> IsMonthDay(r.date)
    ensures |ReadReceipts(content)| <= |NonBlankLines(content)|
  {
    ReceiptsOfValid(DataLines(content));
  }

  lemma {:induction false} ReceiptsOfValid(lines: seq<string>)
    ensures forall r: ReceiptData :: r in ReceiptsOf(lines) ==> IsMonthDay(r.date)
  {
    var parsed := ReadLines(lines);
    PresentValues(parsed);
    forall r: ReceiptData | r in Present(parsed) ensures IsMonthDay(r.date) {
      var k :| 0 <= k < |parsed| && parsed[k] == Some(r);
    }
  }

  /** `readReceiptCsvFile` after the file has been read. */
  method ReadReceiptCsvFile(content: string) returns (results: seq<ReceiptData>)
    ensures results == ReadReceipts(content)
  {
    var lines := NonBlankLines(content);
    var startIndex := 0;
    if |lines| > 0 && LooksLikeHeader(lines[0]) {
      startIndex := 1;
    }
    assert startIndex == StartIndex(lines);
    results := ReadDataLines(lines, startIndex);
  }

  /** The loop over the data lines, from `startIndex` on. */
  method ReadDataLines(lines: seq<string>, startIndex: nat) returns (results: seq<ReceiptData>)
    requires startIndex <= |lines|
    ensures results == ReceiptsOf(lines[startIndex..])
  {
    results := [];
    var i := startIndex;
    while i < |lines|
      invariant startIndex <= i <= |lines|
      invariant ReadSoFar(lines, startIndex, i, results)
    {
      var row := ReadLine(lines[i]);
      var before := results;
      if row.Some? {
        results := results + [row.value];
      }
      ReceiptsOfStep(lines, startIndex, i, row, before, results);
      i := i + 1;
    }
    assert lines[startIndex..i] == lines[startIndex..];
  }

  /** The loop invariant of `ReadDataLines`. */
  ghost predicate ReadSoFar(lines: seq<string>, start: nat, i: nat, results: seq<ReceiptData>)
    requires start <= i <= |lines|
  {
    results == ReceiptsOf(lines[start..i])
  }

  lemma {:induction false} ReceiptsOfStep(lines: seq<string>, start: nat, i: nat, row: Option<ReceiptData>,
                                          before: seq<ReceiptData>, after: seq<ReceiptData>)
    requires start <= i < |lines|
    requires ReadSoFar(lines, start, i, before)
    requires row == ReadLine(lines[i])
    requires after == before + (if row.Some? then [row.value] else [])
    ensures ReadSoFar(lines, start, i + 1, after)
  {
    SliceSnoc(lines, start, i);
    ReceiptsOfSnoc(lines[start..i], lines[i]);
  }

  /** One more line adds its receipt, if it holds one, at the end. */
  lemma {:induction false} ReceiptsOfSnoc(lines: seq<string>, line: string)
    ensures ReceiptsOf(lines + [line]) ==
      ReceiptsOf(lines) + (if ReadLine(line).Some? then [ReadLine(line).value] else [])
  {
    var parsed := ReadLines(lines + [line]);
    assert parsed[..|lines|] == ReadLines(lines);
    assert parsed[|lines|] == ReadLine(line);
  }

  // ---------------------------------------------------------------------
  // Writing a file the reader accepts
  // ---------------------------------------------------------------------

  /** The header line of the documented format. */
  const HeaderLine: string := "日付,店名,金額"

  function RenderLine(r: ReceiptData): string {
    r.date + "," + r.storeName + "," + IntToString(r.amount)
  }

  function RenderLines(rs: seq<ReceiptData>): (r: seq<string>)
    ensures |r| == |rs| && forall k :: 0 <= k < |rs| ==> r[k] == RenderLine(rs[k])
  {
    seq(|rs|, k requires 0 <= k < |rs| => RenderLine(rs[k]))
  }

  /** The file of some receipts: the header line, then one line each. */
  function CsvText(rs: seq<ReceiptData>): string {
    Join([HeaderLine] + RenderLines(rs), '\n')
  }

  /** Neither end of `s` is white space or a quote, so that trimming and
      de-quoting leave it alone. */
  predicate CleanEnds(s: string) {
    s == [] || (!IsJsSpace(s[0]) && !IsJsSpace(s[|s| - 1]) && !IsQuote(s[0]) && !IsQuote(s[|s| - 1]))
  }

  /** A store name that survives the split, the trim and the de-quote of its
      field. */
  predicate PlainStore(s: string) {
    ',' !in s && '\n' !in s && CleanEnds(s)
  }

  /** A receipt the reader can return: an `mm/dd` date and a plain store. */
  predicate Writable(r: ReceiptData) {
    IsMonthDay(r.date) && PlainStore(r.storeName)
  }

  /** Every character of `s` is a digit or `c`. */
  predicate DigitsOr(s: string, c: char) {
    forall i :: 0 <= i < |s| ==> s[i] == c || IsDigit(s[i])
  }

  lemma {:induction false} DigitsOrFree(s: string, c: char, d: char)
    requires DigitsOr(s, c) && d != c && !IsDigit(d)
    ensures d !in s
  {
  }

  /** Digits and separators, starting with a digit or a minus sign and
      ending with a digit: a clean field without a comma or a line break. */
  lemma {:induction false} NumberTextClean(s: string, c: char)
    requires DigitsOr(s, c) && c != ',' && c != '\n' && c != '\'' && c != '"' && !IsJsSpace(c)
    requires s != [] && IsDigit(s[|s| - 1])
    ensures CleanEnds(s) && ',' !in s && '\n' !in s
  {
    DigitsOrFree(s, c, ',');
    DigitsOrFree(s, c, '\n');
  }

  lemma {:induction false} MonthDayShape(date: string)
    requires IsMonthDay(date)
    ensures DigitsOr(date, '/') && date != [] && IsDigit(date[|date| - 1])
  {
    var p := Split(date, {'/'});
    JoinSplit(date, '/');
    assert date == p[0] + ['/'] + p[1];
    forall i | 0 <= i < |date| ensures date[i] == '/' || IsDigit(date[i]) {
      if i < |p[0]| {
        assert date[i] == p[0][i];
      } else if i > |p[0]| {
        assert date[i] == p[1][i - |p[0]| - 1];
      }
    }
  }

  lemma {:induction false} CleanFieldNoop(s: string)
    requires CleanEnds(s)
    ensures CleanField(s) == s
  {
    TrimNoop(s);
  }

  /** Three clean fields without commas, joined by commas, are the fields
      the reader finds on that line. */
  lemma {:induction false} FieldsOfThree(a: string, b: string, c: string)
    requires ',' !in a && ',' !in b && ',' !in c
    requires CleanEnds(a) && CleanEnds(b) && CleanEnds(c)
    ensures Fields(a + "," + b + "," + c) == [a, b, c]
  {
    assert a + "," + b + "," + c == a + [','] + b + [','] + c;
    SplitThree(a, b, c, ',');
    CleanFieldsNoop([a, b, c]);
  }

  lemma {:induction false} CleanFieldsNoop(parts: seq<string>)
    requires forall k :: 0 <= k < |parts| ==> CleanEnds(parts[k])
    ensures CleanFields(parts) == parts
  {
    if parts != [] {
      CleanFieldNoop(parts[0]);
      CleanFieldsNoop(parts[1..]);
      assert parts == [parts[0]] + parts[1..];
    }
  }

  lemma {:induction false} TrimOfThree(a: string, b: string, c: string)
    requires a != [] && c != [] && !IsJsSpace(a[0]) && !IsJsSpace(c[|c| - 1])
    ensures Trim(a + "," + b + "," + c) == a + "," + b + "," + c != []
  {
    var line := a + "," + b + "," + c;
    assert line[0] == a[0] && line[|line| - 1] == c[|c| - 1];
    TrimNoop(line);
  }

  lemma {:induction false} NoBreakInThree(a: string, b: string, c: string)
    requires '\n' !in a && '\n' !in b && '\n' !in c
    ensures '\n' !in a + "," + b + "," + c
  {
  }

  /** The amount field of a written line parses back to the amount. */
  lemma {:induction false} AmountReadsBack(n: int)
    ensures ParseInt(RemoveChars(IntToString(n), AmountNoise)) == Some(n)
  {
    var amt := IntToString(n);
    IntToStringShape(n);
    DigitsOrFree(amt, '-', '¥');
    DigitsOrFree(amt, '-', ',');
    DigitsOrFree(amt, '-', '円');
    RemoveCharsNoop(amt, AmountNoise);
    ParseIntOfToString(n, []);
    assert amt + [] == amt;
  }

  /** A written line is its own trim and splits into the receipt's three
      fields, and it holds no line break. */
  lemma {:induction false} RenderedFields(r: ReceiptData)
    requires Writable(r)
    ensures Trim(RenderLine(r)) == RenderLine(r) != []
    ensures Fields(RenderLine(r)) == [r.date, r.storeName, IntToString(r.amount)]
    ensures '\n' !in RenderLine(r)
  {
    var amt := IntToString(r.amount);
    MonthDayShape(r.date);
    NumberTextClean(r.date, '/');
    IntToStringShape(r.amount);
    NumberTextClean(amt, '-');
    TrimOfThree(r.date, r.storeName, amt);
    FieldsOfThree(r.date, r.storeName, amt);
    NoBreakInThree(r.date, r.storeName, amt);
  }

  lemma {:induction false} ReadLineOfFields(line: string, a: string, b: string, c: string, n: int)
    requires line != [] && Trim(line) == line && Fields(line) == [a, b, c]
    requires ParseInt(RemoveChars(c, AmountNoise)) == Some(n) && IsMonthDay(a)
    ensures ReadLine(line) == Some(ReceiptData(a, b, n))
  {
  }

  /** A written line reads back as the receipt it was written from. */
  lemma {:induction false} ReadLineRoundTrip(r: ReceiptData)
    requires Writable(r)
    ensures ReadLine(RenderLine(r)) == Some(r)
  {
    RenderedFields(r);
    AmountReadsBack(r.amount);
    ReadLineOfFields(RenderLine(r), r.date, r.storeName, IntToString(r.amount), r.amount);
  }

  /** The written data lines read back as the receipts, in order. */
  lemma {:induction false} ReceiptsOfRendered(rs: seq<ReceiptData>)
    requires forall k :: 0 <= k < |rs| ==> Writable(rs[k])
    ensures ReceiptsOf(RenderLines(rs)) == rs
  {
    var parsed := ReadLines(RenderLines(rs));
    forall k | 0 <= k < |rs| ensures parsed[k] == Some(rs[k]) {
      ReadLineRoundTrip(rs[k]);
    }
    PresentAllSome(rs, parsed);
  }

  /** Lines without line breaks and not blank, joined by line breaks, are
      the non-blank lines of the result. */
  lemma {:induction false} JoinedLines(parts: seq<string>)
    requires |parts| >= 1
    requires forall k :: 0 <= k < |parts| ==> '\n' !in parts[k] && Trim(parts[k]) != []
    ensures NonBlankLines(Join(parts, '\n')) == parts
  {
    SplitJoin(parts, '\n');
    KeepNonBlankAll(parts);
  }

  lemma {:induction false} RenderedLinesJoin(rs: seq<ReceiptData>)
    requires forall k :: 0 <= k < |rs| ==> Writable(rs[k])
    ensures forall k :: 0 <= k < |rs| ==> '\n' !in RenderLines(rs)[k] && Trim(RenderLines(rs)[k]) != []
  {
    forall k | 0 <= k < |rs| ensures '\n' !in RenderLines(rs)[k] && Trim(RenderLines(rs)[k]) != [] {
      RenderedFields(rs[k]);
    }
  }

  lemma {:induction false} HeaderLineShape()
    ensures LooksLikeHeader(HeaderLine)
    ensures '\n' !in HeaderLine && Trim(HeaderLine) != []
  {
    HeaderLineKeyword();
    HeaderLineTrim();
  }

  lemma {:induction false} HeaderLineKeyword()
    ensures LooksLikeHeader(HeaderLine)
  {
    var rest := ",店名,金額";
    assert HeaderLine == [] + "日付" + rest;
    ToLowerAsciiNoop(HeaderLine);
    ContainsMiddle([], "日付", rest);
    ContainsAnyAt(HeaderLine, HeaderKeywords, 0);
  }

  lemma {:induction false} HeaderLineTrim()
    ensures '\n' !in HeaderLine && Trim(HeaderLine) != []
  {
    var h := HeaderLine;
    assert h[0] == '日' && h[|h| - 1] == '額';
    TrimNoop(h);
  }

  /** Lower-casing leaves a string without the letters A to Z alone. */
  lemma {:induction false} ToLowerAsciiNoop(s: string)
    requires forall i :: 0 <= i < |s| ==> !('A' <= s[i] <= 'Z')
    ensures ToLowerAscii(s) == s
  {
  }

  /** The file written for some receipts reads back as exactly those
      receipts, in order: the header line is recognised and skipped, and
      every data line is accepted. */
  lemma {:induction false} ReadReceiptsRoundTrip(rs: seq<ReceiptData>)
    requires forall k :: 0 <= k < |rs| ==> Writable(rs[k])
    ensures ReadReceipts(CsvText(rs)) == rs
  {
    CsvTextDataLines(rs);
    ReceiptsOfRendered(rs);
  }

  /** The written file's data lines are the written receipt lines. */
  lemma {:induction false} CsvTextDataLines(rs: seq<ReceiptData>)
    requires forall k :: 0 <= k < |rs| ==> Writable(rs[k])
    ensures DataLines(CsvText(rs)) == RenderLines(rs)
  {
    HeaderLineShape();
    RenderedLinesJoin(rs);
    DataLinesOfJoin(HeaderLine, RenderLines(rs));
  }

  /** A header line followed by data lines, none of them blank or holding a
      line break: the data lines are what follows the header. */
  lemma {:induction false} DataLinesOfJoin(head: string, lines: seq<string>)
    requires LooksLikeHeader(head) && '\n' !in head && Trim(head) != []
    requires forall k :: 0 <= k < |lines| ==> '\n' !in lines[k] && Trim(lines[k]) != []
    ensures DataLines(Join([head] + lines, '\n')) == lines
  {
    var parts := [head] + lines;
    assert forall k :: 1 <= k < |parts| ==> parts[k] == lines[k - 1];
    JoinedLines(parts);
    assert parts[1..] == lines;
  }

  /** The header heuristic also fires on data: without a header line, a
      first receipt whose line mentions a keyword (a store name with 店 in
      it, say) is taken for the header and dropped. */
  lemma {:induction false} HeaderlessFirstLineDropped(rs: seq<ReceiptData>)
    requires |rs| >= 1 && forall k :: 0 <= k < |rs| ==> Writable(rs[k])
    requires LooksLikeHeader(RenderLine(rs[0]))
    ensures ReadReceipts(Join(RenderLines(rs), '\n')) == rs[1..]
  {
    var parts := RenderLines(rs);
    RenderedLinesJoin(rs);
    JoinedLines(parts);
    assert DataLines(Join(parts, '\n')) == parts[1..] == RenderLines(rs[1..]);
    ReceiptsOfRendered(rs[1..]);
  }

  /** A store name with 店 in it (本店, 〇〇店 and so on) makes its line look
      like a header. */
  lemma {:induction false} ShopNameLooksLikeHeader(r: ReceiptData)
    requires '店' in r.storeName
    ensures LooksLikeHeader(RenderLine(r))
  {
    StoreNameInLine(r.date + ",", r.storeName, ",", IntToString(r.amount), '店');
    ShopMarkLooksLikeHeader(RenderLine(r));
  }

  /** Any line with 店 in it looks like a header. */
  lemma ShopMarkLooksLikeHeader(line: string)
    requires '店' in line
    ensures LooksLikeHeader(line)
  {
    LowerKeepsShopMark(line);
    ContainsChar(ToLowerAscii(line), '店');
    ContainsAnyAt(ToLowerAscii(line), HeaderKeywords, 2);
  }

  /** A character of the second field is a character of the line. */
  lemma StoreNameInLine(a: string, b: string, c: string, d: string, ch: char)
    requires ch in b
    ensures ch in a + b + c + d
  {
    var k :| 0 <= k < |b| && b[k] == ch;
    assert (a + b + c + d)[|a| + k] == ch;
  }

  lemma {:induction false} LowerKeepsShopMark(s: string)
    requires '店' in s
    ensures '店' in ToLowerAscii(s)
  {
    var k :| 0 <= k < |s| && s[k] == '店';
    assert ToLowerAscii(s)[k] == '店';
  }

  // ---------------------------------------------------------------------
  // The report
  // ---------------------------------------------------------------------

  /** `Number(text)` for the one or two digits of an `mm/dd` part. */
  function NumberOf(s: string): nat {
    if AllDigits(s) then DigitsValue(s) else 0
  }

  /** `date.split('/').map(Number)`, as (month, day). */
  function DateKey(date: string): (int, int) {
    var p := Split(date, {'/'});
    (NumberOf(p[0]), if |p| > 1 then NumberOf(p[1]) else 0)
  }

  /** The comparator of the report's sort: by month, then by day. */
  predicate DateLe(a: ReceiptData, b: ReceiptData) {
    var ka, kb := DateKey(a.date), DateKey(b.date);
    ka.0 < kb.0 || (ka.0 == kb.0 && ka.1 <= kb.1)
  }

  lemma {:induction false} DateLeTotalPreorder()
    ensures TotalPreorder(DateLe)
  {
  }

  /** A zero-padded `mm/dd` text is accepted and sorts as (m, d). */
  lemma {:induction false} MonthDayRoundTrip(m: nat, d: nat)
    requires 1 <= m < 100 && 1 <= d < 100
    ensures IsMonthDay(Digits(m, 2) + "/" + Digits(d, 2))
    ensures DateKey(Digits(m, 2) + "/" + Digits(d, 2)) == (m, d)
  {
    var M, D := Digits(m, 2), Digits(d, 2);
    assert Pow10(2) == 100;
    DigitsValueOfDigits(m, 2);
    DigitsValueOfDigits(d, 2);
    forall i | 0 <= i < |M| ensures M[i] !in {'/'} { assert IsDigit(M[i]); }
    forall i | 0 <= i < |D| ensures D[i] !in {'/'} { assert IsDigit(D[i]); }
    SplitAtFirst(M, '/', D, {'/'});
    SplitNoSeparator(D, {'/'});
    assert M + "/" + D == M + ['/'] + D;
  }

  function Amount(r: ReceiptData): int { r.amount }

  datatype Report =
    | NoData(year: int, month: int)
    | Summary(year: int, month: int, billing: int, total: int, count: nat, rows: seq<ReceiptData>)

  /** `generateMonthlyReportFromCsv`, as numbers and rows: the no-data
      message for no receipts; otherwise the total, the amount billed, the
      count and the receipts ordered by month and day, equal dates keeping
      their input order. */
  function MonthlyReport(receipts: seq<ReceiptData>, year: int, month: int): (r: Report)
    ensures r.NoData? <==> receipts == []
    ensures r.Summary? ==>
      r.total == SumOf(receipts, Amount) && r.billing == BillingAmount(r.total) &&
      r.count == |receipts| == |r.rows| &&
      SortedBy(r.rows, DateLe) && multiset(r.rows) == multiset(receipts) &&
      SumOf(r.rows, Amount) == r.total
  {
    if receipts == [] then NoData(year, month)
    else
      var total := SumOf(receipts, Amount);
      var rows := SortBy(receipts, DateLe);
      DateLeTotalPreorder();
      SortByCorrect(receipts, DateLe);
      SumOfPermutation(receipts, rows, Amount);
      Summary(year, month, BillingAmount(total), total, |receipts|, rows)
  }

  /** `receipts.sort(...)`: the array is reordered in place. */
  method SortByDate(a: array<ReceiptData>)
    modifies a
    ensures a[..] == SortBy(old(a[..]), DateLe)
  {
    var sorted := SortBy(a[..], DateLe);
    var i := 0;
    while i < a.Length
      invariant 0 <= i <= a.Length
      invariant forall j :: 0 <= j < i ==> a[j] == sorted[j]
    {
      a[i] := sorted[i];
      i := i + 1;
    }
    assert a[..] == sorted;
  }

  /** `generateMonthlyReportFromCsv`, sorting the caller's array as the
      source does. */
  method GenerateMonthlyReport(receipts: array<ReceiptData>, year: int, month: int) returns (report: Report)
    modifies receipts
    ensures report == MonthlyReport(old(receipts[..]), year, month)
    ensures report.Summary? ==> receipts[..] == report.rows
    ensures report.NoData? ==> receipts[..] == old(receipts[..])
  {
    if receipts.Length == 0 {
      return NoData(year, month);
    }
    var total := SumOf(receipts[..], Amount);
    var billing := BillingAmount(total);
    var count := receipts.Length;
    SortByDate(receipts);
    report := Summary(year, month, billing, total, count, receipts[..]);
  }
}
