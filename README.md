# kakei — a verified model of the receipt tracker's core

kakei keeps a household's receipts in SQLite. Each receipt comes from a photographed slip or is entered by hand, and receipts are keyed by the hash of their image. The system has four kinds of behaviour:

- It imports a receipt CSV in one transaction that rolls back on any failure.
- It answers monthly questions: the month total, the receipt details, and the months that hold data.
- It mails a monthly report. The report states the total, a billing amount of half the total rounded down to ten yen, and a table of the receipts.
- It lists and downloads receipt photos from Google Drive, by day or by month.

This Dafny project models that core and proves what the code promises. It covers:

- the receipt store of the backend package, `packages/backend/src/db.ts`, as class `ReceiptStore.ReceiptTable`;
- the older two-table store, `src/db.ts`, as class `ItemStore.ItemTables`;
- the CSV report mailer, `packages/backend/src/csv-mail-sender.ts`, as module `CsvReport`;
- the two monthly mail scripts: `MonthlyMail` for `packages/backend/src/monthly-mail.ts` and `LegacyMonthlyMail` for `src/monthly-mail.ts`;
- the console month summary, `src/monthly-total.ts`, as module `MonthTotals`;
- the pure parts of the Drive download service, `packages/backend/src/download-service.ts`, as module `DriveListing`.

Supporting modules model the JavaScript and SQLite semantics that the code relies on:

- `JsText`: JavaScript string methods (`trim`, `split`, `parseInt`, `padStart`, `toLowerCase`, `replace`) and SQLite's BINARY text comparison.
- `Calendar`: calendar dates and their fixed-width texts.
- `Billing`: the billing rule, month names and the command-line year/month, which three files duplicate.
- `Grouping`: the group-by-image-hash that all three report scripts do.
- `Sequences`: sums, filters and the stable sort of `Array.prototype.sort`.
- `Storage`: the shared parts of the two CSV imports.
- `Wrappers`: Option and Result.

The model makes these choices:

- Database state is a sequence of rows plus the next `AUTOINCREMENT` id.
- The table invariant holds rows in id order, with ids below the next id and distinct image hashes. The invariant is `UNIQUE(image_hash)`.
- Each SQL statement becomes a function on the rows.
- An environmental failure (a failing lookup `SELECT`, `BEGIN TRANSACTION`, `INSERT`, `finalize` or `COMMIT`) is an explicit parameter, so the rejection and rollback paths are modelled.
- A `receipt_date` that reads as a number is stored by SQLite as a number, and so it falls outside every month's window.
- The clock, the Drive API answers and download failures are parameters.
- Where the prose description of the system and the code disagree, the model follows the code.

## Model

| member | source | states |
|---|---|---|
| Billing.RoundDownToTen | packages/backend/src/csv-mail-sender.ts:159-161 | the result is the multiple of ten at or just below the amount (within ten of it) |
| Billing.BillingAmount | packages/backend/src/csv-mail-sender.ts:204-205 | the billing is a multiple of ten and twice it lies within twenty yen below the total: half the total rounded down to ten yen |
| Billing.BillingAmountUnique | packages/backend/src/monthly-mail.ts:189-190 | that bracket characterises the billing: any multiple of ten in it is the billing amount |
| Billing.BillingAmountMonotone | packages/backend/src/monthly-mail.ts:189-190 | a larger month total never bills less |
| Billing.BillingAmountExamples | src/monthly-mail.ts:195-196 | 1050 yen bills 520, 999 bills 490, 0 bills 0 |
| Billing.MonthName | packages/backend/src/csv-mail-sender.ts:180-186 | a name exists exactly for months 1 to 12, and it is the month number followed by 月 |
| Billing.CheckYearMonth | packages/backend/src/monthly-mail.ts:107-112 | accepted exactly when both numbers parsed and the month lies in 1..12, and then it is that year and month |
| Billing.YearMonthFromArgs | packages/backend/src/monthly-mail.ts:80-134 | no argument gives the current month; one argument that does not split into two parts on `-` or `/` is a format error; every other error is the bad-year-or-month error; an accepted month lies in 1..12 |
| Billing.YearMonthOneArgRoundTrip | packages/backend/src/monthly-mail.ts:93-113 | `YYYY-MM` and `YYYY/MM` with a zero-padded month read back as that year and month |
| Billing.YearMonthTwoArgs | src/monthly-total.ts:39-48 | two numeric arguments give that year and month when the month is in 1..12, an error otherwise, whatever follows them |
| JsText.TrimStart | packages/backend/src/csv-mail-sender.ts:106 | removes exactly the leading white space: what is dropped is all space and the result starts with a non-space |
| JsText.TrimEnd | packages/backend/src/csv-mail-sender.ts:106 | removes exactly the trailing white space |
| JsText.Trim | packages/backend/src/db.ts:110 | the trimmed text neither starts nor ends with white space |
| JsText.TrimIdempotent | packages/backend/src/db.ts:129 | trimming twice is trimming once |
| JsText.TrimEmptyIffBlank | packages/backend/src/csv-mail-sender.ts:90 | a line trims to empty exactly when it is all white space |
| JsText.Split | packages/backend/src/csv-mail-sender.ts:90 | `split` gives at least one piece and no piece holds a separator |
| JsText.JoinSplit | packages/backend/src/db.ts:110 | joining the pieces of a split with the separator gives the text back |
| JsText.SplitJoin | packages/backend/src/db.ts:132 | splitting texts joined by a separator they do not contain gives them back |
| JsText.SplitCount | packages/backend/src/monthly-mail.ts:95-97 | the number of pieces is one more than the number of separators |
| JsText.DigitPrefix | packages/backend/src/db.ts:137 | the longest run of decimal digits at the start of the text |
| JsText.NatToString | packages/backend/src/db.ts:265 | `${n}` is a digit text without leading zero whose value is n |
| JsText.IntToString | packages/backend/src/db.ts:265 | `${n}` of an integer is never empty |
| JsText.ParseIntOfToString | packages/backend/src/db.ts:137 | `parseInt` reads back the text of any integer, whatever follows it |
| JsText.ParseIntSkipsSpace | packages/backend/src/db.ts:137 | `parseInt` ignores leading white space |
| JsText.ParseIntNoDigit | src/db.ts:100-105 | a text with no digit after its sign gives NaN |
| JsText.PadStart2 | packages/backend/src/db.ts:265 | `padStart(2, '0')` leaves a text of two or more characters alone and otherwise left-fills it with zeros to length two |
| JsText.ContainsMiddle | packages/backend/src/download-service.ts:159-165 | a text contains every middle piece of a concatenation |
| JsText.ToLowerAscii | packages/backend/src/csv-mail-sender.ts:97 | lower-casing keeps the length and maps exactly A–Z to a–z |
| JsText.ReplaceChar | packages/backend/src/monthly-mail.ts:231 | `replace(/-/g, '/')` replaces every `-` and nothing else |
| JsText.RemoveChars | packages/backend/src/csv-mail-sender.ts:122 | `replace(/[¥,円]/g, '')` leaves none of the removed characters, and a character of the text stays exactly when it is not one of them |
| JsText.RemoveCharsPieces | packages/backend/src/csv-mail-sender.ts:122 | the removal goes character by character: from a concatenation it removes part by part, and a single character vanishes exactly when it is one of the removed ones, so the rest stay in order |
| JsText.RemoveCharsNoop | packages/backend/src/csv-mail-sender.ts:122 | a text holding none of the removed characters is unchanged |
| JsText.StripQuotes | packages/backend/src/csv-mail-sender.ts:110 | one quote is removed from each end; an unquoted field is unchanged; a quoted field loses exactly its two quotes |
| JsText.LexLessIrreflexive | packages/backend/src/db.ts:272-276 | no text is smaller than itself under SQLite's BINARY comparison |
| JsText.LexLessTransitive | packages/backend/src/db.ts:272-276 | the text comparison is transitive |
| JsText.LexLessTotal | packages/backend/src/db.ts:272-276 | any two different texts are ordered one way or the other |
| JsText.LexLessCommonPrefix | packages/backend/src/db.ts:272-276 | a shared prefix does not change the comparison |
| JsText.LexLessDifferentHeads | packages/backend/src/db.ts:272-276 | between texts whose equal-length heads differ, the heads decide |
| Calendar.DaysInMonth | packages/backend/src/download-service.ts:534 | a month has 28 to 31 days and February has 29 exactly in a leap year |
| Calendar.JsLastDayOfMonth | packages/backend/src/download-service.ts:534 | `new Date(year, month, 0).getDate()` is a day count from 28 to 31 |
| Calendar.LastDayIsMonthLength | packages/backend/src/download-service.ts:534 | for months 1..12 of a year past 99 the Date trick gives the Gregorian month length, leap years included |
| Calendar.Digits | packages/backend/src/db.ts:265 | a fixed-width text of exactly w decimal digits |
| Calendar.DigitsOrder | packages/backend/src/db.ts:272-276 | zero-padded texts of equal width compare as the numbers do, and are equal exactly when the numbers are |
| Calendar.NatToStringFixedWidth | packages/backend/src/db.ts:265 | `${n}` of a number with exactly w digits is its w-digit text |
| Calendar.PadStart2Digits | packages/backend/src/db.ts:265 | `m.toString().padStart(2, '0')` is the two-digit text of m |
| Calendar.IsoDate | packages/backend/src/db.ts:265 | a `YYYY-MM-DD` text is ten characters long |
| Calendar.IsoDateOrder | packages/backend/src/db.ts:272-276 | comparing two `YYYY-MM-DD` texts as SQLite does is comparing the dates |
| Calendar.MonthDayOrder | packages/backend/src/db.ts:272-276 | comparing `-MM-DD` tails is comparing month, then day |
| Calendar.NextMonth | packages/backend/src/db.ts:268-269 | the month after is a valid month, later than the given one, and no month lies strictly between them |
| Calendar.DigitsValueOfDigits | packages/backend/src/db.ts:415-416 | reading the digits written for a number gives the number |
| Calendar.DigitsOfDigitsValue | packages/backend/src/db.ts:415-416 | writing the value of a digit text at its width gives the text |
| Calendar.IsoDateRoundTrip | packages/backend/src/db.ts:403-404 | reading the fields of a `YYYY-MM-DD` text and writing them again gives the same text |
| Calendar.IsoDateFields | packages/backend/src/db.ts:403-404 | the fields read from a written date are the fields it was written from |
| Calendar.IsoDay3 | packages/backend/src/monthly-mail.ts:230 | the day a real `YYYY-MM-DD` text names exists in its month |
| Calendar.CarryDay | packages/backend/src/monthly-mail.ts:230 | a day from 1 to 31 is that day of the month when the month has it, and otherwise the overflow into the next month; the result is always a real day |
| Calendar.TimestampDay | src/monthly-total.ts:100 | `new Date(created_at)` is valid exactly for a `YYYY-MM-DD HH:MM:SS` text of a real day and clock time |
| Calendar.ShownDay | src/monthly-total.ts:101 | the getters and `padStart` show a day of a four-digit year as its `YYYY/MM/DD` |
| Calendar.ShownTimestamp | src/monthly-total.ts:100-101 | a `CURRENT_TIMESTAMP` text is shown as the `YYYY/MM/DD` of the day it was written on |
| Sequences.SumOfConcat | src/monthly-total.ts:108-112 | the sum over two sequences put together is the sum of the two sums |
| Sequences.SumOfPermutation | packages/backend/src/csv-mail-sender.ts:204 | reordering the receipts does not change their total |
| Sequences.FilterKeepsOrder | packages/backend/src/db.ts:449-481 | rows a delete leaves keep their relative order |
| Sequences.SortByCorrect | packages/backend/src/csv-mail-sender.ts:216-224 | the sort's result is sorted under any total preorder |
| Sequences.SortByPermutation | packages/backend/src/csv-mail-sender.ts:216-224 | the sort's result is a permutation of its input |
| Sequences.SortByAgree | packages/backend/src/monthly-mail.ts:244 | two comparators that agree on every pair sort the same |
| Sequences.SortBySortedNoop | packages/backend/src/monthly-mail.ts:244 | sorting an already sorted sequence leaves it as it is |
| Sequences.SortByStable | packages/backend/src/csv-mail-sender.ts:216-224 | the sort is stable: the elements that compare equal to any given one come out in the order they went in |
| Sequences.PermutationKeepsDistinct | packages/backend/src/db.ts:295-339 | a permutation of lines with distinct hashes still has distinct hashes |
| Storage.CsvLines | packages/backend/src/db.ts:110 | the lines of a trimmed CSV are never an empty list |
| Storage.CsvLinesOfTwo | packages/backend/src/db.ts:110 | a header and one data line are read back as those two lines |
| Storage.PresentValues | packages/backend/src/db.ts:128-151 | every row the batch inserts comes from a line that parsed |
| Storage.PresentAllSome | packages/backend/src/db.ts:128-151 | when every line parses, the batch is those lines' rows in order |
| Grouping.Keys | packages/backend/src/monthly-mail.ts:197-204 | the image hashes in first-seen order: each line's hash occurs, and none twice |
| Grouping.KeysOccur | packages/backend/src/monthly-mail.ts:197-204 | every key is the hash of some line |
| Grouping.Select | packages/backend/src/monthly-mail.ts:197-204 | the lines whose hash is in a set, and only those |
| Grouping.Groups | packages/backend/src/monthly-mail.ts:197-204 | there is one group per hash, in key order |
| Grouping.GroupRows | packages/backend/src/monthly-mail.ts:197-204 | the `reduce` builds exactly the keys in first-seen order, and under each key the lines with that hash in input order |
| Grouping.GroupsPermutation | packages/backend/src/monthly-mail.ts:197-204 | the groups laid end to end are a permutation of the lines |
| Grouping.GroupNonEmpty | src/monthly-total.ts:98-99 | a key's group is non-empty and headed by a line with that hash |
| Grouping.KeysHaveGroups | src/monthly-total.ts:98-99 | every key has a non-empty group, so `rows[0]` exists |
| Grouping.DistinctCardinality | packages/backend/src/monthly-mail.ts:207 | a list without repeats is as long as its set of elements |
| Grouping.GroupCount | packages/backend/src/monthly-mail.ts:207 | the receipt count is the number of distinct hashes |
| Grouping.GroupsSum | src/monthly-total.ts:108-119 | the groups' sums add up to the sum of all lines |
| Grouping.GroupsOfDistinct | src/monthly-total.ts:97-116 | with distinct hashes the keys are the lines' hashes in order and the groups laid end to end are the lines |
| Grouping.SingletonGroups | src/monthly-total.ts:97-116 | with distinct hashes every group is a single line |
| Grouping.GroupSizesAddUp | packages/backend/src/monthly-mail.ts:197-207 | the group sizes add up to the number of lines |
| Grouping.FlattenContiguous | src/monthly-mail.ts:221-237 | in the grouped order, the lines of one hash come out next to each other |
| CsvReport.KeepNonBlank | packages/backend/src/csv-mail-sender.ts:90 | no kept line is blank, and a line is kept exactly when it is not blank |
| CsvReport.KeepNonBlankPieces | packages/backend/src/csv-mail-sender.ts:90 | the filter goes line by line: from a concatenation it keeps part by part, and a single line is kept exactly when it is not blank, so the kept lines stay in order |
| CsvReport.KeepNonBlankAll | packages/backend/src/csv-mail-sender.ts:90 | lines that are all non-blank are all kept, in order |
| CsvReport.StartIndex | packages/backend/src/csv-mail-sender.ts:94-103 | reading starts at line 1 exactly when the first line mentions a header word (date, store or amount, in Japanese or English, any case) |
| CsvReport.ReadLine | packages/backend/src/csv-mail-sender.ts:105-143 | a line yields a receipt only if it has at least three fields and its date is `MM/DD` |
| CsvReport.ReadLines | packages/backend/src/csv-mail-sender.ts:105-143 | every line is judged on its own |
| CsvReport.ReadReceiptsValid | packages/backend/src/csv-mail-sender.ts:87-152 | every receipt read has an `MM/DD` date, and there are at most as many as non-blank lines |
| CsvReport.ReadReceiptCsvFile | packages/backend/src/csv-mail-sender.ts:87-152 | the loop reads exactly the receipts of the CSV text |
| CsvReport.ReadDataLines | packages/backend/src/csv-mail-sender.ts:105-143 | the loop from the start index reads exactly the receipts of the remaining lines |
| CsvReport.RenderLines | packages/backend/src/csv-mail-sender.ts:105-143 | the CSV text of receipts has one line per receipt |
| CsvReport.AmountReadsBack | packages/backend/src/csv-mail-sender.ts:122 | an amount written as digits reads back after the yen marks are stripped |
| CsvReport.RenderedFields | packages/backend/src/csv-mail-sender.ts:110 | a written receipt line is trimmed, has no line break, and splits into its date, store and amount |
| CsvReport.ReadLineRoundTrip | packages/backend/src/csv-mail-sender.ts:105-143 | reading a written receipt line gives the receipt back |
| CsvReport.ReceiptsOfRendered | packages/backend/src/csv-mail-sender.ts:105-143 | reading written data lines gives the receipts back |
| CsvReport.JoinedLines | packages/backend/src/csv-mail-sender.ts:90 | non-blank lines joined by line breaks split back into the same lines |
| CsvReport.ReadReceiptsRoundTrip | packages/backend/src/csv-mail-sender.ts:87-152 | reading a CSV written as a header plus one line per receipt gives the receipts back |
| CsvReport.CsvTextDataLines | packages/backend/src/csv-mail-sender.ts:90-103 | the header of a written CSV is skipped and the data lines are the receipt lines |
| CsvReport.DataLinesOfJoin | packages/backend/src/csv-mail-sender.ts:94-103 | after a header line, every following non-blank line is a data line |
| CsvReport.HeaderlessFirstLineDropped | packages/backend/src/csv-mail-sender.ts:94-103 | in a file without a header whose first line mentions a header word, that first receipt is lost and the rest are read |
| CsvReport.ShopNameLooksLikeHeader | packages/backend/src/csv-mail-sender.ts:97-100 | a receipt whose store name holds 店 makes its line look like a header |
| CsvReport.ShopMarkLooksLikeHeader | packages/backend/src/csv-mail-sender.ts:97-100 | any line holding 店 passes the header test |
| CsvReport.DateLeTotalPreorder | packages/backend/src/csv-mail-sender.ts:216-224 | the month-then-day comparator is a total preorder, so the sort is well defined |
| CsvReport.MonthDayRoundTrip | packages/backend/src/csv-mail-sender.ts:217-218 | `MM/DD` texts are valid dates and read back as their month and day |
| CsvReport.MonthlyReport | packages/backend/src/csv-mail-sender.ts:195-256 | no receipts gives the no-data message; otherwise the total is the sum of the amounts, the billing is half of it rounded down to ten yen, the count is the number of receipts, and the rows are the receipts sorted by date (a permutation with the same sum) |
| CsvReport.SortByDate | packages/backend/src/csv-mail-sender.ts:216-224 | the in-place sort leaves the array as the stable date sort of its old contents |
| CsvReport.GenerateMonthlyReport | packages/backend/src/csv-mail-sender.ts:195-256 | the report is the monthly report of the receipts; the array is sorted in place when there is data and left alone otherwise |
| ReceiptStore.ParsedLines | packages/backend/src/db.ts:128-151 | every data line is judged on its own |
| ReceiptStore.NewRows | packages/backend/src/db.ts:128-150 | one new row per parsed line |
| ReceiptStore.BatchInsertError | packages/backend/src/db.ts:144-150 | a batch inserts without error only when it is empty, or is one row whose insert does not fail; a second row always breaks `UNIQUE(image_hash)` |
| ReceiptStore.SaveOutcome | packages/backend/src/db.ts:84-174 | a failing lookup is a storage error; otherwise a known image hash gives false; then a failing BEGIN is a storage error and a bad header is rejected; it gives true exactly when lookup and BEGIN succeed, the hash is new, the header is good, at most one row is inserted without failure and the commit succeeds |
| ReceiptStore.TwoDataLinesNeverCommit | packages/backend/src/db.ts:139-151 | a CSV with two or more valid data lines always rolls back, with a unique or storage error |
| ReceiptStore.HeaderOkIff | packages/backend/src/db.ts:113-119 | the header is accepted exactly when the first line is `store_name,total_amount`, alone or followed by a comma and more fields |
| ReceiptStore.ExactHeaderFields | packages/backend/src/db.ts:113 | the bare header splits into its two field names |
| ReceiptStore.LongerHeaderFields | packages/backend/src/db.ts:113 | a longer header splits into the two field names followed by the rest |
| ReceiptStore.HeaderFieldsShape | packages/backend/src/db.ts:114-119 | an accepted header line is the bare header or starts with it and a comma |
| ReceiptStore.CsvHeaderAccepted | packages/backend/src/db.ts:113-119 | the three-column header a client writes is accepted |
| ReceiptStore.ReceiptLineReadsBack | packages/backend/src/db.ts:129-142 | a `store,amount,date` line parses back into that store, amount and date |
| ReceiptStore.OneReceiptCsvBatch | packages/backend/src/db.ts:110-151 | a header plus one receipt line is accepted and gives a batch of exactly that receipt |
| ReceiptStore.MonthWindow | packages/backend/src/db.ts:265-270 | the window runs from the first of the month to the first of the next month |
| ReceiptStore.DateTextNotNumeric | packages/backend/src/db.ts:69 | a date text that starts with four digits and a dash is not a numeric literal, so the `DATE` column keeps it as TEXT |
| ReceiptStore.DigitsAreNumeric | packages/backend/src/db.ts:69 | a text of digits alone is a numeric literal, stored as a number |
| ReceiptStore.CompactDateIsNumeric | packages/backend/src/db.ts:69 | `20251215` is stored as a number, not as TEXT |
| ReceiptStore.SignedDigitsDashNotNumeric | packages/backend/src/db.ts:265-270 | a minus sign, digits and a dash are not a numeric literal |
| ReceiptStore.MonthStartNotNumeric | packages/backend/src/db.ts:265-270 | a month's first-day text is never a numeric literal, so the window's bounds compare as TEXT |
| ReceiptStore.StoredDay | packages/backend/src/db.ts:403-404 | a day read by `strftime` has a month in 1..12, and a real `YYYY-MM-DD` text reads as its own day |
| ReceiptStore.StoredDayOfTimestamp | packages/backend/src/db.ts:403-404 | a `YYYY-MM-DD HH:MM:SS` text reads as the day of its date |
| ReceiptStore.MonthlyTotal | packages/backend/src/db.ts:253-286 | a month outside 1..12 is rejected as invalid; a month with no rows totals 0 |
| ReceiptStore.MonthStartIsIsoDate | packages/backend/src/db.ts:265 | the start of a month of a four-digit year is its `YYYY-MM-01` |
| ReceiptStore.FourDigitYear | packages/backend/src/db.ts:265 | `${year}` of a four-digit year is its four-digit text |
| ReceiptStore.DateInMonthIff | packages/backend/src/db.ts:272-276 | a date lies between the month's first and the next month's first exactly when it is in that month |
| ReceiptStore.MonthWindowSelectsMonth | packages/backend/src/db.ts:272-276 | the text comparison `>= start AND < end` selects exactly the dates of the month |
| ReceiptStore.RowInMonthIff | packages/backend/src/db.ts:272-276 | a row dated `YYYY-MM-DD` is in the month's window exactly when its date is in that month |
| ReceiptStore.NumericDateInNoMonth | packages/backend/src/db.ts:272-276 | a row whose date is stored as a number is neither in the month's rows nor in its details |
| ReceiptStore.Views | packages/backend/src/db.ts:326-335 | one detail entry per row |
| ReceiptStore.DetailsLeTotalPreorder | packages/backend/src/db.ts:318 | `ORDER BY receipt_date, id` is a total preorder |
| ReceiptStore.SumOfViews | packages/backend/src/db.ts:295-339 | the detail entries sum to the rows' total |
| ReceiptStore.DetailsMatchMonthlyTotal | packages/backend/src/db.ts:295-339 | the month's details are sorted, are a permutation of the month's rows, and sum to the month total |
| ReceiptStore.MonthOf | packages/backend/src/db.ts:403-404 | the month read from a date is in 1..12, and a real `YYYY-MM-DD` date gives its own year and month |
| ReceiptStore.InsertMonth | packages/backend/src/db.ts:406-407 | placing a month keeps the list newest first and adds exactly that month |
| ReceiptStore.AvailableMonths | packages/backend/src/db.ts:397-422 | newest first; every row's month is listed, and only months of rows |
| ReceiptStore.AvailableMonthsDistinct | packages/backend/src/db.ts:406 | `GROUP BY` lists no month twice, and only the last entry can be the month of undated rows |
| ReceiptStore.FindByHash | packages/backend/src/db.ts:229-244 | no row exactly when no row has the hash; otherwise a stored row with that hash |
| ReceiptStore.ReceiptTotal | packages/backend/src/db.ts:205-221 | 0 for an unknown hash, otherwise the amount of a row with that hash |
| ReceiptStore.ReceiptDetails | packages/backend/src/db.ts:229-244 | not found exactly when no row has the hash; otherwise a stored row with that hash |
| ReceiptStore.FindAppended | packages/backend/src/db.ts:229-244 | a row appended with a new hash is found by that hash |
| ReceiptStore.ManualHashDistinctTimes | packages/backend/src/db.ts:376 | manual entries made at different times get different hashes |
| ReceiptStore.Patched | packages/backend/src/db.ts:505-523 | id, hash and creation time never change, and a field not supplied keeps its value |
| ReceiptStore.PatchedIdempotent | packages/backend/src/db.ts:505-532 | applying the same update twice is applying it once |
| ReceiptStore.UpdateWhere | packages/backend/src/db.ts:532-534 | the row with the id is patched and every other row is unchanged |
| ReceiptStore.SetUseImageWhere | packages/backend/src/db.ts:11-29 | the rows with the hash get the flag and every other row is unchanged |
| ReceiptStore.DeleteOneCount | packages/backend/src/db.ts:430-441 | deleting by id removes one row when the id exists and none otherwise |
| ReceiptStore.InvariantTail | packages/backend/src/db.ts:60-75 | the table invariant holds for the rows after the first, which does not reappear |
| ReceiptStore.InvariantAfterUpdate | packages/backend/src/db.ts:490-542 | an update keeps ids, order and distinct hashes |
| ReceiptStore.InvariantAfterSetUseImage | packages/backend/src/db.ts:11-29 | setting the image flag keeps the table invariant |
| ReceiptStore.InvariantAfterFilter | packages/backend/src/db.ts:449-481 | deleting any set of rows keeps the table invariant |
| ReceiptStore.InvariantAfterAppend | packages/backend/src/db.ts:60-75 | appending a row with a new hash and the next id keeps the table invariant |
| ReceiptStore.NewRowsFields | packages/backend/src/db.ts:132-144 | the k-th new row has the next id plus k, the import's hash and the line's fields |
| ReceiptStore.AppendedRows | packages/backend/src/db.ts:139-167 | an empty batch leaves the rows as they were; a non-empty one makes the hash known |
| ReceiptStore.BatchErrorPersists | packages/backend/src/db.ts:139-151 | once an insert of the batch has failed, the batch's error stays that error |
| ReceiptStore.BatchInsertErrorStable | packages/backend/src/db.ts:139-151 | a failure among the first n inserts is the failure of any longer batch |
| ReceiptStore.ReceiptTable.constructor | packages/backend/src/db.ts:60-75 | a new table is empty, its next id is 1, and the invariant holds |
| ReceiptStore.ReceiptTable.InsertRow | packages/backend/src/db.ts:144-150 | a known hash is a unique violation, a failing statement a storage error, and both leave the table unchanged; otherwise the row is appended with the next id |
| ReceiptStore.ReceiptTable.InsertLine | packages/backend/src/db.ts:128-151 | one loop step: the batch grows by the line's row when it parsed, and the error is the batch's error so far |
| ReceiptStore.ReceiptTable.InsertBatch | packages/backend/src/db.ts:128-151 | the loop's error is the batch's error, and without one the rows are the old rows followed by the new rows |
| ReceiptStore.ReceiptTable.ParseAndSaveCsv | packages/backend/src/db.ts:84-174 | the result is the save outcome; a commit appends exactly the batch's rows, and every other outcome (a failing lookup or BEGIN included) leaves the table as it was |
| ReceiptStore.ReceiptTable.InsertManualReceipt | packages/backend/src/db.ts:367-390 | a new receipt with a time-stamped hash is appended, or an error leaves the table unchanged |
| ReceiptStore.ReceiptTable.UpdateReceipt | packages/backend/src/db.ts:490-542 | with no field supplied it gives false and changes nothing; otherwise the row with that id is patched and the result says whether it exists |
| ReceiptStore.ReceiptTable.UpdateUseImage | packages/backend/src/db.ts:11-29 | every row with the hash gets the flag as 1 or 0, and nothing else changes |
| ReceiptStore.ReceiptTable.DeleteReceipt | packages/backend/src/db.ts:430-441 | the row with the id is removed and the result says whether it existed |
| ReceiptStore.ReceiptTable.DeleteMultipleReceipts | packages/backend/src/db.ts:449-481 | an empty list deletes nothing and gives 0; a failure changes nothing; otherwise the listed rows go and the count is how many there were |
| ReceiptStore.ReceiptTable.MonthlyReceiptDetails | packages/backend/src/db.ts:295-339 | a month outside 1..12 is rejected; otherwise the details are the month's rows in date-then-id order and the total is their sum |
| ReceiptStore.DetailsStep | packages/backend/src/db.ts:326-330 | one step of the detail loop appends the row's entry and adds its amount |
| ReceiptStore.SetList | packages/backend/src/db.ts:505-527 | the SET list is empty exactly when no field is supplied |
| ReceiptStore.PatchAsAssignments | packages/backend/src/db.ts:505-532 | applying the SET list's assignments in order patches the row |
| ReceiptStore.AssignWhere | packages/backend/src/db.ts:532-534 | the UPDATE keeps the number of rows |
| ReceiptStore.AssignWhereIsUpdate | packages/backend/src/db.ts:505-532 | the UPDATE built from the SET list is the patch of the row with that id |
| ReceiptStore.AssignAllConcat | packages/backend/src/db.ts:505-523 | assignments listed one after another apply one after another |
| ItemStore.ParsedItems | src/db.ts:95-114 | every data line is judged on its own |
| ItemStore.NewItems | src/db.ts:107-113 | the k-th new item has the next id plus k, the receipt's hash and the line's name and price |
| ItemStore.SaveOutcome | src/db.ts:52-138 | a failing lookup is a storage error; otherwise a known receipt gives false; then a failing BEGIN is a storage error, and a bad header is rejected unless the receipt insert failed first; true exactly when lookup and BEGIN succeed, the hash is new, the header is good, no insert fails and the commit succeeds |
| ItemStore.ReceiptTotal | src/db.ts:170-186 | a receipt without items totals 0 |
| ItemStore.FindReceipt | src/db.ts:194-219 | no receipt exactly when the hash is unknown; otherwise a stored receipt with that hash |
| ItemStore.ReceiptDetails | src/db.ts:194-219 | not found exactly when the hash is unknown; otherwise the receipt and only its items, in id order when the table is |
| ItemStore.ItemsOfNone | src/db.ts:21-43 | no item belongs to a receipt that does not exist |
| ItemStore.ItemsOfAllSame | src/db.ts:107-113 | every imported item belongs to the imported receipt |
| ItemStore.ItemsOfAll | src/db.ts:194-219 | items that all carry the hash are all selected |
| ItemStore.ItemsOfConcat | src/db.ts:194-219 | selecting items distributes over concatenation |
| ItemStore.SumOfNewItems | src/db.ts:170-186 | the imported items sum to the prices on the lines |
| ItemStore.DetailsAfterImport | src/db.ts:52-219 | after an import the details of the new receipt are exactly the imported items, and its total is the sum of their prices |
| ItemStore.FindAppendedEntry | src/db.ts:194-219 | a receipt appended with a new hash is found by that hash |
| ItemStore.ImportIsOnce | src/db.ts:56-65 | importing an image whose receipt is stored gives false, or the lookup's storage error when the lookup fails |
| ItemStore.ItemTables.constructor | src/db.ts:21-43 | both tables start empty with next ids 1 |
| ItemStore.ItemTables.InsertReceipt | src/db.ts:74-78 | a successful insert appends the receipt with the next id; a failure changes nothing |
| ItemStore.ItemTables.InsertItem | src/db.ts:107-113 | a successful insert appends the item with the next id; a failure changes nothing |
| ItemStore.ItemTables.InsertNextItem | src/db.ts:107-113 | one loop step extends the items by the next line's item unless that insert fails |
| ItemStore.ItemTables.InsertItems | src/db.ts:95-114 | fails exactly when one of the batch's inserts fails; otherwise the items are the old ones followed by the batch |
| ItemStore.ItemTables.ImportItems | src/db.ts:81-130 | a bad header, a failing insert or commit gives its error; otherwise the items grow by the batch and the next item id moves past it |
| ItemStore.ItemTables.ParseAndSaveCsv | src/db.ts:52-138 | the result is the save outcome; a commit appends the receipt and its items and advances both next ids past them; every other outcome (a failing lookup or BEGIN included) leaves both tables and both next ids as they were |
| ItemStore.ItemInsertFailsStable | src/db.ts:107-113 | a failure among the first n inserts is a failure of any longer batch |
| ItemStore.NewItemsSnoc | src/db.ts:95-114 | a line more in the batch is one item more at the end |
| ItemStore.ReceiptsAppend | src/db.ts:21-43 | appending a receipt with a new hash and the next id keeps the receipts' invariant |
| ItemStore.ItemsAppend | src/db.ts:21-43 | appending an item with the next id keeps the items' invariant |
| ItemStore.HasReceiptsAfterAppend | src/db.ts:21-43 | every item still has its receipt after a receipt is added |
| MonthlyMail.ReceiptTime | packages/backend/src/monthly-mail.ts:230 | a missing date is the epoch; a real `YYYY-MM-DD` date is UTC midnight of that day; a readable text starts with a `YYYY-MM-DD` of month 1..12 and day 1..31, and reads as a moment of a real day |
| MonthlyMail.ReceiptTimeCarries | packages/backend/src/monthly-mail.ts:230 | `2025-02-30` reads as 2 March 2025 |
| MonthlyMail.UtcDateTimeOnItsDay | packages/backend/src/monthly-mail.ts:230 | a `YYYY-MM-DDTHH:mm[:ss[.sss]]Z` text reads as that moment of its day, never before the day's midnight |
| MonthlyMail.FormattedDate | packages/backend/src/monthly-mail.ts:231 | empty for a missing date; otherwise the same length with no `-` left |
| MonthlyMail.FormattedIsoDate | packages/backend/src/monthly-mail.ts:231 | a `YYYY-MM-DD` date is shown as `YYYY/MM/DD` |
| MonthlyMail.GroupEntries | packages/backend/src/monthly-mail.ts:223-241 | one entry per line of a group, each dated by the group's first line |
| MonthlyMail.GenerateMonthlyReport | packages/backend/src/monthly-mail.ts:174-249 | the loops build exactly the monthly report of the details |
| MonthlyMail.CollectEntries | packages/backend/src/monthly-mail.ts:223-241 | the loop over the hashes collects the groups' entries in key order |
| MonthlyMail.PushGroupEntries | packages/backend/src/monthly-mail.ts:233-240 | the inner loop appends exactly the group's entries |
| MonthlyMail.EntriesOfLength | packages/backend/src/monthly-mail.ts:223-241 | there are as many entries as grouped lines |
| MonthlyMail.ReportSummary | packages/backend/src/monthly-mail.ts:174-249 | no details give the no-data mail; otherwise the billing is half the total rounded down, the count is the number of distinct hashes, and every line gets one entry |
| MonthlyMail.EntryTimesFromRows | packages/backend/src/monthly-mail.ts:230 | every entry's date is the date of some line of the month |
| MonthlyMail.EntryLeTotalPreorder | packages/backend/src/monthly-mail.ts:244 | the comparison of `getTime()` values, an unreadable date put first, is a total preorder |
| MonthlyMail.ReportSortedByDate | packages/backend/src/monthly-mail.ts:244 | when every date is readable, the entries come out in `getTime()` order (day, then time of day) and are a permutation of the grouped entries |
| MonthlyMail.DistinctHashKeys | packages/backend/src/db.ts:66 | lines with distinct hashes have distinct keys |
| MonthlyMail.StoredDetailsHaveDistinctHashes | packages/backend/src/db.ts:66 | the details of a stored month never repeat an image hash |
| MonthlyMail.OwnEntries | packages/backend/src/monthly-mail.ts:223-241 | each line dated by itself |
| MonthlyMail.EntriesOfSingletons | packages/backend/src/monthly-mail.ts:223-241 | when every group is one line, the entries are the lines' own entries |
| MonthlyMail.ReportOfDistinctHashes | packages/backend/src/monthly-mail.ts:207 | with distinct hashes the count is the number of lines and the entries are the lines' own entries, reordered |
| MonthlyMail.MailOfStoredMonth | packages/backend/src/monthly-mail.ts:174-249 | a stored month's mail has one entry per receipt, dated by that receipt; the count is the number of receipts, the total is the month total, and the billing is half of it rounded down |
| LegacyMonthlyMail.GroupDateFormat | src/monthly-mail.ts:225-232 | a group is dated by its first receipt date as `YYYY/MM/DD`, or by the day of its creation time when the date is missing |
| LegacyMonthlyMail.GroupTable | src/monthly-mail.ts:221-237 | one row per line of a group, each dated by the group's first line |
| LegacyMonthlyMail.GenerateMonthlyReport | src/monthly-mail.ts:180-237 | the loops build exactly the monthly report of the details |
| LegacyMonthlyMail.CollectRows | src/monthly-mail.ts:221-237 | the loop over the hashes collects the groups' rows in key order |
| LegacyMonthlyMail.PushGroupRows | src/monthly-mail.ts:234-236 | the inner loop appends exactly the group's rows |
| LegacyMonthlyMail.RowsOfFlatten | src/monthly-mail.ts:221-237 | the rows are the grouped lines, each dated by its group's first line |
| LegacyMonthlyMail.ReportRows | src/monthly-mail.ts:180-237 | no details give the no-data mail; otherwise the billing, total and distinct-hash count hold, and the rows are the lines regrouped by hash, each dated by its group |
| LegacyMonthlyMail.RowsOfOneReceiptTogether | src/monthly-mail.ts:204-210 | the rows of one image hash come out next to each other |
| LegacyMonthlyMail.OwnRows | src/monthly-mail.ts:221-237 | each line dated by itself |
| LegacyMonthlyMail.RowsOfDistinctHashes | src/monthly-mail.ts:213 | with distinct hashes the count is the number of lines and the rows are the lines in order, each dated by itself |
| LegacyMonthlyMail.MailOfStoredMonth | src/monthly-mail.ts:180-237 | a stored month's mail lists the month's receipts in (date, id) order, each dated by itself, and its total is the month total |
| MonthTotals.LinesOf | src/monthly-total.ts:109-112 | one printed line per row |
| MonthTotals.BlocksOf | src/monthly-total.ts:97-116 | one block per hash |
| MonthTotals.PrintMonthlySummary | src/monthly-total.ts:69-132 | the loops build exactly the month summary of the details |
| MonthTotals.ListBlocks | src/monthly-total.ts:97-116 | one block per key, each the block of that key's group |
| MonthTotals.ListGroup | src/monthly-total.ts:98-115 | a group's block is headed by its first row and lists its lines and subtotal |
| MonthTotals.ListLines | src/monthly-total.ts:108-112 | the `forEach` prints every row's line and adds every amount to the subtotal |
| MonthTotals.BlocksSubtotals | src/monthly-total.ts:108-115 | the subtotals add up to the sum over the grouped rows |
| MonthTotals.BlocksLines | src/monthly-total.ts:109-112 | the blocks' lines are the grouped rows' lines |
| MonthTotals.LinesOfConcat | src/monthly-total.ts:109-112 | the lines of rows put together are the lines put together |
| MonthTotals.SummaryAddsUp | src/monthly-total.ts:69-132 | no details give the no-data line; otherwise there is one block per distinct hash, every row is listed in exactly one block, and the subtotals add up to the month total |
| MonthTotals.BlockIsGroup | src/monthly-total.ts:97-116 | block i is headed by the first row of its hash (its id and creation day) and lists every row with that hash |
| MonthTotals.SummaryOfDistinctHashes | src/monthly-total.ts:97-116 | with distinct hashes block i is receipt i alone, its amount the subtotal |
| MonthTotals.DistinctGroupIsLine | src/monthly-total.ts:97-116 | with distinct hashes the i-th key is line i's hash and its group is that line alone |
| DriveListing.OrElse | packages/backend/src/download-service.ts:120-125 | the JavaScript or-default gives the value when it is a non-empty text and the fallback otherwise |
| DriveListing.NodeMap | packages/backend/src/download-service.ts:120-125 | every file has a node under its id, and each node is filed under its own id |
| DriveListing.BuildFileStructure | packages/backend/src/download-service.ts:115-146 | the node map is the files by id; the roots are the parentless files in order; every node lists as children the files naming it as parent |
| DriveListing.MapFiles | packages/backend/src/download-service.ts:120-125 | the first loop makes a node per id with no children |
| DriveListing.AttachToParents | packages/backend/src/download-service.ts:134-142 | a file is added to the children of each parent it names that has a node |
| DriveListing.RootsAreParentless | packages/backend/src/download-service.ts:131-133 | the roots are the ids of the files without parents, in order |
| DriveListing.ParentCountPositive | packages/backend/src/download-service.ts:134-142 | a file is attached under a node exactly when it lists that node as parent |
| DriveListing.ChildrenListParent | packages/backend/src/download-service.ts:134-142 | x is a child of k exactly when some file with id x lists k as parent |
| DriveListing.RootMember | packages/backend/src/download-service.ts:131-133 | x is a root exactly when some parentless file has id x |
| DriveListing.NodeMapKeys | packages/backend/src/download-service.ts:120-125 | there is a node exactly for each id of a file |
| DriveListing.NodeOfUniqueId | packages/backend/src/download-service.ts:120-125 | with unique ids every file is its own node |
| DriveListing.OrphanDropsOut | packages/backend/src/download-service.ts:131-142 | a file whose parents are all absent is neither a root nor anyone's child |
| DriveListing.DayAtClock | packages/backend/src/download-service.ts:153-154 | a date with a clock time is an RFC 3339 date-time exactly when the date is a real day |
| DriveListing.DayBoundsAreUtc | packages/backend/src/download-service.ts:153-154 | the day's bounds are valid date-times exactly for a real day, and the start comes before the end |
| DriveListing.TimeClauseMentions | packages/backend/src/download-service.ts:161 | the time clause asks for untrashed files within both inclusive bounds |
| DriveListing.FilesQueryMentions | packages/backend/src/download-service.ts:158-165 | every files query asks for untrashed files within both bounds, and a query restricted by type asks for images |
| DriveListing.ImagesQueryMentions | packages/backend/src/download-service.ts:173-182 | the images query asks for untrashed images within both bounds |
| DriveListing.MonthRangeBounds | packages/backend/src/download-service.ts:532-538 | the month range runs from the first of the month to its last Gregorian day, and both ends are real dates |
| DriveListing.MonthRangeEnd | packages/backend/src/download-service.ts:534-535 | the range ends on the month's last day, leap Februaries included |
| DriveListing.LastDayDigits | packages/backend/src/download-service.ts:534-535 | the unpadded last day is its two-digit text |
| DriveListing.MonthRangeHoldsTheMonth | packages/backend/src/download-service.ts:532-538 | a real date lies in the month range exactly when it is in that month |
| DriveListing.MonthImagesQueryBounds | packages/backend/src/download-service.ts:532-538 | the month query runs from midnight on the first to the last second of the last day, both valid date-times |
| DriveListing.MonthFolderDigits | packages/backend/src/download-service.ts:556 | a month's folder is the six digits `YYYYMM` |
| DriveListing.KeepExactDate | packages/backend/src/download-service.ts:230-234 | the filter succeeds exactly when every time can be read, and then it keeps exactly the files created on the day |
| DriveListing.FilesByDate | packages/backend/src/download-service.ts:187-238 | a non-empty exact answer is returned as is; otherwise the broad answer narrowed to the files created on the day, or a failure when a time cannot be read |
| DriveListing.TallyFileTypes | packages/backend/src/download-service.ts:354-358 | there is a count for each type present and no other, and it is the number of files of that type |
| DriveListing.TallyCountsEveryFile | packages/backend/src/download-service.ts:354-358 | the type counts add up to the number of files |
| DriveListing.Names | packages/backend/src/download-service.ts:506-508 | one name per file |
| DriveListing.FirstThree | packages/backend/src/download-service.ts:506-508 | the first three names, or all of them when there are fewer |
| DriveListing.CollectTypeStats | packages/backend/src/download-service.ts:497-510 | for each type present, the count of its files and the names of its first three files |
| DriveListing.DownloadFiles | packages/backend/src/download-service.ts:362-380 | the loop records every file with an id and a name that downloads, and names every one that fails, in listing order |
| DriveListing.DownloadsAddUp | packages/backend/src/download-service.ts:362-380 | every file not skipped ends downloaded or in the errors, never both |
| DriveListing.Records | packages/backend/src/download-service.ts:366-372 | one record per file |
| DriveListing.DownloadsWithoutFailure | packages/backend/src/download-service.ts:409-425 | when no download fails there are no errors and every file with an id and a name is recorded |
| DriveListing.NoErrorsWithoutFailure | packages/backend/src/download-service.ts:374-378 | without failures the error list is empty |
| DriveListing.RecordsWithoutFailure | packages/backend/src/download-service.ts:561-577 | without failures the records are those of every file with an id and a name |
| DriveListing.SkippedLeavesNoTrace | packages/backend/src/download-service.ts:363-365 | files without an id or a name leave neither a record nor an error |

## Left out

- Network access is not modelled: Google Drive listing, file streaming and folder creation, Gmail sending and OAuth. The Drive answers and the positions of failing downloads are parameters (`DriveListing.FilesByDate`, `DriveListing.DownloadFiles`).
- The clock is a parameter: the current month of `getYearMonthFromArgs` and the `Date.now()` in the manual receipt hash.
- Mail layout is not modelled: the HTML and text bodies, the Base64/MIME encoding, and console output other than the summary's structure. The reports are modelled as the data they show.
- The ±1-day widening of `getFilesByDate`'s broad query through `toISOString` is not modelled; the broad answer is a parameter.
- Only the exact-day filter of `getImagesByDate` is modelled (`KeepExactDate`). The same filter is shared with `getFilesByDate`.
- The PDF survey of `investigateFileTypes` is not modelled; only its per-type statistics are.
- The console-only sorting of the type statistics is not modelled.
- File paths, the download directory and `mkdir` are not modelled.
- DriveListing.SizeOf: `parseInt` of a size that is not a number (NaN) and an absent size are both `None`. The size is read in base 10, but `parseInt` without a radix reads a `0x` size as hexadecimal.
- JavaScript object key order is taken as insertion order, which holds because no image hash is an array-index string. Uploaded images have hex digests as hashes, and manual receipts have hashes that start with `manual_`.
- JsText.NatToString: JavaScript numbers are IEEE doubles, but the model uses unbounded integers. From 1e21 `${n}` is written in exponent notation, and above 2^53 the digits of `parseInt` results and of amount sums are not exact. This limit also applies to `IntToString`, `ParseInt`, `ParseIntOfToString` and the sums of amounts.
- MonthlyMail.ReceiptTime: `new Date(receipt_date)` reads only the date-only `YYYY-MM-DD` form and the `YYYY-MM-DDTHH:mm[:ss[.sss]]Z` UTC forms. Days 01 to 31 are accepted and carry over into the next month. Local-time forms (no `Z`, a space separator), `±HH:MM` offsets, V8's legacy formats and `T24:00` are read as an invalid Date.
- Calendar.TimestampDay: `new Date(created_at)` is modelled only for SQLite's `CURRENT_TIMESTAMP` form `YYYY-MM-DD HH:MM:SS`, read in local time. Other texts count as invalid Dates.
- DriveListing.KeepExactDate: `new Date(createdTime)` is modelled only for RFC 3339 `...Z` date-times, the form Drive returns. Any other text counts as an invalid Date.
- ReceiptStore.MonthOf: `strftime` is modelled for a `YYYY-MM-DD` date (days 01 to 31, carried over), alone or followed by spaces or `T` and `HH:MM[:SS[.fff]]` with an optional `Z`. Numeric values (read by SQLite as Julian day numbers), `±HH:MM` offsets, hour 24, time-only texts, `now` and negative years all count as `Unknown`.
- ReceiptStore.InWindow: the column's NUMERIC affinity is modelled only in the window comparison. Values read back keep their text, although SQLite returns a number for a date stored as a number.
- Calendar.ShownDay: proved only for years 1000–9999. Other years are not written as four digits.
- ReceiptStore.MonthWindowSelectsMonth: proved only for years 1000–9999. Other years are not written as four digits.
- MonthlyMail.ReportSortedByDate: stated only when every receipt date is readable. With an invalid date the comparator yields NaN, and the resulting order is left to the JavaScript engine.
- ReceiptStore.ReceiptTable.UpdateReceipt: a failing UPDATE statement is not modelled. `UpdateUseImage` and `DeleteReceipt` are modelled the same way. Only the batch import, the manual insert and the multiple delete take a failure parameter.
- The asynchronous sqlite callbacks run in sequence in the model, and statements after the first failure are not modelled. The model assumes that the `ROLLBACK` queued by a failing row insert runs before the `COMMIT` queued from `finalize`. The source does not serialize the two, so their order is not guaranteed.
- CsvReport.ReadLine: `parseFloat` of the amount is modelled as integer parsing, so fractional yen amounts are not covered.
- JsText.ToLowerAscii: lower-cases A–Z only. Every header keyword is ASCII or has no case.
- The default database connection of `src/db.ts` is not modelled.
- `getAllReceipts` of `src/db.ts` (a JOIN listing) is not modelled.
- `src/monthly-mail.ts` and `src/monthly-total.ts` import query helpers that `src/db.ts` does not define. The model gives them the backend package's query semantics (`ReceiptStore`).
- Authentication, the HTTP servers, the upload service, the query scripts and the receipt-reading scripts are not part of this model.
