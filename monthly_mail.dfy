/** The monthly mail of the backend package (`generateMonthlyReport` in
    packages/backend/src/monthly-mail.ts): the month's receipts grouped by
    image hash, one table row per receipt line carrying the date of its
    group's first line, sorted by that date. */
module MonthlyMail {
  import opened Wrappers
  import opened JsText
  import opened Calendar
  import opened Sequences
  import opened Grouping
  import opened Billing
  import opened ReceiptStore

  // ---------------------------------------------------------------------
  // Dates as `new Date(receipt_date)` reads them
  // ---------------------------------------------------------------------

  /** The UTC time forms of the date-time string format (section 21.4.1.32
      of ECMA-262) that may follow a date: `THH:mm`, `THH:mm:ss` or
      `THH:mm:ss.sss`, then `Z`, with hours 00 to 23. */
  predicate IsUtcTimeSuffix(t: string) {
    (|t| == 7 || |t| == 10 || |t| == 14) && t[0] == 'T' && t[|t| - 1] == 'Z' &&
    IsTwoDigits(t[1..3], 24) && t[3] == ':' && IsTwoDigits(t[4..6], 60) &&
    (|t| >= 10 ==> t[6] == ':' && IsTwoDigits(t[7..9], 60)) &&
    (|t| == 14 ==> t[9] == '.' && AllDigits(t[10..13]))
  }

  /** The milliseconds since midnight such a suffix names. */
  function UtcMs(t: string): (r: nat)
    requires IsUtcTimeSuffix(t)
    ensures r < 86400000
  {
    var sec := if |t| >= 10 then DigitsValue(t[7..9]) else 0;
    var frac := if |t| == 14 then DigitsValue(t[10..13]) else 0;
    assert frac < 1000 by {
      if |t| == 14 {
        DigitsOfDigitsValue(t[10..13]);
        assert Pow10(3) == 1000;
      }
    }
    ((DigitsValue(t[1..3]) * 60 + DigitsValue(t[4..6])) * 60 + sec) * 1000 + frac
  }

  /** The moment `new Date(receipt_date)` stands for. A missing date is
      `new Date(null)`, the epoch. A `YYYY-MM-DD` date is UTC midnight of
      that day, and a UTC date-time is that moment; V8 accepts any day
      from 01 to 31 and carries a day past the end of the month into the
      next month. Any other text is an invalid Date, whose time is NaN
      (`None`). */
  function ReceiptTime(date: Option<string>): (r: Option<Instant>)
    ensures date.None? ==> r == Some(Instant(Day(1970, 1, 1), 0))
    ensures date.Some? && IsRealIsoDate(date.value) ==> r == Some(Instant(IsoDay3(date.value), 0))
    ensures date.Some? && r.Some? ==> |date.value| >= 10 && IsLooseIsoDate(date.value[..10])
    ensures r.Some? ==>
      1 <= r.value.day.month <= 12 && 1 <= r.value.day.day <= DaysInMonth(r.value.day.year, r.value.day.month) &&
      0 <= r.value.ms < 86400000
  {
    if date.None? then Some(Instant(Day(1970, 1, 1), 0))
    else
      var s := date.value;
      LooseIsoDayOfReal(s);
      assert |s| == 10 ==> s[..10] == s;
      if |s| < 10 || !IsLooseIsoDate(s[..10]) then None
      else if |s| == 10 then
        assert s[..10] == s;
        Some(Instant(LooseIsoDay(s), 0))
      else if IsUtcTimeSuffix(s[10..]) then Some(Instant(LooseIsoDay(s[..10]), UtcMs(s[10..])))
      else None
  }

  /** A day past the end of its month is read as a day of the next month. */
  lemma ReceiptTimeCarries()
    ensures ReceiptTime(Some("2025-02-30")) == Some(Instant(Day(2025, 3, 2), 0))
  {
    var s := "2025-02-30";
    assert s[..4] == "2025" && s[5..7] == "02" && s[8..] == "30";
    assert "2025"[..3] == "202" && "202"[..2] == "20" && "20"[..1] == "2" && "2"[..0] == "";
    assert DigitsValue("2") == 2 && DigitsValue("20") == 20 && DigitsValue("202") == 202;
    assert DigitsValue("2025") == 2025;
    assert "02"[..1] == "0" && "30"[..1] == "3" && "0"[..0] == "" && "3"[..0] == "";
    assert DigitsValue("0") == 0 && DigitsValue("02") == 2;
    assert DigitsValue("3") == 3 && DigitsValue("30") == 30;
    assert IsoYear(s) == 2025 && IsoMonth(s) == 2 && IsoDay(s) == 30;
    assert s[..10] == s;
  }

  /** A UTC date-time is on its own day, no earlier than the day's
      `YYYY-MM-DD` date. */
  lemma UtcDateTimeOnItsDay(d: string, t: string)
    requires IsRealIsoDate(d) && IsUtcTimeSuffix(t)
    ensures ReceiptTime(Some(d + t)) == Some(Instant(IsoDay3(d), UtcMs(t)))
    ensures InstantLe(ReceiptTime(Some(d)).value, ReceiptTime(Some(d + t)).value)
  {
    var s := d + t;
    assert s[..10] == d && s[10..] == t;
    LooseIsoDayOfReal(d);
  }

  /** `receipt_date ? receipt_date.replace(/-/g, '/') : ''`; the empty
      text is falsy but replacing in it gives the empty text too. */
  function FormattedDate(date: Option<string>): (r: string)
    ensures date.None? ==> r == ""
    ensures date.Some? ==> |r| == |date.value| && '-' !in r
  {
    if date.Some? then ReplaceChar(date.value, '-', '/') else ""
  }

  /** A stored date is shown as `YYYY/MM/DD`. */
  lemma FormattedIsoDate(y: nat, m: nat, d: nat)
    ensures FormattedDate(Some(IsoDate(y, m, d))) == SlashDate(y, m, d)
  {
    var s := IsoDate(y, m, d);
    var t := SlashDate(y, m, d);
    var r := FormattedDate(Some(s));
    assert s == Digits(y, 4) + "-" + Digits(m, 2) + "-" + Digits(d, 2);
    forall i | 0 <= i < |s| ensures r[i] == t[i] {
      if i < 4 {
        assert s[i] == Digits(y, 4)[i];
      } else if 4 < i < 7 {
        assert s[i] == Digits(m, 2)[i - 5];
      } else if 7 < i {
        assert s[i] == Digits(d, 2)[i - 8];
      }
    }
  }

  // ---------------------------------------------------------------------
  // The table rows
  // ---------------------------------------------------------------------

  /** One element of `receiptData`: the sort key, the shown date, the
      store and the amount. */
  datatype TableEntry = TableEntry(time: Option<Instant>, formattedDate: string, storeName: string, amount: int)

  /** The entry of `row`, dated as the first row of its group. */
  function EntryOf(first: ReceiptView, row: ReceiptView): TableEntry {
    TableEntry(ReceiptTime(first.receiptDate), FormattedDate(first.receiptDate), row.storeName, row.totalAmount)
  }

  /** The entries of one group, in the group's order. */
  function GroupEntries(g: seq<ReceiptView>): (r: seq<TableEntry>)
    ensures |r| == |g|
    ensures g != [] ==> forall i :: 0 <= i < |g| ==> r[i] == EntryOf(g[0], g[i])
  {
    if g == [] then [] else seq(|g|, i requires 0 <= i < |g| => EntryOf(g[0], g[i]))
  }

  /** The entries of the groups of `ks`, one group after the other. */
  function EntriesOf(rs: seq<ReceiptView>, ks: seq<string>): seq<TableEntry> {
    if ks == [] then [] else GroupEntries(Group(rs, Hash, ks[0])) + EntriesOf(rs, ks[1..])
  }

  /** `a.date.getTime() - b.date.getTime() <= 0`; a NaN difference
      compares as equal. */
  predicate EntryLe(a: TableEntry, b: TableEntry) {
    a.time.None? || b.time.None? || InstantLe(a.time.value, b.time.value)
  }

  datatype MailReport =
    | NoReceipts
    | Report(billing: int, total: int, count: nat, entries: seq<TableEntry>)

  /** What the mail says for a month's details. */
  function MonthlyReport(details: MonthlyDetails): MailReport {
    if details.receipts == [] then NoReceipts
    else
      var ks := Keys(details.receipts, Hash);
      Report(BillingAmount(details.total), details.total, |ks|,
             SortBy(EntriesOf(details.receipts, ks), EntryLe))
  }

  method GenerateMonthlyReport(details: MonthlyDetails) returns (report: MailReport)
    ensures report == MonthlyReport(details)
  {
    if |details.receipts| == 0 {
      return NoReceipts;
    }
    var totalAmount := details.total;
    var billingAmount := RoundDownToTen(totalAmount / 2);
    var keys, receiptsByHash := GroupRows(details.receipts, Hash);
    var receiptData := CollectEntries(details.receipts, keys, receiptsByHash);
    receiptData := SortBy(receiptData, EntryLe);
    report := Report(billingAmount, totalAmount, |keys|, receiptData);
  }

  /** `Object.keys(receiptsByHash).forEach(...)`: the entries of every
      group, in key order. */
  method CollectEntries(rs: seq<ReceiptView>, keys: seq<string>, receiptsByHash: map<string, seq<ReceiptView>>)
    returns (receiptData: seq<TableEntry>)
    requires keys == Keys(rs, Hash)
    requires forall k :: k in receiptsByHash <==> k in keys
    requires forall k :: k in receiptsByHash ==> receiptsByHash[k] == Group(rs, Hash, k)
    ensures receiptData == EntriesOf(rs, keys)
  {
    receiptData := [];
    var j := 0;
    while j < |keys|
      invariant 0 <= j <= |keys|
      invariant receiptData == EntriesOf(rs, keys[..j])
    {
      var rows := receiptsByHash[keys[j]];
      GroupNonEmpty(rs, Hash, keys[j]);
      receiptData := PushGroupEntries(receiptData, rows);
      NextGroupEntries(rs, keys, j);
      j := j + 1;
    }
    assert keys[..j] == keys;
  }

  /** `rows.forEach(row => receiptData.push(...))`: every line of one
      group, dated by the group's first line. */
  method PushGroupEntries(receiptData: seq<TableEntry>, rows: seq<ReceiptView>) returns (out: seq<TableEntry>)
    requires rows != []
    ensures out == receiptData + GroupEntries(rows)
  {
    var firstRow := rows[0];
    ghost var entries := GroupEntries(rows);
    out := receiptData;
    var t := 0;
    while t < |rows|
      invariant 0 <= t <= |rows|
      invariant out == receiptData + entries[..t]
    {
      GroupEntriesStep(rows, t);
      out := out + [EntryOf(firstRow, rows[t])];
      t := t + 1;
    }
    assert entries[..t] == entries;
  }

  lemma GroupEntriesStep(g: seq<ReceiptView>, t: nat)
    requires t < |g|
    ensures GroupEntries(g)[..t + 1] == GroupEntries(g)[..t] + [EntryOf(g[0], g[t])]
  {
    var es := GroupEntries(g);
    assert es[t] == EntryOf(g[0], g[t]);
  }

  lemma NextGroupEntries(rs: seq<ReceiptView>, keys: seq<string>, j: nat)
    requires j < |keys|
    ensures EntriesOf(rs, keys[..j + 1]) == EntriesOf(rs, keys[..j]) + GroupEntries(Group(rs, Hash, keys[j]))
  {
    TakeSnoc(keys, j);
    EntriesOfSnoc(rs, keys[..j], keys[j]);
  }

  lemma {:induction false} EntriesOfSnoc(rs: seq<ReceiptView>, ks: seq<string>, k: string)
    ensures EntriesOf(rs, ks + [k]) == EntriesOf(rs, ks) + GroupEntries(Group(rs, Hash, k))
  {
    if ks == [] {
      assert ks + [k] == [k];
    } else {
      assert (ks + [k])[1..] == ks[1..] + [k];
      EntriesOfSnoc(rs, ks[1..], k);
    }
  }

  // ---------------------------------------------------------------------
  // What the report says
  // ---------------------------------------------------------------------

  lemma {:induction false} EntriesOfLength(rs: seq<ReceiptView>, ks: seq<string>)
    ensures |EntriesOf(rs, ks)| == |Flatten(rs, Hash, ks)|
  {
    if ks != [] { EntriesOfLength(rs, ks[1..]); }
  }

  /** An empty month gets the no-data message; otherwise the billing is
      half the total rounded down to ten yen, the count is the number of
      distinct image hashes, and every receipt line of the month gets
      exactly one table row. */
  lemma ReportSummary(details: MonthlyDetails)
    ensures MonthlyReport(details).NoReceipts? <==> details.receipts == []
    ensures MonthlyReport(details).Report? ==>
      var r := MonthlyReport(details);
      r.billing == BillingAmount(details.total) && r.total == details.total &&
      r.count == |KeySet(details.receipts, Hash)| && |r.entries| == |details.receipts|
  {
    var rs := details.receipts;
    if rs != [] {
      GroupCount(rs, Hash);
      EntriesOfLength(rs, Keys(rs, Hash));
      GroupsPermutation(rs, Hash);
      assert |Flatten(rs, Hash, Keys(rs, Hash))| == |multiset(rs)|;
    }
  }

  /** `e` carries the date of some receipt line of `rs`. */
  ghost predicate TimeFromRows(rs: seq<ReceiptView>, e: TableEntry) {
    exists i :: 0 <= i < |rs| && e.time == ReceiptTime(rs[i].receiptDate)
  }

  /** Every entry's date is the date of some receipt line of the month. */
  lemma {:induction false} EntryTimesFromRows(rs: seq<ReceiptView>, ks: seq<string>)
    ensures forall e :: e in EntriesOf(rs, ks) ==> TimeFromRows(rs, e)
  {
    if ks != [] {
      EntryTimesFromRows(rs, ks[1..]);
      GroupEntryTimes(rs, ks[0]);
      var head, tail := GroupEntries(Group(rs, Hash, ks[0])), EntriesOf(rs, ks[1..]);
      assert EntriesOf(rs, ks) == head + tail;
      forall e | e in head + tail ensures TimeFromRows(rs, e) {
        if e in head {
          assert TimeFromRows(rs, e);
        } else {
          assert e in tail;
        }
      }
    }
  }

  /** The entries of one group all carry the date of the group's first
      line, a line of `rs`. */
  lemma GroupEntryTimes(rs: seq<ReceiptView>, k: string)
    ensures forall e :: e in GroupEntries(Group(rs, Hash, k)) ==> TimeFromRows(rs, e)
  {
    var g := Group(rs, Hash, k);
    if g != [] {
      SelectFrom(rs, Hash, {k});
      assert g[0] in multiset(rs);
      var i :| 0 <= i < |rs| && rs[i] == g[0];
      forall e | e in GroupEntries(g) ensures TimeFromRows(rs, e) {
        var t :| 0 <= t < |g| && GroupEntries(g)[t] == e;
        assert e.time == ReceiptTime(rs[i].receiptDate);
      }
    }
  }

  /** The comparison with NaN put first, a total preorder. */
  predicate EntryLeTotal(a: TableEntry, b: TableEntry) {
    a.time.None? || (b.time.Some? && InstantLe(a.time.value, b.time.value))
  }

  lemma EntryLeTotalPreorder()
    ensures TotalPreorder(EntryLeTotal)
  {
  }

  /** When `new Date` can read every receipt line's date (a missing date
      reads as the epoch), the rows come out in ascending date order, and they are the
      grouped rows rearranged. */
  lemma ReportSortedByDate(details: MonthlyDetails)
    requires details.receipts != []
    requires forall i :: 0 <= i < |details.receipts| ==> ReceiptTime(details.receipts[i].receiptDate).Some?
    ensures var es := MonthlyReport(details).entries;
      (forall i :: 0 <= i < |es| ==> es[i].time.Some?) &&
      (forall i, j :: 0 <= i < j < |es| ==> InstantLe(es[i].time.value, es[j].time.value))
    ensures multiset(MonthlyReport(details).entries) ==
            multiset(EntriesOf(details.receipts, Keys(details.receipts, Hash)))
  {
    var rs := details.receipts;
    var es := EntriesOf(rs, Keys(rs, Hash));
    EntryTimesFromRows(rs, Keys(rs, Hash));
    assert forall i :: 0 <= i < |es| ==> es[i].time.Some? by {
      forall i | 0 <= i < |es| ensures es[i].time.Some? {
        assert es[i] in es;
        assert TimeFromRows(rs, es[i]);
      }
    }
    SortByAgree(es, EntryLe, EntryLeTotal);
    EntryLeTotalPreorder();
    SortByCorrect(es, EntryLeTotal);
    var sorted := SortBy(es, EntryLeTotal);
    forall i | 0 <= i < |sorted| ensures sorted[i].time.Some? {
      assert sorted[i] in multiset(es);
    }
  }

  // ---------------------------------------------------------------------
  // Receipts that are one line each
  // ---------------------------------------------------------------------

  predicate DistinctHashes(rs: seq<ReceiptView>) {
    forall i, j :: 0 <= i < j < |rs| ==> rs[i].imageHash != rs[j].imageHash
  }

  /** Distinct hashes are distinct grouping keys. */
  lemma DistinctHashKeys(rs: seq<ReceiptView>)
    requires DistinctHashes(rs)
    ensures DistinctKeys(rs, Hash)
  {
    forall i, j | 0 <= i < j < |rs| ensures Hash(rs[i]) != Hash(rs[j]) {
    }
  }

  /** The details the store hands out never repeat an image hash: the
      table keeps its hashes apart, and selecting and sorting the month's
      rows keeps them apart. */
  lemma StoredDetailsHaveDistinctHashes(rows: seq<Receipt>, nextId: nat, year: int, month: int)
    requires TableInvariant(rows, nextId) && 1 <= month <= 12
    ensures DistinctHashes(Views(DetailRows(rows, year, month)))
  {
    var m := MonthRows(rows, year, month);
    var w := MonthWindow(year, month);
    FilterKeepsOrder(rows, (row: Receipt) => InWindow(row, w.0, w.1), RowBefore);
    SortByPermutation(m, DetailsLe);
    PermutationKeepsDistinct(m, DetailRows(rows, year, month), (row: Receipt) => row.imageHash);
  }

  /** The entry of a receipt that is a group of its own. */
  function OwnEntry(r: ReceiptView): TableEntry { EntryOf(r, r) }

  function OwnEntries(rs: seq<ReceiptView>): (r: seq<TableEntry>)
    ensures |r| == |rs| && forall i :: 0 <= i < |rs| ==> r[i] == OwnEntry(rs[i])
  {
    if rs == [] then [] else [OwnEntry(rs[0])] + OwnEntries(rs[1..])
  }

  lemma {:induction false} EntriesOfSingletons(rs: seq<ReceiptView>, ks: seq<string>, ys: seq<ReceiptView>)
    requires |ks| == |ys|
    requires forall i :: 0 <= i < |ks| ==> Group(rs, Hash, ks[i]) == [ys[i]]
    ensures EntriesOf(rs, ks) == OwnEntries(ys)
  {
    if ks != [] {
      EntriesOfSingletons(rs, ks[1..], ys[1..]);
      assert GroupEntries([ys[0]]) == [OwnEntry(ys[0])];
    }
  }

  /** When no two lines share an image hash (every receipt in the
      backend table has its own hash), the count is the number of lines
      and every row shows its own receipt's date. */
  lemma ReportOfDistinctHashes(details: MonthlyDetails)
    requires details.receipts != [] && DistinctHashes(details.receipts)
    ensures MonthlyReport(details).count == |details.receipts|
    ensures multiset(MonthlyReport(details).entries) == multiset(OwnEntries(details.receipts))
  {
    var rs := details.receipts;
    var ks := Keys(rs, Hash);
    DistinctHashKeys(rs);
    GroupsOfDistinct(rs, Hash);
    SingletonGroups(rs, Hash);
    assert forall i :: 0 <= i < |ks| ==> Group(rs, Hash, ks[i]) == [rs[i]];
    EntriesOfSingletons(rs, ks, rs);
    SortByPermutation(EntriesOf(rs, ks), EntryLe);
  }

  /** The mail of a month of a well-formed table: one row per receipt,
      each dated by its own receipt, the count is the number of receipts
      and the billing is half the month total rounded down to ten yen. */
  lemma MailOfStoredMonth(rows: seq<Receipt>, nextId: nat, year: int, month: int)
    requires TableInvariant(rows, nextId) && 1 <= month <= 12
    requires MonthRows(rows, year, month) != []
    ensures var views := Views(DetailRows(rows, year, month));
      var r := MonthlyReport(MonthlyDetails(views, SumOf(views, ViewAmount)));
      r.Report? && r.count == |MonthRows(rows, year, month)| &&
      multiset(r.entries) == multiset(OwnEntries(views)) &&
      Ok(r.total) == MonthlyTotal(rows, year, month) &&
      r.billing == BillingAmount(r.total)
  {
    var views := Views(DetailRows(rows, year, month));
    DetailsMatchMonthlyTotal(rows, year, month);
    StoredDetailsHaveDistinctHashes(rows, nextId, year, month);
    ReportOfDistinctHashes(MonthlyDetails(views, SumOf(views, ViewAmount)));
  }
}
