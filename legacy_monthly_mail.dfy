/** The older monthly mail (`generateMonthlyReport` in src/monthly-mail.ts):
    the same grouping by image hash, but no sort; a group without a
    receipt date is dated by its first line's `created_at`. */
module LegacyMonthlyMail {
  import opened Wrappers
  import opened Calendar
  import opened Sequences
  import opened Grouping
  import opened Billing
  import opened ReceiptStore
  import MonthlyMail

  /** The date of a group: the first line's `receipt_date` with slashes
      when it is non-empty text, otherwise the local day of its
      `created_at`. */
  function GroupDate(first: ReceiptView): string {
    if first.receiptDate.Some? && first.receiptDate.value != "" then MonthlyMail.FormattedDate(first.receiptDate)
    else ShownDate(TimestampDay(first.createdAt))
  }

  /** Both ways of dating a group give `YYYY/MM/DD` for the dates the
      store writes. */
  lemma GroupDateFormat(first: ReceiptView, y: nat, m: nat, d: nat, clock: string)
    requires 1000 <= y < 10000 && 1 <= m <= 12 && 1 <= d <= DaysInMonth(y, m) && IsClockText(clock)
    ensures first.receiptDate == Some(IsoDate(y, m, d)) ==> GroupDate(first) == SlashDate(y, m, d)
    ensures first.receiptDate.None? && first.createdAt == IsoDate(y, m, d) + " " + clock ==>
      GroupDate(first) == SlashDate(y, m, d)
  {
    MonthlyMail.FormattedIsoDate(y, m, d);
    ShownTimestamp(y, m, d, clock);
  }

  /** One row of the table: date, store, amount. */
  datatype TableRow = TableRow(date: string, storeName: string, amount: int)

  function RowOf(first: ReceiptView, row: ReceiptView): TableRow {
    TableRow(GroupDate(first), row.storeName, row.totalAmount)
  }

  /** The rows of one group, all dated by its first line. */
  function GroupTable(g: seq<ReceiptView>): (r: seq<TableRow>)
    ensures |r| == |g|
    ensures g != [] ==> forall i :: 0 <= i < |g| ==> r[i] == RowOf(g[0], g[i])
  {
    if g == [] then [] else seq(|g|, i requires 0 <= i < |g| => RowOf(g[0], g[i]))
  }

  /** The rows of the groups of `ks`, one group after the other. */
  function RowsOf(rs: seq<ReceiptView>, ks: seq<string>): seq<TableRow> {
    if ks == [] then [] else GroupTable(Group(rs, Hash, ks[0])) + RowsOf(rs, ks[1..])
  }

  datatype LegacyReport =
    | NoReceipts
    | Report(billing: int, total: int, count: nat, rows: seq<TableRow>)

  /** What the mail says for a month's details. */
  function MonthlyReport(details: MonthlyDetails): LegacyReport {
    if details.receipts == [] then NoReceipts
    else
      var ks := Keys(details.receipts, Hash);
      Report(BillingAmount(details.total), details.total, |ks|, RowsOf(details.receipts, ks))
  }

  method GenerateMonthlyReport(details: MonthlyDetails) returns (report: LegacyReport)
    ensures report == MonthlyReport(details)
  {
    if |details.receipts| == 0 {
      return NoReceipts;
    }
    var totalAmount := details.total;
    var billingAmount := RoundDownToTen(totalAmount / 2);
    var keys, receiptsByHash := GroupRows(details.receipts, Hash);
    var tableData := CollectRows(details.receipts, keys, receiptsByHash);
    report := Report(billingAmount, totalAmount, |keys|, tableData);
  }

  /** `Object.keys(receiptsByHash).forEach(...)`: the rows of every group,
      in key order. */
  method CollectRows(rs: seq<ReceiptView>, keys: seq<string>, receiptsByHash: map<string, seq<ReceiptView>>)
    returns (tableData: seq<TableRow>)
    requires keys == Keys(rs, Hash)
    requires forall k :: k in receiptsByHash <==> k in keys
    requires forall k :: k in receiptsByHash ==> receiptsByHash[k] == Group(rs, Hash, k)
    ensures tableData == RowsOf(rs, keys)
  {
    tableData := [];
    var j := 0;
    while j < |keys|
      invariant 0 <= j <= |keys|
      invariant tableData == RowsOf(rs, keys[..j])
    {
      var rows := receiptsByHash[keys[j]];
      GroupNonEmpty(rs, Hash, keys[j]);
      var firstRow := rows[0];
      var formattedDate;
      if firstRow.receiptDate.Some? && firstRow.receiptDate.value != "" {
        formattedDate := MonthlyMail.FormattedDate(firstRow.receiptDate);
      } else {
        formattedDate := ShownDate(TimestampDay(firstRow.createdAt));
      }
      assert formattedDate == GroupDate(firstRow);
      tableData := PushGroupRows(tableData, rows, formattedDate);
      NextGroupRows(rs, keys, j);
      j := j + 1;
    }
    assert keys[..j] == keys;
  }

  /** `rows.forEach(row => tableData.push(...))`: every line of one group
      with the date worked out from its first line. */
  method PushGroupRows(tableData: seq<TableRow>, rows: seq<ReceiptView>, formattedDate: string)
    returns (out: seq<TableRow>)
    requires rows != [] && formattedDate == GroupDate(rows[0])
    ensures out == tableData + GroupTable(rows)
  {
    ghost var table := GroupTable(rows);
    out := tableData;
    var t := 0;
    while t < |rows|
      invariant 0 <= t <= |rows|
      invariant out == tableData + table[..t]
    {
      GroupTableStep(rows, t);
      assert RowOf(rows[0], rows[t]) == TableRow(formattedDate, rows[t].storeName, rows[t].totalAmount);
      out := out + [TableRow(formattedDate, rows[t].storeName, rows[t].totalAmount)];
      t := t + 1;
    }
    assert table[..t] == table;
  }

  lemma GroupTableStep(g: seq<ReceiptView>, t: nat)
    requires t < |g|
    ensures GroupTable(g)[..t + 1] == GroupTable(g)[..t] + [RowOf(g[0], g[t])]
  {
    var rows := GroupTable(g);
    assert rows[t] == RowOf(g[0], g[t]);
  }

  lemma NextGroupRows(rs: seq<ReceiptView>, keys: seq<string>, j: nat)
    requires j < |keys|
    ensures RowsOf(rs, keys[..j + 1]) == RowsOf(rs, keys[..j]) + GroupTable(Group(rs, Hash, keys[j]))
  {
    TakeSnoc(keys, j);
    RowsOfSnoc(rs, keys[..j], keys[j]);
  }

  lemma {:induction false} RowsOfSnoc(rs: seq<ReceiptView>, ks: seq<string>, k: string)
    ensures RowsOf(rs, ks + [k]) == RowsOf(rs, ks) + GroupTable(Group(rs, Hash, k))
  {
    if ks == [] {
      assert ks + [k] == [k];
    } else {
      assert (ks + [k])[1..] == ks[1..] + [k];
      RowsOfSnoc(rs, ks[1..], k);
    }
  }

  // ---------------------------------------------------------------------
  // What the report says
  // ---------------------------------------------------------------------

  /** Row `i` is receipt line `i` of the grouped lines, dated by the first
      line that has its image hash. */
  predicate DatedByGroup(rs: seq<ReceiptView>, x: ReceiptView, row: TableRow) {
    Group(rs, Hash, x.imageHash) != [] && row == RowOf(Group(rs, Hash, x.imageHash)[0], x)
  }

  lemma {:induction false} RowsOfFlatten(rs: seq<ReceiptView>, ks: seq<string>)
    ensures |RowsOf(rs, ks)| == |Flatten(rs, Hash, ks)|
    ensures forall i :: 0 <= i < |RowsOf(rs, ks)| ==> DatedByGroup(rs, Flatten(rs, Hash, ks)[i], RowsOf(rs, ks)[i])
  {
    if ks != [] {
      RowsOfFlatten(rs, ks[1..]);
      var g := Group(rs, Hash, ks[0]);
      forall i | 0 <= i < |g| ensures DatedByGroup(rs, g[i], GroupTable(g)[i]) {
        GroupMemberDated(rs, ks[0], i);
      }
      DatedConcat(rs, g, GroupTable(g), Flatten(rs, Hash, ks[1..]), RowsOf(rs, ks[1..]));
    }
  }

  lemma DatedConcat(rs: seq<ReceiptView>, xs: seq<ReceiptView>, rows: seq<TableRow>,
                    xs': seq<ReceiptView>, rows': seq<TableRow>)
    requires |xs| == |rows| && |xs'| == |rows'|
    requires forall i :: 0 <= i < |xs| ==> DatedByGroup(rs, xs[i], rows[i])
    requires forall i :: 0 <= i < |xs'| ==> DatedByGroup(rs, xs'[i], rows'[i])
    ensures forall i :: 0 <= i < |xs| + |xs'| ==> DatedByGroup(rs, (xs + xs')[i], (rows + rows')[i])
  {
    forall i | 0 <= i < |xs| + |xs'| ensures DatedByGroup(rs, (xs + xs')[i], (rows + rows')[i]) {
      if i >= |xs| {
        assert (xs + xs')[i] == xs'[i - |xs|];
      }
    }
  }

  lemma GroupMemberDated(rs: seq<ReceiptView>, k: string, i: nat)
    requires i < |Group(rs, Hash, k)|
    ensures DatedByGroup(rs, Group(rs, Hash, k)[i], GroupTable(Group(rs, Hash, k))[i])
  {
    var g := Group(rs, Hash, k);
    assert Hash(g[i]) in {k};
  }

  /** An empty month gets the no-data message; otherwise the billing is
      half the total rounded down to ten yen, the count is the number of
      distinct image hashes, and the rows are the month's receipt lines
      grouped by hash, each dated by the first line of its group. */
  lemma ReportRows(details: MonthlyDetails)
    ensures MonthlyReport(details).NoReceipts? <==> details.receipts == []
    ensures MonthlyReport(details).Report? ==>
      var r := MonthlyReport(details);
      var grouped := Flatten(details.receipts, Hash, Keys(details.receipts, Hash));
      r.billing == BillingAmount(details.total) && r.total == details.total &&
      r.count == |KeySet(details.receipts, Hash)| &&
      multiset(grouped) == multiset(details.receipts) &&
      |r.rows| == |grouped| &&
      forall i :: 0 <= i < |r.rows| ==> DatedByGroup(details.receipts, grouped[i], r.rows[i])
  {
    var rs := details.receipts;
    if rs != [] {
      GroupCount(rs, Hash);
      GroupsPermutation(rs, Hash);
      RowsOfFlatten(rs, Keys(rs, Hash));
    }
  }

  /** The lines of one image hash come out one after the other: a table
      row between two rows of the same receipt belongs to that receipt. */
  lemma RowsOfOneReceiptTogether(details: MonthlyDetails)
    ensures Contiguous(Flatten(details.receipts, Hash, Keys(details.receipts, Hash)), Hash)
  {
    FlattenContiguous(details.receipts, Hash, Keys(details.receipts, Hash));
  }

  // ---------------------------------------------------------------------
  // Receipts that are one line each
  // ---------------------------------------------------------------------

  function OwnRows(rs: seq<ReceiptView>): (r: seq<TableRow>)
    ensures |r| == |rs| && forall i :: 0 <= i < |rs| ==> r[i] == RowOf(rs[i], rs[i])
  {
    if rs == [] then [] else [RowOf(rs[0], rs[0])] + OwnRows(rs[1..])
  }

  /** When no two lines share an image hash, the table is the lines
      themselves in the order the details list them, each with its own
      date. */
  lemma RowsOfDistinctHashes(details: MonthlyDetails)
    requires details.receipts != [] && MonthlyMail.DistinctHashes(details.receipts)
    ensures MonthlyReport(details).count == |details.receipts|
    ensures MonthlyReport(details).rows == OwnRows(details.receipts)
  {
    var rs := details.receipts;
    MonthlyMail.DistinctHashKeys(rs);
    GroupsOfDistinct(rs, Hash);
    SingletonGroups(rs, Hash);
    RowsOfFlatten(rs, Keys(rs, Hash));
  }

  /** The mail of a month of a well-formed table lists the month's
      receipts in ascending (date, id) order, each with its own date. */
  lemma MailOfStoredMonth(rows: seq<Receipt>, nextId: nat, year: int, month: int)
    requires TableInvariant(rows, nextId) && 1 <= month <= 12
    requires MonthRows(rows, year, month) != []
    ensures var views := Views(DetailRows(rows, year, month));
      var r := MonthlyReport(MonthlyDetails(views, SumOf(views, ViewAmount)));
      r.Report? && r.rows == OwnRows(views) &&
      SortedBy(DetailRows(rows, year, month), DetailsLe) &&
      Ok(r.total) == MonthlyTotal(rows, year, month)
  {
    var views := Views(DetailRows(rows, year, month));
    DetailsMatchMonthlyTotal(rows, year, month);
    MonthlyMail.StoredDetailsHaveDistinctHashes(rows, nextId, year, month);
    RowsOfDistinctHashes(MonthlyDetails(views, SumOf(views, ViewAmount)));
  }
}
