/** The console summary of a month (`main` in src/monthly-total.ts): one
    block per image hash, dated by the first line's `created_at` and
    headed by its id, listing the lines and their subtotal, then the month
    total. */
module MonthTotals {
  import opened Wrappers
  import opened Calendar
  import opened Sequences
  import opened Grouping
  import opened ReceiptStore
  import MonthlyMail

  /** One `store | amount` line. */
  datatype Line = Line(storeName: string, amount: int)

  /** One block: `[date] id`, its lines and `小計`. */
  datatype Block = Block(date: string, firstId: nat, lines: seq<Line>, subtotal: int)

  datatype Summary =
    | NoReceipts
    | Totals(count: nat, blocks: seq<Block>, total: int)

  function LineOf(v: ReceiptView): Line { Line(v.storeName, v.totalAmount) }

  function LinesOf(rows: seq<ReceiptView>): (r: seq<Line>)
    ensures |r| == |rows| && forall i :: 0 <= i < |rows| ==> r[i] == LineOf(rows[i])
  {
    if rows == [] then [] else LinesOf(rows[..|rows| - 1]) + [LineOf(rows[|rows| - 1])]
  }

  /** The block of one group: dated and numbered by its first line. */
  function GroupBlock(g: seq<ReceiptView>): (b: Block)
    requires g != []
  {
    Block(ShownDate(TimestampDay(g[0].createdAt)), g[0].id, LinesOf(g), SumOf(g, ViewAmount))
  }

  /** The block of the group of `k`, which is never empty. */
  function BlockOf(rs: seq<ReceiptView>, k: string): (b: Block)
    requires Group(rs, Hash, k) != []
  {
    GroupBlock(Group(rs, Hash, k))
  }

  function BlocksOf(rs: seq<ReceiptView>, ks: seq<string>): (r: seq<Block>)
    requires forall i :: 0 <= i < |ks| ==> Group(rs, Hash, ks[i]) != []
    ensures |r| == |ks|
  {
    if ks == [] then [] else [BlockOf(rs, ks[0])] + BlocksOf(rs, ks[1..])
  }

  /** What the script prints for a month's details. */
  function MonthlySummary(details: MonthlyDetails): Summary {
    if details.receipts == [] then NoReceipts
    else
      var ks := Keys(details.receipts, Hash);
      KeysHaveGroups(details.receipts, Hash);
      Totals(|ks|, BlocksOf(details.receipts, ks), details.total)
  }

  method PrintMonthlySummary(details: MonthlyDetails) returns (summary: Summary)
    ensures summary == MonthlySummary(details)
  {
    if |details.receipts| == 0 {
      return NoReceipts;
    }
    var keys, receiptsByHash := GroupRows(details.receipts, Hash);
    KeysHaveGroups(details.receipts, Hash);
    var blocks := ListBlocks(keys, receiptsByHash);
    BlocksOfEach(details.receipts, keys, receiptsByHash, blocks);
    summary := Totals(|keys|, blocks, details.total);
  }

  /** `Object.keys(receiptsByHash).forEach(...)`: one block per key, in
      key order, each the block of that key's array. */
  method ListBlocks(keys: seq<string>, receiptsByHash: map<string, seq<ReceiptView>>)
    returns (blocks: seq<Block>)
    requires forall i :: 0 <= i < |keys| ==> keys[i] in receiptsByHash && receiptsByHash[keys[i]] != []
    ensures |blocks| == |keys|
    ensures forall i :: 0 <= i < |keys| ==> blocks[i] == GroupBlock(receiptsByHash[keys[i]])
  {
    blocks := [];
    var j := 0;
    while j < |keys|
      invariant 0 <= j <= |keys| && |blocks| == j
      invariant BlocksListed(keys, receiptsByHash, blocks)
    {
      var block := ListGroup(receiptsByHash[keys[j]]);
      BlocksListedSnoc(keys, receiptsByHash, blocks, block);
      blocks := blocks + [block];
      j := j + 1;
    }
  }

  /** The loop invariant of `ListBlocks`: the blocks so far are those of
      the first keys' groups. */
  ghost predicate BlocksListed(keys: seq<string>, groups: map<string, seq<ReceiptView>>, blocks: seq<Block>) {
    forall i :: 0 <= i < |blocks| ==>
      i < |keys| && keys[i] in groups && groups[keys[i]] != [] && blocks[i] == GroupBlock(groups[keys[i]])
  }

  lemma BlocksListedSnoc(keys: seq<string>, groups: map<string, seq<ReceiptView>>, blocks: seq<Block>, block: Block)
    requires BlocksListed(keys, groups, blocks) && |blocks| < |keys|
    requires keys[|blocks|] in groups && groups[keys[|blocks|]] != []
    requires block == GroupBlock(groups[keys[|blocks|]])
    ensures BlocksListed(keys, groups, blocks + [block])
  {
    var grown := blocks + [block];
    forall i | 0 <= i < |grown|
      ensures i < |keys| && keys[i] in groups && groups[keys[i]] != [] && grown[i] == GroupBlock(groups[keys[i]])
    {
      if i < |blocks| {
        assert grown[i] == blocks[i];
      }
    }
  }

  /** Blocks that are, one by one, the blocks of the keys' groups are
      `BlocksOf`. */
  lemma BlocksOfEach(rs: seq<ReceiptView>, ks: seq<string>, groups: map<string, seq<ReceiptView>>, blocks: seq<Block>)
    requires forall i :: 0 <= i < |ks| ==> Group(rs, Hash, ks[i]) != []
    requires forall k :: k in groups ==> groups[k] == Group(rs, Hash, k)
    requires forall i :: 0 <= i < |ks| ==> ks[i] in groups
    requires |blocks| == |ks| && forall i :: 0 <= i < |ks| ==> blocks[i] == GroupBlock(groups[ks[i]])
    ensures blocks == BlocksOf(rs, ks)
  {
    forall i | 0 <= i < |ks| ensures blocks[i] == BlocksOf(rs, ks)[i] {
      BlocksAt(rs, ks, i);
    }
  }

  /** The body of the `forEach` for one hash: the date of the first line,
      then every line with the running subtotal. */
  method ListGroup(rows: seq<ReceiptView>) returns (block: Block)
    requires rows != []
    ensures block == GroupBlock(rows)
  {
    var firstRow := rows[0];
    var formattedDate := ShownDate(TimestampDay(firstRow.createdAt));
    var lines, receiptTotal := ListLines(rows);
    block := Block(formattedDate, firstRow.id, lines, receiptTotal);
  }

  /** The `rows.forEach` that prints each line and adds it to the
      subtotal. */
  method ListLines(rows: seq<ReceiptView>) returns (lines: seq<Line>, receiptTotal: int)
    ensures lines == LinesOf(rows) && receiptTotal == SumOf(rows, ViewAmount)
  {
    lines := [];
    receiptTotal := 0;
    var t := 0;
    while t < |rows|
      invariant 0 <= t <= |rows|
      invariant lines == LinesOf(rows[..t])
      invariant receiptTotal == SumOf(rows[..t], ViewAmount)
    {
      LineStep(rows, t);
      lines := lines + [Line(rows[t].storeName, rows[t].totalAmount)];
      receiptTotal := receiptTotal + rows[t].totalAmount;
      t := t + 1;
    }
    assert rows[..t] == rows;
  }

  lemma LineStep(rows: seq<ReceiptView>, t: nat)
    requires t < |rows|
    ensures LinesOf(rows[..t + 1]) == LinesOf(rows[..t]) + [LineOf(rows[t])]
    ensures SumOf(rows[..t + 1], ViewAmount) == SumOf(rows[..t], ViewAmount) + rows[t].totalAmount
  {
    TakeSnoc(rows, t);
    SumOfConcat(rows[..t], [rows[t]], ViewAmount);
  }

  // ---------------------------------------------------------------------
  // What the summary says
  // ---------------------------------------------------------------------

  function Subtotal(b: Block): int { b.subtotal }

  function BlockLines(blocks: seq<Block>): seq<Line> {
    if blocks == [] then [] else blocks[0].lines + BlockLines(blocks[1..])
  }

  lemma {:induction false} BlocksSubtotals(rs: seq<ReceiptView>, ks: seq<string>)
    requires forall i :: 0 <= i < |ks| ==> Group(rs, Hash, ks[i]) != []
    ensures SumOf(BlocksOf(rs, ks), Subtotal) == SumOf(Flatten(rs, Hash, ks), ViewAmount)
  {
    if ks != [] {
      BlocksSubtotals(rs, ks[1..]);
      SumOfConcat(Group(rs, Hash, ks[0]), Flatten(rs, Hash, ks[1..]), ViewAmount);
      assert BlocksOf(rs, ks)[1..] == BlocksOf(rs, ks[1..]);
    }
  }

  lemma {:induction false} BlocksLines(rs: seq<ReceiptView>, ks: seq<string>)
    requires forall i :: 0 <= i < |ks| ==> Group(rs, Hash, ks[i]) != []
    ensures BlockLines(BlocksOf(rs, ks)) == LinesOf(Flatten(rs, Hash, ks))
  {
    if ks != [] {
      BlocksLines(rs, ks[1..]);
      LinesOfConcat(Group(rs, Hash, ks[0]), Flatten(rs, Hash, ks[1..]));
      assert BlocksOf(rs, ks)[1..] == BlocksOf(rs, ks[1..]);
    }
  }

  lemma LinesOfConcat(a: seq<ReceiptView>, b: seq<ReceiptView>)
    ensures LinesOf(a + b) == LinesOf(a) + LinesOf(b)
  {
    assert forall i :: 0 <= i < |a + b| ==> (a + b)[i] == if i < |a| then a[i] else b[i - |a|];
  }

  /** An empty month gets the no-data line; otherwise there is one block
      per distinct image hash, every receipt line of the month is listed
      in exactly one block, and the subtotals add up to the month total
      the details carry. */
  lemma SummaryAddsUp(details: MonthlyDetails)
    requires details.total == SumOf(details.receipts, ViewAmount)
    ensures MonthlySummary(details).NoReceipts? <==> details.receipts == []
    ensures MonthlySummary(details).Totals? ==>
      var s := MonthlySummary(details);
      var grouped := Flatten(details.receipts, Hash, Keys(details.receipts, Hash));
      s.count == |s.blocks| == |KeySet(details.receipts, Hash)| &&
      SumOf(s.blocks, Subtotal) == s.total &&
      multiset(grouped) == multiset(details.receipts) &&
      BlockLines(s.blocks) == LinesOf(grouped)
  {
    var rs := details.receipts;
    if rs != [] {
      GroupCount(rs, Hash);
      GroupsPermutation(rs, Hash);
      KeysHaveGroups(rs, Hash);
      BlocksSubtotals(rs, Keys(rs, Hash));
      BlocksLines(rs, Keys(rs, Hash));
      GroupsSum(rs, Hash, ViewAmount);
    }
  }

  /** Each block is headed by the first line of its hash and lists every
      line with that hash. */
  lemma BlockIsGroup(details: MonthlyDetails, i: nat)
    requires MonthlySummary(details).Totals? && i < |MonthlySummary(details).blocks|
    ensures var k := Keys(details.receipts, Hash)[i];
      var g := Group(details.receipts, Hash, k);
      var b := MonthlySummary(details).blocks[i];
      g != [] && g[0].imageHash == k &&
      b.firstId == g[0].id && b.date == ShownDate(TimestampDay(g[0].createdAt)) &&
      b.lines == LinesOf(g) && b.subtotal == SumOf(g, ViewAmount)
  {
    var rs := details.receipts;
    var ks := Keys(rs, Hash);
    GroupNonEmpty(rs, Hash, ks[i]);
    KeysHaveGroups(rs, Hash);
    BlocksAt(rs, ks, i);
  }

  lemma {:induction false} BlocksAt(rs: seq<ReceiptView>, ks: seq<string>, i: nat)
    requires forall j :: 0 <= j < |ks| ==> Group(rs, Hash, ks[j]) != []
    requires i < |ks|
    ensures BlocksOf(rs, ks)[i] == BlockOf(rs, ks[i])
  {
    if i > 0 {
      BlocksAt(rs, ks[1..], i - 1);
    }
  }

  /** When no two lines share an image hash, as in every month the store
      hands out, block `i` is receipt `i` alone. */
  lemma SummaryOfDistinctHashes(details: MonthlyDetails, i: nat)
    requires MonthlyMail.DistinctHashes(details.receipts) && i < |details.receipts|
    ensures var s := MonthlySummary(details);
      var r := details.receipts[i];
      s.Totals? && s.count == |details.receipts| &&
      s.blocks[i] == Block(ShownDate(TimestampDay(r.createdAt)), r.id, [LineOf(r)], r.totalAmount)
  {
    var rs := details.receipts;
    GroupsOfDistinct(rs, Hash);
    DistinctGroupIsLine(rs, i);
    BlockIsGroup(details, i);
  }

  /** With distinct hashes the `i`-th key is line `i`'s hash and its group
      is that line alone. */
  lemma DistinctGroupIsLine(rs: seq<ReceiptView>, i: nat)
    requires MonthlyMail.DistinctHashes(rs) && i < |rs|
    ensures |Keys(rs, Hash)| == |rs| && Keys(rs, Hash)[i] == rs[i].imageHash
    ensures Group(rs, Hash, rs[i].imageHash) == [rs[i]]
    ensures LinesOf([rs[i]]) == [LineOf(rs[i])] && SumOf([rs[i]], ViewAmount) == rs[i].totalAmount
  {
    MonthlyMail.DistinctHashKeys(rs);
    GroupsOfDistinct(rs, Hash);
    SingletonGroups(rs, Hash);
    assert Hash(rs[i]) == rs[i].imageHash;
    assert LinesOf([rs[i]]) == [LineOf(rs[i])];
    assert SumOf([rs[i]], ViewAmount) == SumOf([], ViewAmount) + ViewAmount(rs[i]);
  }
}
