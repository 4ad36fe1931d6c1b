/** The older two-table store (src/db.ts): `receipts` holds one row per
    image hash, `receipt_items` one row per purchased item, linked by the
    hash. The CSV import inserts the `receipts` row first and the items
    after it, all in one transaction. */
module ItemStore {
  import opened Wrappers
  import opened JsText
  import opened Sequences
  import opened Storage

  /** A row of `receipts`. */
  datatype ReceiptEntry = ReceiptEntry(id: nat, imageHash: string, createdAt: string)

  /** A row of `receipt_items`. */
  datatype Item = Item(id: nat, imageHash: string, item: string, price: int)

  /** What one data line of the import contributes. */
  datatype NewItem = NewItem(item: string, price: int)

  // ---------------------------------------------------------------------
  // Table invariants
  // ---------------------------------------------------------------------

  predicate EntryBefore(a: ReceiptEntry, b: ReceiptEntry) {
    a.id < b.id && a.imageHash != b.imageHash
  }

  predicate ItemBefore(a: Item, b: Item) {
    a.id < b.id
  }

  predicate HasReceipt(receipts: seq<ReceiptEntry>, hash: string) {
    exists i :: 0 <= i < |receipts| && receipts[i].imageHash == hash
  }

  /** Ids grow in table order, image hashes are UNIQUE, and AUTOINCREMENT
      never hands out an id twice. */
  predicate ReceiptsInvariant(receipts: seq<ReceiptEntry>, nextId: nat) {
    SortedBy(receipts, EntryBefore) &&
    forall i :: 0 <= i < |receipts| ==> 1 <= receipts[i].id < nextId
  }

  predicate ItemsInvariant(items: seq<Item>, nextId: nat) {
    SortedBy(items, ItemBefore) &&
    forall i :: 0 <= i < |items| ==> 1 <= items[i].id < nextId
  }

  /** The FOREIGN KEY of `receipt_items`: every item belongs to a receipt.
      SQLite does not enforce it by default; the import keeps it. */
  predicate ItemsHaveReceipts(items: seq<Item>, receipts: seq<ReceiptEntry>) {
    forall i :: 0 <= i < |items| ==> HasReceipt(receipts, items[i].imageHash)
  }

  // ---------------------------------------------------------------------
  // The CSV the import expects
  // ---------------------------------------------------------------------

  /** The header check: field 0 of the first line must be `item` and field
      1 must be `price` (a missing field 1 is `undefined` and fails). */
  predicate ItemHeaderOk(csv: string) {
    var header := Split(CsvLines(csv)[0], {','});
    header[0] == "item" && |header| >= 2 && header[1] == "price"
  }

  /** One data line: blank lines and lines whose second field does not
      `parseInt` are skipped; fields after the second are ignored. */
  function ItemLine(line: string): Option<NewItem> {
    var t := Trim(line);
    if t == [] then None
    else
      var parts := Split(t, {','});
      var price := if |parts| > 1 then ParseInt(parts[1]) else None;
      if price.None? then None else Some(NewItem(parts[0], price.value))
  }

  function ParsedItems(lines: seq<string>): (r: seq<Option<NewItem>>)
    ensures |r| == |lines|
  {
    if lines == [] then [] else [ItemLine(lines[0])] + ParsedItems(lines[1..])
  }

  /** The items the import tries to insert: every valid line after the
      header. */
  function ItemBatch(csv: string): seq<NewItem> {
    Present(ParsedItems(CsvLines(csv)[1..]))
  }

  /** The `receipt_items` rows a committed batch appends, with consecutive
      ids from `firstId`. */
  function NewItems(batch: seq<NewItem>, hash: string, firstId: nat): (r: seq<Item>)
    ensures |r| == |batch|
    ensures forall k :: 0 <= k < |r| ==> r[k] == Item(firstId + k, hash, batch[k].item, batch[k].price)
  {
    if batch == [] then []
    else
      NewItems(batch[..|batch| - 1], hash, firstId) +
      [Item(firstId + |batch| - 1, hash, batch[|batch| - 1].item, batch[|batch| - 1].price)]
  }

  /** What `parseAndSaveCSV` resolves or rejects with. A failing lookup of
      the hash rejects first; a known hash resolves false; a failing BEGIN
      rejects. Otherwise the `receipts` INSERT (statement 0) runs first; then
      the header is checked; then one INSERT per item (statements 1, 2,
      ...); any failure, a bad header included, rolls back the `receipts`
      row with the rest. */
  function SaveOutcome(receipts: seq<ReceiptEntry>, csv: string, hash: string, fault: Fault): (r: Result<bool, DbError>)
    ensures fault == LookupFails ==> r == Err(StorageError)
    ensures fault != LookupFails && HasReceipt(receipts, hash) ==> r == Ok(false)
    ensures fault == BeginFails && !HasReceipt(receipts, hash) ==> r == Err(StorageError)
    ensures (fault != LookupFails && fault != BeginFails && fault != InsertFails(0) &&
             !HasReceipt(receipts, hash) && !ItemHeaderOk(csv)) ==> r == Err(InvalidHeader)
    ensures r == Ok(true) <==>
      fault != LookupFails && fault != BeginFails &&
      !HasReceipt(receipts, hash) && ItemHeaderOk(csv) && fault != CommitFails &&
      !(fault.InsertFails? && fault.statement <= |ItemBatch(csv)|)
  {
    if fault == LookupFails then Err(StorageError)
    else if HasReceipt(receipts, hash) then Ok(false)
    else if fault == BeginFails then Err(StorageError)
    else if fault == InsertFails(0) then Err(StorageError)
    else if !ItemHeaderOk(csv) then Err(InvalidHeader)
    else if fault.InsertFails? && fault.statement <= |ItemBatch(csv)| then Err(StorageError)
    else if fault == CommitFails then Err(StorageError)
    else Ok(true)
  }

  // ---------------------------------------------------------------------
  // Reads
  // ---------------------------------------------------------------------

  function Price(it: Item): int { it.price }

  function ItemsOf(items: seq<Item>, hash: string): seq<Item> {
    Filter(items, (it: Item) => it.imageHash == hash)
  }

  /** `getReceiptTotal`: `SUM(price)` over the receipt's items, where the
      NULL of an empty sum becomes 0 through `|| 0`. */
  function ReceiptTotal(items: seq<Item>, hash: string): (r: int)
    ensures ItemsOf(items, hash) == [] ==> r == 0
  {
    SumOf(ItemsOf(items, hash), Price)
  }

  function FindReceipt(receipts: seq<ReceiptEntry>, hash: string): (r: Option<ReceiptEntry>)
    ensures r.None? <==> !HasReceipt(receipts, hash)
    ensures r.Some? ==> r.value in receipts && r.value.imageHash == hash
  {
    if receipts == [] then None
    else if receipts[0].imageHash == hash then Some(receipts[0])
    else
      var r := FindReceipt(receipts[1..], hash);
      assert HasReceipt(receipts, hash) <==> HasReceipt(receipts[1..], hash) by {
        if HasReceipt(receipts, hash) {
          var i :| 0 <= i < |receipts| && receipts[i].imageHash == hash;
          assert receipts[1..][i - 1].imageHash == hash;
        }
        if HasReceipt(receipts[1..], hash) {
          var i :| 0 <= i < |receipts[1..]| && receipts[1..][i].imageHash == hash;
          assert receipts[i + 1].imageHash == hash;
        }
      }
      r
  }

  datatype Details = Details(receipt: ReceiptEntry, items: seq<Item>)

  /** `getReceiptDetails`: the receipt with that hash and its items in id
      order, or a rejection when no receipt has the hash. */
  function ReceiptDetails(receipts: seq<ReceiptEntry>, items: seq<Item>, hash: string): (r: Result<Details, DbError>)
    ensures r.Err? <==> !HasReceipt(receipts, hash)
    ensures r.Err? ==> r.error == NotFound
    ensures r.Ok? ==> r.value.receipt in receipts && r.value.receipt.imageHash == hash
    ensures r.Ok? ==> forall k :: 0 <= k < |r.value.items| ==> r.value.items[k].imageHash == hash
    ensures r.Ok? && SortedBy(items, ItemBefore) ==> SortedBy(r.value.items, ItemBefore)
  {
    var found := FindReceipt(receipts, hash);
    if found.None? then Err(NotFound)
    else
      assert SortedBy(items, ItemBefore) ==> SortedBy(ItemsOf(items, hash), ItemBefore) by {
        if SortedBy(items, ItemBefore) {
          FilterKeepsOrder(items, (it: Item) => it.imageHash == hash, ItemBefore);
        }
      }
      Ok(Details(found.value, ItemsOf(items, hash)))
  }

  // ---------------------------------------------------------------------
  // Lemmas about the state a successful import leaves
  // ---------------------------------------------------------------------

  lemma {:induction false} ItemsOfNone(items: seq<Item>, receipts: seq<ReceiptEntry>, hash: string)
    requires ItemsHaveReceipts(items, receipts) && !HasReceipt(receipts, hash)
    ensures ItemsOf(items, hash) == []
  {
    if items != [] {
      assert HasReceipt(receipts, items[0].imageHash);
      assert items[0].imageHash != hash;
      assert ItemsHaveReceipts(items[1..], receipts) by {
        forall i | 0 <= i < |items[1..]| ensures HasReceipt(receipts, items[1..][i].imageHash) {
          assert items[1..][i] == items[i + 1];
        }
      }
      ItemsOfNone(items[1..], receipts, hash);
    }
  }

  lemma {:induction false} ItemsOfAllSame(batch: seq<NewItem>, hash: string, firstId: nat)
    ensures ItemsOf(NewItems(batch, hash, firstId), hash) == NewItems(batch, hash, firstId)
  {
    var r := NewItems(batch, hash, firstId);
    if r != [] {
      assert r == [r[0]] + r[1..];
      ItemsOfAll(r[1..], hash);
    }
  }

  lemma {:induction false} ItemsOfAll(items: seq<Item>, hash: string)
    requires forall k :: 0 <= k < |items| ==> items[k].imageHash == hash
    ensures ItemsOf(items, hash) == items
  {
    if items != [] {
      ItemsOfAll(items[1..], hash);
    }
  }

  lemma ItemsOfConcat(a: seq<Item>, b: seq<Item>, hash: string)
    ensures ItemsOf(a + b, hash) == ItemsOf(a, hash) + ItemsOf(b, hash)
  {
    FilterConcat(a, b, (it: Item) => it.imageHash == hash);
  }

  lemma {:induction false} SumOfNewItems(batch: seq<NewItem>, hash: string, firstId: nat)
    ensures SumOf(NewItems(batch, hash, firstId), Price) == SumOf(batch, (x: NewItem) => x.price)
  {
    if batch != [] {
      var init := batch[..|batch| - 1];
      var last := batch[|batch| - 1];
      SumOfNewItems(init, hash, firstId);
      SumOfConcat(NewItems(init, hash, firstId), [Item(firstId + |batch| - 1, hash, last.item, last.price)], Price);
      SumOfConcat(init, [last], (x: NewItem) => x.price);
      assert batch == init + [last];
    }
  }

  /** After a committed import of a new hash, the receipt's details list
      exactly the imported items, in line order, and its total is the sum
      of their prices. */
  lemma DetailsAfterImport(receipts: seq<ReceiptEntry>, items: seq<Item>, entry: ReceiptEntry,
                           batch: seq<NewItem>, firstId: nat)
    requires ItemsHaveReceipts(items, receipts) && !HasReceipt(receipts, entry.imageHash)
    ensures var items' := items + NewItems(batch, entry.imageHash, firstId);
      ReceiptDetails(receipts + [entry], items', entry.imageHash)
        == Ok(Details(entry, NewItems(batch, entry.imageHash, firstId))) &&
      ReceiptTotal(items', entry.imageHash) == SumOf(batch, (x: NewItem) => x.price)
  {
    var hash := entry.imageHash;
    var added := NewItems(batch, hash, firstId);
    ItemsOfNone(items, receipts, hash);
    ItemsOfConcat(items, added, hash);
    ItemsOfAllSame(batch, hash, firstId);
    assert ItemsOf(items + added, hash) == added;
    SumOfNewItems(batch, hash, firstId);
    FindAppendedEntry(receipts, entry);
  }

  lemma {:induction false} FindAppendedEntry(receipts: seq<ReceiptEntry>, entry: ReceiptEntry)
    requires !HasReceipt(receipts, entry.imageHash)
    ensures FindReceipt(receipts + [entry], entry.imageHash) == Some(entry)
  {
    if receipts != [] {
      assert (receipts + [entry])[1..] == receipts[1..] + [entry];
      forall i | 0 <= i < |receipts[1..]| ensures receipts[1..][i].imageHash != entry.imageHash {
        assert receipts[1..][i] == receipts[i + 1];
      }
      assert receipts[0].imageHash != entry.imageHash;
      FindAppendedEntry(receipts[1..], entry);
    }
  }

  /** The `receipts` row is committed even when no line holds a valid
      item, so importing the same image again resolves false, unless the
      lookup of the hash itself fails. */
  lemma ImportIsOnce(receipts: seq<ReceiptEntry>, entry: ReceiptEntry, csv: string, fault: Fault)
    ensures fault != LookupFails ==> SaveOutcome(receipts + [entry], csv, entry.imageHash, fault) == Ok(false)
    ensures fault == LookupFails ==> SaveOutcome(receipts + [entry], csv, entry.imageHash, fault) == Err(StorageError)
  {
    assert (receipts + [entry])[|receipts|] == entry;
  }

  // ---------------------------------------------------------------------
  // The tables
  // ---------------------------------------------------------------------

  class ItemTables {
    var receipts: seq<ReceiptEntry>
    var items: seq<Item>
    var nextReceiptId: nat
    var nextItemId: nat

    predicate Valid()
      reads this
    {
      nextReceiptId >= 1 && nextItemId >= 1 &&
      ReceiptsInvariant(receipts, nextReceiptId) &&
      ItemsInvariant(items, nextItemId) &&
      ItemsHaveReceipts(items, receipts)
    }

    /** `initializeDatabase` on a fresh file. */
    constructor ()
      ensures Valid()
      ensures receipts == [] && items == [] && nextReceiptId == 1 && nextItemId == 1
    {
      receipts := [];
      items := [];
      nextReceiptId := 1;
      nextItemId := 1;
    }

    /** `INSERT INTO receipts (image_hash) VALUES (?)` for a hash not yet
        present; `fails` is a storage failure. */
    method InsertReceipt(imageHash: string, createdAt: string, fails: bool) returns (ok: bool)
      requires Valid() && !HasReceipt(receipts, imageHash)
      modifies this
      ensures Valid()
      ensures ok == !fails
      ensures items == old(items) && nextItemId == old(nextItemId)
      ensures !ok ==> receipts == old(receipts) && nextReceiptId == old(nextReceiptId)
      ensures ok ==> receipts == old(receipts) + [ReceiptEntry(old(nextReceiptId), imageHash, createdAt)] &&
                     nextReceiptId == old(nextReceiptId) + 1
    {
      if fails {
        return false;
      }
      var entry := ReceiptEntry(nextReceiptId, imageHash, createdAt);
      ReceiptsAppend(receipts, nextReceiptId, entry);
      HasReceiptsAfterAppend(items, receipts, entry);
      receipts := receipts + [entry];
      nextReceiptId := nextReceiptId + 1;
      ok := true;
    }

    /** One `INSERT INTO receipt_items`; `fails` is a storage failure. */
    method InsertItem(imageHash: string, item: string, price: int, fails: bool) returns (ok: bool)
      requires Valid() && HasReceipt(receipts, imageHash)
      modifies this
      ensures Valid()
      ensures ok == !fails
      ensures receipts == old(receipts) && nextReceiptId == old(nextReceiptId)
      ensures !ok ==> items == old(items) && nextItemId == old(nextItemId)
      ensures ok ==> items == old(items) + [Item(old(nextItemId), imageHash, item, price)] &&
                     nextItemId == old(nextItemId) + 1
    {
      if fails {
        return false;
      }
      var it := Item(nextItemId, imageHash, item, price);
      ItemsAppend(items, nextItemId, it);
      items := items + [it];
      nextItemId := nextItemId + 1;
      ok := true;
    }

    /** The INSERT of one parsed item, as statement `statements + 1`. */
    method InsertNextItem(next: NewItem, statements: nat, fault: Fault,
                          ghost items0: seq<Item>, ghost next0: nat, ghost batch: seq<NewItem>,
                          imageHash: string)
      returns (ok: bool)
      requires Valid() && HasReceipt(receipts, imageHash)
      requires statements == |batch| && !ItemInsertFails(fault, statements)
      requires items == items0 + NewItems(batch, imageHash, next0) && nextItemId == next0 + statements
      modifies this
      ensures Valid()
      ensures ok == !ItemInsertFails(fault, statements + 1)
      ensures receipts == old(receipts) && nextReceiptId == old(nextReceiptId)
      ensures ok ==>
        items == items0 + NewItems(batch + [next], imageHash, next0) &&
        nextItemId == next0 + statements + 1
    {
      ok := InsertItem(imageHash, next.item, next.price, fault == InsertFails(statements + 1));
      NewItemsSnoc(batch, next, imageHash, next0);
    }

    /** The item INSERTs of the line loop, numbered from statement 1,
        stopping at the first that fails. The statements the source still
        issues after a failure are undone by the same ROLLBACK. */
    method InsertItems(parsed: seq<Option<NewItem>>, imageHash: string, fault: Fault) returns (failed: bool)
      requires Valid() && HasReceipt(receipts, imageHash)
      modifies this
      ensures Valid()
      ensures failed == ItemInsertFails(fault, |Present(parsed)|)
      ensures receipts == old(receipts) && nextReceiptId == old(nextReceiptId)
      ensures !failed ==>
        items == old(items) + NewItems(Present(parsed), imageHash, old(nextItemId)) &&
        nextItemId == old(nextItemId) + |Present(parsed)|
    {
      var statements := 0;
      var i := 0;
      ghost var batch: seq<NewItem> := [];
      while i < |parsed|
        invariant 0 <= i <= |parsed|
        invariant batch == Present(parsed[..i]) && statements == |batch|
        invariant Valid()
        invariant receipts == old(receipts) && nextReceiptId == old(nextReceiptId)
        invariant !ItemInsertFails(fault, statements)
        invariant items == old(items) + NewItems(batch, imageHash, old(nextItemId))
        invariant nextItemId == old(nextItemId) + statements
      {
        PresentStep(parsed, i);
        if parsed[i].Some? {
          var ok := InsertNextItem(parsed[i].value, statements, fault, old(items), old(nextItemId), batch, imageHash);
          statements := statements + 1;
          batch := batch + [parsed[i].value];
          if !ok {
            PresentPrefix(parsed, i + 1);
            ItemInsertFailsStable(fault, statements, |Present(parsed)|);
            return true;
          }
        }
        i := i + 1;
      }
      assert parsed[..i] == parsed;
      return false;
    }

    /** The part of the `parseAndSaveCSV` transaction after the `receipts`
        row: the header check, the item INSERTs and the COMMIT. A failure
        is what the whole transaction is rolled back with. */
    method ImportItems(csv: string, imageHash: string, fault: Fault) returns (failure: Option<DbError>)
      requires Valid() && HasReceipt(receipts, imageHash)
      modifies this
      ensures Valid()
      ensures receipts == old(receipts) && nextReceiptId == old(nextReceiptId)
      ensures failure ==
        if !ItemHeaderOk(csv) then Some(InvalidHeader)
        else if ItemInsertFails(fault, |ItemBatch(csv)|) || fault == CommitFails
        then Some(StorageError)
        else None
      ensures failure.None? ==>
        items == old(items) + NewItems(ItemBatch(csv), imageHash, old(nextItemId)) &&
        nextItemId == old(nextItemId) + |ItemBatch(csv)|
    {
      var lines := Split(Trim(csv), {'\n'});
      var header := Split(lines[0], {','});
      if header[0] != "item" || |header| < 2 || header[1] != "price" {
        return Some(InvalidHeader);
      }
      var failed := InsertItems(ParsedItems(lines[1..]), imageHash, fault);
      if failed || fault == CommitFails {
        return Some(StorageError);
      }
      return None;
    }

    /** `parseAndSaveCSV` of src/db.ts. */
    method ParseAndSaveCsv(csv: string, imageHash: string, createdAt: string, fault: Fault)
      returns (r: Result<bool, DbError>)
      requires Valid()
      modifies this
      ensures Valid()
      ensures r == SaveOutcome(old(receipts), csv, imageHash, fault)
      ensures r == Ok(true) ==>
        receipts == old(receipts) + [ReceiptEntry(old(nextReceiptId), imageHash, createdAt)] &&
        items == old(items) + NewItems(ItemBatch(csv), imageHash, old(nextItemId)) &&
        nextReceiptId == old(nextReceiptId) + 1 &&
        nextItemId == old(nextItemId) + |ItemBatch(csv)|
      ensures r != Ok(true) ==>
        receipts == old(receipts) && items == old(items) &&
        nextReceiptId == old(nextReceiptId) && nextItemId == old(nextItemId)
    {
      if fault == LookupFails {
        return Err(StorageError);
      }
      if HasReceipt(receipts, imageHash) {
        return Ok(false);
      }
      if fault == BeginFails {
        return Err(StorageError);
      }
      // BEGIN TRANSACTION
      var savedReceipts, savedItems := receipts, items;
      var savedReceiptId, savedItemId := nextReceiptId, nextItemId;
      var ok := InsertReceipt(imageHash, createdAt, fault == InsertFails(0));
      if !ok {
        return Err(StorageError);
      }
      assert receipts[|savedReceipts|].imageHash == imageHash;
      var failure := ImportItems(csv, imageHash, fault);
      if failure.Some? {
        // ROLLBACK
        receipts, items := savedReceipts, savedItems;
        nextReceiptId, nextItemId := savedReceiptId, savedItemId;
        return Err(failure.value);
      }
      // COMMIT
      return Ok(true);
    }
  }

  /** Whether one of the first `n` item INSERTs (statements 1..n) fails. */
  predicate ItemInsertFails(fault: Fault, n: nat) {
    fault.InsertFails? && 1 <= fault.statement <= n
  }

  lemma ItemInsertFailsStable(fault: Fault, n: nat, m: nat)
    requires ItemInsertFails(fault, n) && n <= m
    ensures ItemInsertFails(fault, m)
  {
  }

  lemma NewItemsSnoc(batch: seq<NewItem>, x: NewItem, hash: string, firstId: nat)
    ensures NewItems(batch + [x], hash, firstId) ==
      NewItems(batch, hash, firstId) + [Item(firstId + |batch|, hash, x.item, x.price)]
  {
    assert (batch + [x])[..|batch|] == batch;
  }

  lemma ReceiptsAppend(receipts: seq<ReceiptEntry>, nextId: nat, entry: ReceiptEntry)
    requires ReceiptsInvariant(receipts, nextId) && nextId >= 1
    requires !HasReceipt(receipts, entry.imageHash) && entry.id == nextId
    ensures ReceiptsInvariant(receipts + [entry], nextId + 1)
  {
    var r := receipts + [entry];
    forall i, j | 0 <= i < j < |r| ensures EntryBefore(r[i], r[j]) {
      if j == |receipts| {
        assert r[i] == receipts[i];
      } else {
        assert EntryBefore(receipts[i], receipts[j]);
      }
    }
  }

  lemma ItemsAppend(items: seq<Item>, nextId: nat, it: Item)
    requires ItemsInvariant(items, nextId) && nextId >= 1 && it.id == nextId
    ensures ItemsInvariant(items + [it], nextId + 1)
  {
    var r := items + [it];
    forall i, j | 0 <= i < j < |r| ensures ItemBefore(r[i], r[j]) {
      if j == |items| {
        assert r[i] == items[i];
      } else {
        assert ItemBefore(items[i], items[j]);
      }
    }
  }

  lemma HasReceiptsAfterAppend(items: seq<Item>, receipts: seq<ReceiptEntry>, entry: ReceiptEntry)
    requires ItemsHaveReceipts(items, receipts)
    ensures ItemsHaveReceipts(items, receipts + [entry])
  {
    forall i | 0 <= i < |items| ensures HasReceipt(receipts + [entry], items[i].imageHash) {
      var k :| 0 <= k < |receipts| && receipts[k].imageHash == items[i].imageHash;
      assert (receipts + [entry])[k] == receipts[k];
    }
  }
}
