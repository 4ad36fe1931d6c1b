/** The pure parts of the Google Drive listing and download service
    (packages/backend/src/download-service.ts): the folder forest built
    from parent ids, the RFC 3339 query bounds, the exact-date filter, the
    MIME-type tallies and the rule that skips files without id or name.
    The Drive API itself is not part of this model: its answers are
    parameters. */
module DriveListing {
  import opened Wrappers
  import opened JsText
  import opened Calendar
  import opened Sequences
  import opened Grouping
  import ReceiptStore

  /** A file as `drive.files.list` describes it; any field may be
      missing. */
  datatype DriveFile = DriveFile(
    id: Option<string>,
    name: Option<string>,
    mimeType: Option<string>,
    size: Option<string>,
    parents: Option<seq<string>>,
    createdTime: Option<string>)

  /** A JavaScript truth test of an optional text: missing and empty are
      both false. */
  predicate Truthy(s: Option<string>) {
    s.Some? && s.value != ""
  }

  /** `s || fallback`. */
  function OrElse(s: Option<string>, fallback: string): (r: string)
    ensures Truthy(s) ==> r == s.value
    ensures !Truthy(s) ==> r == fallback
  {
    if Truthy(s) then s.value else fallback
  }

  // ---------------------------------------------------------------------
  // buildFileStructure
  // ---------------------------------------------------------------------

  /** A node is known by its `id`, the key of `fileMap`; an `id` that is
      missing is the key `undefined`. */
  type NodeId = Option<string>

  /** `!file.parents || file.parents.length === 0`. */
  predicate IsRoot(f: DriveFile) {
    f.parents.None? || f.parents.value == []
  }

  /** The nodes of `fileMap`: a later file with the same id replaces the
      node of an earlier one. */
  function NodeMap(files: seq<DriveFile>): (r: map<NodeId, DriveFile>)
    ensures forall i :: 0 <= i < |files| ==> files[i].id in r
    ensures forall k :: k in r ==> r[k].id == k
  {
    if files == [] then map[]
    else
      var last := files[|files| - 1];
      var init := files[..|files| - 1];
      assert forall i :: 0 <= i < |init| ==> init[i] == files[i];
      NodeMap(init)[last.id := last]
  }

  /** `rootItems`: the ids of the files without parents, in input order. */
  function RootIds(files: seq<DriveFile>): seq<NodeId> {
    if files == [] then []
    else
      var last := files[|files| - 1];
      RootIds(files[..|files| - 1]) + (if IsRoot(last) then [last.id] else [])
  }

  /** How often `k` is listed among `parents`. */
  function ParentCount(parents: seq<string>, k: NodeId): nat {
    if parents == [] then 0
    else ParentCount(parents[..|parents| - 1], k) + (if Some(parents[|parents| - 1]) == k then 1 else 0)
  }

  /** The `children` of node `k`: every file that lists `k` among its
      parents, once per listing, in input order. */
  function ChildIds(files: seq<DriveFile>, k: NodeId): seq<NodeId> {
    if files == [] then []
    else
      var last := files[|files| - 1];
      ChildIds(files[..|files| - 1], k) +
      (if IsRoot(last) then [] else seq(ParentCount(last.parents.value, k), _ => last.id))
  }

  /** The forest `buildFileStructure` returns: the root ids, the node of
      every id, and the children of every node. A parent id that is not
      the id of a listed file has no node, so nothing is attached to it. */
  method BuildFileStructure(files: seq<DriveFile>)
    returns (roots: seq<NodeId>, nodes: map<NodeId, DriveFile>, children: map<NodeId, seq<NodeId>>)
    ensures nodes == NodeMap(files)
    ensures roots == RootIds(files)
    ensures forall k :: k in children <==> k in nodes
    ensures forall k :: k in children ==> children[k] == ChildIds(files, k)
  {
    nodes, children := MapFiles(files);
    roots := [];
    var i := 0;
    while i < |files|
      invariant 0 <= i <= |files|
      invariant roots == RootIds(files[..i])
      invariant forall k :: k in children <==> k in nodes
      invariant forall k :: k in children ==> children[k] == ChildIds(files[..i], k)
    {
      var file := files[i];
      if IsRoot(file) {
        RootStep(files, i);
        roots := roots + [file.id];
      } else {
        ghost var before := children;
        children := AttachToParents(children, file);
        ChildStep(files, i, before, children);
      }
      i := i + 1;
    }
    assert files[..i] == files;
  }

  /** A file without parents joins the roots and no node's children. */
  lemma RootStep(files: seq<DriveFile>, i: nat)
    requires i < |files| && IsRoot(files[i])
    ensures RootIds(files[..i + 1]) == RootIds(files[..i]) + [files[i].id]
    ensures forall k :: ChildIds(files[..i + 1], k) == ChildIds(files[..i], k)
  {
    assert files[..i + 1][..i] == files[..i];
  }

  /** A file with parents joins the children of the nodes it lists and not
      the roots. */
  lemma ChildStep(files: seq<DriveFile>, i: nat, before: map<NodeId, seq<NodeId>>, after: map<NodeId, seq<NodeId>>)
    requires i < |files| && !IsRoot(files[i])
    requires forall k :: k in before ==> before[k] == ChildIds(files[..i], k)
    requires forall k :: k in after <==> k in before
    requires forall k :: k in after ==> after[k] == before[k] + seq(ParentCount(files[i].parents.value, k), _ => files[i].id)
    ensures RootIds(files[..i + 1]) == RootIds(files[..i])
    ensures forall k :: k in after ==> after[k] == ChildIds(files[..i + 1], k)
  {
    assert files[..i + 1][..i] == files[..i];
  }

  /** The first `forEach`: every file gets a node with no children yet. */
  method MapFiles(files: seq<DriveFile>) returns (nodes: map<NodeId, DriveFile>, children: map<NodeId, seq<NodeId>>)
    ensures nodes == NodeMap(files)
    ensures forall k :: k in children <==> k in nodes
    ensures forall k :: k in children ==> children[k] == []
  {
    nodes, children := map[], map[];
    var i := 0;
    while i < |files|
      invariant 0 <= i <= |files|
      invariant nodes == NodeMap(files[..i])
      invariant forall k :: k in children <==> k in nodes
      invariant forall k :: k in children ==> children[k] == []
    {
      assert files[..i + 1][..i] == files[..i];
      nodes := nodes[files[i].id := files[i]];
      children := children[files[i].id := []];
      i := i + 1;
    }
    assert files[..i] == files;
  }

  /** `file.parents.forEach`: the file joins the children of every listed
      parent that has a node. */
  method AttachToParents(children: map<NodeId, seq<NodeId>>, file: DriveFile)
    returns (after: map<NodeId, seq<NodeId>>)
    requires !IsRoot(file)
    ensures forall k :: k in after <==> k in children
    ensures forall k :: k in after ==> after[k] == children[k] + seq(ParentCount(file.parents.value, k), _ => file.id)
  {
    var parents := file.parents.value;
    after := children;
    var t := 0;
    while t < |parents|
      invariant 0 <= t <= |parents|
      invariant forall k :: k in after <==> k in children
      invariant forall k :: k in after ==> after[k] == children[k] + seq(ParentCount(parents[..t], k), _ => file.id)
    {
      assert parents[..t + 1][..t] == parents[..t];
      var parentId := parents[t];
      if Some(parentId) in after {
        after := after[Some(parentId) := after[Some(parentId)] + [file.id]];
      }
      t := t + 1;
    }
    assert parents[..t] == parents;
  }

  function IdsOf(fs: seq<DriveFile>): (r: seq<NodeId>)
    ensures |r| == |fs| && forall i :: 0 <= i < |fs| ==> r[i] == fs[i].id
  {
    seq(|fs|, i requires 0 <= i < |fs| => fs[i].id)
  }

  /** The roots are the files without parents, in input order. */
  lemma {:induction false} RootsAreParentless(files: seq<DriveFile>)
    ensures RootIds(files) == IdsOf(Filter(files, IsRoot))
  {
    if files != [] {
      var init, last := files[..|files| - 1], files[|files| - 1];
      RootsAreParentless(init);
      assert files == init + [last];
      FilterConcat(init, [last], IsRoot);
      assert Filter([last], IsRoot) == if IsRoot(last) then [last] else [];
    }
  }

  lemma {:induction false} ParentCountPositive(parents: seq<string>, k: NodeId)
    ensures ParentCount(parents, k) > 0 <==> exists j :: 0 <= j < |parents| && Some(parents[j]) == k
  {
    if parents != [] {
      var init := parents[..|parents| - 1];
      ParentCountPositive(init, k);
      if exists j :: 0 <= j < |init| && Some(init[j]) == k {
        var j :| 0 <= j < |init| && Some(init[j]) == k;
        assert parents[j] == init[j];
      }
      if exists j :: 0 <= j < |parents| && Some(parents[j]) == k {
        var j :| 0 <= j < |parents| && Some(parents[j]) == k;
        if j < |init| { assert init[j] == parents[j]; }
      }
    }
  }

  /** A file lists parent `k`. */
  predicate ListsParent(f: DriveFile, k: NodeId) {
    !IsRoot(f) && exists j :: 0 <= j < |f.parents.value| && Some(f.parents.value[j]) == k
  }

  /** A node's children are exactly the files that list it as a parent. */
  lemma {:induction false} ChildrenListParent(files: seq<DriveFile>, k: NodeId, x: NodeId)
    ensures x in ChildIds(files, k) <==> exists i :: 0 <= i < |files| && files[i].id == x && ListsParent(files[i], k)
  {
    if files != [] {
      var init, last := files[..|files| - 1], files[|files| - 1];
      ChildrenListParent(init, k, x);
      if !IsRoot(last) {
        ParentCountPositive(last.parents.value, k);
      }
      var tail := if IsRoot(last) then [] else seq(ParentCount(last.parents.value, k), _ => last.id);
      assert ChildIds(files, k) == ChildIds(init, k) + tail;
      if !IsRoot(last) && ParentCount(last.parents.value, k) > 0 {
        assert tail[0] == last.id;
      }
      assert x in tail <==> (last.id == x && ListsParent(last, k));
      if exists i :: 0 <= i < |init| && init[i].id == x && ListsParent(init[i], k) {
        var i :| 0 <= i < |init| && init[i].id == x && ListsParent(init[i], k);
        assert files[i] == init[i];
      }
      if exists i :: 0 <= i < |files| && files[i].id == x && ListsParent(files[i], k) {
        var i :| 0 <= i < |files| && files[i].id == x && ListsParent(files[i], k);
        if i < |init| { assert init[i] == files[i]; }
      }
    }
  }

  /** The roots are the ids of the files without parents. */
  lemma {:induction false} RootMember(files: seq<DriveFile>, x: NodeId)
    ensures x in RootIds(files) <==> exists i :: 0 <= i < |files| && files[i].id == x && IsRoot(files[i])
  {
    if files != [] {
      var init := files[..|files| - 1];
      RootMember(init, x);
      if exists i :: 0 <= i < |init| && init[i].id == x && IsRoot(init[i]) {
        var i :| 0 <= i < |init| && init[i].id == x && IsRoot(init[i]);
        assert files[i] == init[i];
      }
      if exists i :: 0 <= i < |files| && files[i].id == x && IsRoot(files[i]) {
        var i :| 0 <= i < |files| && files[i].id == x && IsRoot(files[i]);
        if i < |init| { assert init[i] == files[i]; }
      }
    }
  }

  /** The nodes are the ids of the files. */
  lemma {:induction false} NodeMapKeys(files: seq<DriveFile>, k: NodeId)
    ensures k in NodeMap(files) <==> exists i :: 0 <= i < |files| && files[i].id == k
  {
    if files != [] {
      var init := files[..|files| - 1];
      NodeMapKeys(init, k);
      if exists i :: 0 <= i < |init| && init[i].id == k {
        var i :| 0 <= i < |init| && init[i].id == k;
        assert files[i] == init[i];
      }
    }
  }

  predicate UniqueIds(files: seq<DriveFile>) {
    forall i, j :: 0 <= i < j < |files| ==> files[i].id != files[j].id
  }

  /** With unique ids every file is its own node. */
  lemma {:induction false} NodeOfUniqueId(files: seq<DriveFile>, i: nat)
    requires UniqueIds(files) && i < |files|
    ensures NodeMap(files)[files[i].id] == files[i]
  {
    var init := files[..|files| - 1];
    if i < |init| {
      assert init[i] == files[i];
      NodeOfUniqueId(init, i);
    }
  }

  /** A file whose parents are all missing from the listing is neither a
      root nor anybody's child: it drops out of the forest. */
  lemma OrphanDropsOut(files: seq<DriveFile>, i: nat)
    requires UniqueIds(files) && i < |files| && !IsRoot(files[i])
    requires forall q :: q in files[i].parents.value ==> Some(q) !in NodeMap(files)
    ensures files[i].id !in RootIds(files)
    ensures forall k :: k in NodeMap(files) ==> files[i].id !in ChildIds(files, k)
  {
    var f := files[i];
    RootMember(files, f.id);
    forall k | k in NodeMap(files) ensures f.id !in ChildIds(files, k) {
      ChildrenListParent(files, k, f.id);
      forall i' | 0 <= i' < |files| && files[i'].id == f.id ensures !ListsParent(files[i'], k) {
        assert i' == i;
        forall j | 0 <= j < |f.parents.value| ensures Some(f.parents.value[j]) != k {
          assert f.parents.value[j] in f.parents.value;
        }
      }
    }
  }

  // ---------------------------------------------------------------------
  // RFC 3339 bounds and the Drive queries
  // ---------------------------------------------------------------------

  /** `time-secfrac` of section 5.6 of RFC 3339, or nothing. */
  predicate IsSecondFraction(s: string) {
    s == [] || (|s| >= 2 && s[0] == '.' && AllDigits(s[1..]))
  }

  /** A `date-time` of section 5.6 of RFC 3339 in UTC, the form Drive uses
      for `createdTime`: `YYYY-MM-DDTHH:MM:SS`, an optional fraction of a
      second, then `Z`. */
  predicate IsUtcDateTime(s: string) {
    |s| >= 20 && IsRealIsoDate(s[..10]) && s[10] == 'T' && IsClockText(s[11..19]) &&
    s[|s| - 1] == 'Z' && IsSecondFraction(s[19..|s| - 1])
  }

  /** `${date}T00:00:00Z`, the first second of a day. */
  function DayStart(date: string): string {
    date + "T00:00:00Z"
  }

  /** `${date}T23:59:59Z`, the last second of a day. */
  function DayEnd(date: string): string {
    date + "T23:59:59Z"
  }

  lemma MidnightAndLastSecond()
    ensures IsClockText("00:00:00") && IsClockText("23:59:59")
  {
    assert "00:00:00"[..2] == "00" && "00:00:00"[3..5] == "00" && "00:00:00"[6..] == "00";
    assert "23:59:59"[..2] == "23" && "23:59:59"[3..5] == "59" && "23:59:59"[6..] == "59";
    assert DigitsValue("00") == 0;
    assert DigitsValue("23") == 23 && DigitsValue("59") == 59 by {
      assert "23"[..1] == "2" && "59"[..1] == "5";
    }
  }

  /** A ten-character day followed by `T`, a clock and `Z` is an RFC 3339
      date-time exactly when the day is a real date. */
  lemma DayAtClock(date: string, clock: string)
    requires |date| == 10 && IsClockText(clock)
    ensures IsUtcDateTime(date + "T" + clock + "Z") <==> IsRealIsoDate(date)
  {
    var s := date + "T" + clock + "Z";
    assert s[..10] == date && s[10] == 'T' && s[11..19] == clock && s[19..|s| - 1] == [];
  }

  /** For a ten-character day, both bounds are RFC 3339 date-times exactly
      when the day is a real `YYYY-MM-DD` date; the day starts before it
      ends. */
  lemma DayBoundsAreUtc(date: string)
    ensures |date| == 10 ==> (IsUtcDateTime(DayStart(date)) <==> IsRealIsoDate(date))
    ensures |date| == 10 ==> (IsUtcDateTime(DayEnd(date)) <==> IsRealIsoDate(date))
    ensures LexLess(DayStart(date), DayEnd(date))
  {
    if |date| == 10 {
      MidnightAndLastSecond();
      DayAtClock(date, "00:00:00");
      DayAtClock(date, "23:59:59");
      assert DayStart(date) == date + "T" + "00:00:00" + "Z";
      assert DayEnd(date) == date + "T" + "23:59:59" + "Z";
    }
    LexLessCommonPrefix(date + "T", "00:00:00Z", "23:59:59Z");
    assert DayStart(date) == (date + "T") + "00:00:00Z" && DayEnd(date) == (date + "T") + "23:59:59Z";
  }

  const Untrashed := "trashed = false"

  /** `createdTime >= '<start>T00:00:00Z'`. */
  function LowerBound(start: string): string {
    "createdTime >= '" + DayStart(start) + "'"
  }

  /** `createdTime <= '<end>T23:59:59Z'`. */
  function UpperBound(end: string): string {
    "createdTime <= '" + DayEnd(end) + "'"
  }

  /** The trash and time conditions every listing query ends with. */
  function TimeClause(start: string, end: string): string {
    Untrashed + " and " + LowerBound(start) + " and " + UpperBound(end)
  }

  const ImageClause := "mimeType contains 'image/'"

  /** The images and videos the backward-compatible queries ask for. */
  const ImageTypes := "(" + ImageClause + " or mimeType contains 'video/')"

  /** The six MIME conditions of the default document query. */
  const DocumentTypes := "(" + ImageClause + " or mimeType contains 'video/' or mimeType contains 'pdf' or mimeType contains 'document' or mimeType contains 'text/' or mimeType contains 'application/')"

  /** The query of `getFilesByDateRange` (and of `getFilesByDate` with
      equal bounds): every file type, or the document types only. */
  function FilesQuery(start: string, end: string, includeAllTypes: bool): string {
    if includeAllTypes then TimeClause(start, end)
    else DocumentTypes + " and " + TimeClause(start, end)
  }

  /** The query of `getImagesByDateRange` and `getImagesByDate`. */
  function ImagesQuery(start: string, end: string): string {
    ImageTypes + " and " + TimeClause(start, end)
  }

  /** The time clause asks for untrashed files and holds both inclusive
      bounds. */
  lemma TimeClauseMentions(start: string, end: string)
    ensures Contains(TimeClause(start, end), Untrashed)
    ensures Contains(TimeClause(start, end), LowerBound(start))
    ensures Contains(TimeClause(start, end), UpperBound(end))
  {
    ContainsOddPieces(Untrashed, " and ", LowerBound(start), " and ", UpperBound(end));
  }

  /** A string that ends with `t` contains whatever `t` contains. */
  lemma {:induction false} ContainsInSuffix(p: string, t: string, sub: string)
    requires Contains(t, sub)
    ensures Contains(p + t, sub)
    decreases |p|
  {
    if p == [] {
      assert p + t == t;
    } else {
      assert (p + t)[1..] == p[1..] + t;
      ContainsInSuffix(p[1..], t, sub);
    }
  }

  /** A query that ends with the time clause keeps its three conditions. */
  lemma EndsWithTimeClause(p: string, start: string, end: string)
    ensures var q := p + TimeClause(start, end);
      Contains(q, Untrashed) && Contains(q, LowerBound(start)) && Contains(q, UpperBound(end))
  {
    TimeClauseMentions(start, end);
    ContainsInSuffix(p, TimeClause(start, end), Untrashed);
    ContainsInSuffix(p, TimeClause(start, end), LowerBound(start));
    ContainsInSuffix(p, TimeClause(start, end), UpperBound(end));
  }

  /** Every files query asks for untrashed files created within both
      inclusive bounds, and one restricted by type asks for images. */
  lemma FilesQueryMentions(start: string, end: string, includeAllTypes: bool)
    ensures var q := FilesQuery(start, end, includeAllTypes);
      Contains(q, Untrashed) && Contains(q, LowerBound(start)) && Contains(q, UpperBound(end))
    ensures !includeAllTypes ==> Contains(FilesQuery(start, end, includeAllTypes), ImageClause)
  {
    var t := TimeClause(start, end);
    if includeAllTypes {
      EndsWithTimeClause([], start, end);
      assert [] + t == t;
    } else {
      EndsWithTimeClause(DocumentTypes + " and ", start, end);
      var others := " or mimeType contains 'video/' or mimeType contains 'pdf' or mimeType contains 'document' or mimeType contains 'text/' or mimeType contains 'application/')";
      ContainsMiddle("(", ImageClause, others + " and " + t);
      assert FilesQuery(start, end, false) == "(" + ImageClause + (others + " and " + t);
    }
  }

  /** The images query asks for untrashed images created within both
      inclusive bounds. */
  lemma ImagesQueryMentions(start: string, end: string)
    ensures var q := ImagesQuery(start, end);
      Contains(q, Untrashed) && Contains(q, LowerBound(start)) && Contains(q, UpperBound(end)) &&
      Contains(q, ImageClause)
  {
    var t := TimeClause(start, end);
    EndsWithTimeClause(ImageTypes + " and ", start, end);
    var videos := " or mimeType contains 'video/')";
    ContainsMiddle("(", ImageClause, videos + " and " + t);
    assert ImagesQuery(start, end) == "(" + ImageClause + (videos + " and " + t);
  }

  /** `getImagesByMonth`'s range: the first of the month and the last day
      the Date constructor reports, written without padding. */
  function MonthRange(year: int, month: int): (string, string) {
    (ReceiptStore.MonthStart(year, month),
     IntToString(year) + "-" + PadStart2(IntToString(month)) + "-" + IntToString(JsLastDayOfMonth(year, month)))
  }

  /** For a four-digit year the month range runs from the `YYYY-MM-01` of
      the month to its last day under the Gregorian rules, leap Februaries
      included; both ends are real dates. */
  lemma MonthRangeBounds(year: int, month: int)
    requires 1000 <= year <= 9999 && 1 <= month <= 12
    ensures MonthRange(year, month).0 == IsoDate(year, month, 1)
    ensures MonthRange(year, month).1 == IsoDate(year, month, DaysInMonth(year, month))
    ensures IsRealIsoDate(MonthRange(year, month).0) && IsRealIsoDate(MonthRange(year, month).1)
  {
    ReceiptStore.MonthStartIsIsoDate(year, month);
    MonthRangeEnd(year, month);
    IsoDateFields(year, month, 1);
    IsoDateFields(year, month, DaysInMonth(year, month));
  }

  /** The upper end of the month range is the month's last day, padded. */
  lemma MonthRangeEnd(year: int, month: int)
    requires 1000 <= year <= 9999 && 1 <= month <= 12
    ensures MonthRange(year, month).1 == IsoDate(year, month, DaysInMonth(year, month))
  {
    var last := DaysInMonth(year, month);
    ReceiptStore.FourDigitYear(year);
    PadStart2Digits(month);
    LastDayDigits(year, month);
    var Y, M, D := Digits(year, 4), Digits(month, 2), Digits(last, 2);
    assert MonthRange(year, month).1 == Y + "-" + M + "-" + D;
    ConcatRight(Y, "-", M, "-", D);
    assert IsoDate(year, month, last) == Y + ("-" + (M + ("-" + D)));
  }

  /** The day the Date constructor reports as the month's last is written
      with two digits. */
  lemma LastDayDigits(year: int, month: int)
    requires 1000 <= year <= 9999 && 1 <= month <= 12
    ensures IntToString(JsLastDayOfMonth(year, month)) == Digits(DaysInMonth(year, month), 2)
  {
    LastDayIsMonthLength(year, month);
    assert Pow10(1) == 10 && Pow10(2) == 100;
    NatToStringFixedWidth(DaysInMonth(year, month), 2);
  }

  /** A real date of a four-digit year lies within the month range of a
      four-digit year exactly when it is a day of that month. */
  lemma MonthRangeHoldsTheMonth(year: int, month: int, y: nat, m: nat, d: nat)
    requires 1000 <= year <= 9999 && 1 <= month <= 12
    requires y <= 9999 && 1 <= m <= 12 && 1 <= d <= DaysInMonth(y, m)
    ensures var r := MonthRange(year, month);
      (!LexLess(IsoDate(y, m, d), r.0) && !LexLess(r.1, IsoDate(y, m, d))) <==> (y == year && m == month)
  {
    var last := DaysInMonth(year, month);
    MonthRangeBounds(year, month);
    IsoDateOrder(y, m, d, year, month, 1);
    IsoDateOrder(year, month, last, y, m, d);
  }

  /** The query `getImagesByMonth` sends. */
  function MonthImagesQuery(year: int, month: int): string {
    ImagesQuery(MonthRange(year, month).0, MonthRange(year, month).1)
  }

  /** The month query's bounds are RFC 3339 date-times: midnight of the
      first day and the last second of the last day. */
  lemma MonthImagesQueryBounds(year: int, month: int)
    requires 1000 <= year <= 9999 && 1 <= month <= 12
    ensures var q := MonthImagesQuery(year, month);
      Contains(q, LowerBound(IsoDate(year, month, 1))) &&
      Contains(q, UpperBound(IsoDate(year, month, DaysInMonth(year, month)))) &&
      IsUtcDateTime(DayStart(IsoDate(year, month, 1))) &&
      IsUtcDateTime(DayEnd(IsoDate(year, month, DaysInMonth(year, month))))
  {
    var r := MonthRange(year, month);
    MonthRangeBounds(year, month);
    ImagesQueryMentions(r.0, r.1);
    assert DayStart(IsoDate(year, month, 1)) == DayStart(r.0);
    DayBoundsAreUtc(r.0);
    DayBoundsAreUtc(r.1);
  }

  /** `${year}${month.padStart(2, '0')}`, the folder of a month's
      downloads. */
  function MonthFolder(year: int, month: int): string {
    IntToString(year) + PadStart2(IntToString(month))
  }

  /** For a four-digit year the folder is the six digits `YYYYMM`. */
  lemma MonthFolderDigits(year: int, month: int)
    requires 1000 <= year <= 9999 && 1 <= month <= 12
    ensures MonthFolder(year, month) == Digits(year, 4) + Digits(month, 2)
    ensures |MonthFolder(year, month)| == 6 && AllDigits(MonthFolder(year, month))
  {
    ReceiptStore.FourDigitYear(year);
    PadStart2Digits(month);
  }

  // ---------------------------------------------------------------------
  // The exact-date fallback of getFilesByDate
  // ---------------------------------------------------------------------

  /** `new Date(createdTime).toISOString()` throws a RangeError. */
  datatype DateError = InvalidTime

  /** A file the filter callback can judge: it has no `createdTime`, or one
      that reads as a date-time. */
  predicate Readable(f: DriveFile) {
    !Truthy(f.createdTime) || IsUtcDateTime(f.createdTime.value)
  }

  /** The UTC date part of the file's `createdTime` is `date`. */
  predicate CreatedOn(f: DriveFile, date: string) {
    Truthy(f.createdTime) && IsUtcDateTime(f.createdTime.value) && f.createdTime.value[..10] == date
  }

  /** `broadFiles.filter(...)`: a file without `createdTime` is dropped, a
      file whose UTC date is `date` is kept, and an unreadable time makes
      the whole call reject. */
  function KeepExactDate(files: seq<DriveFile>, date: string): (r: Result<seq<DriveFile>, DateError>)
    ensures r.Ok? <==> forall i :: 0 <= i < |files| ==> Readable(files[i])
    ensures r.Ok? ==> r.value == Filter(files, f => CreatedOn(f, date))
  {
    if files == [] then Ok([])
    else if !Readable(files[0]) then Err(InvalidTime)
    else
      match KeepExactDate(files[1..], date)
      case Err(e) => Err(e)
      case Ok(rest) => Ok((if CreatedOn(files[0], date) then [files[0]] else []) + rest)
  }

  /** `getFilesByDate` given the answers of the exact query and of the
      broader one: the exact answer when it is not empty, otherwise the
      broader answer narrowed to the day. */
  function FilesByDate(exact: seq<DriveFile>, broad: seq<DriveFile>, date: string): (r: Result<seq<DriveFile>, DateError>)
    ensures exact != [] ==> r == Ok(exact)
    ensures exact == [] ==> (r.Ok? <==> forall i :: 0 <= i < |broad| ==> Readable(broad[i]))
    ensures exact == [] && r.Ok? ==> forall f :: f in r.value <==> f in broad && CreatedOn(f, date)
  {
    if exact != [] then Ok(exact)
    else
      var r := KeepExactDate(broad, date);
      assert forall f :: r.Ok? ==> (f in r.value <==> f in broad && CreatedOn(f, date)) by {
        forall f | r.Ok? ensures f in r.value <==> f in broad && CreatedOn(f, date) {
          FilterMember(broad, f' => CreatedOn(f', date), f);
        }
      }
      r
  }

  // ---------------------------------------------------------------------
  // MIME-type tallies
  // ---------------------------------------------------------------------

  /** `file.mimeType || 'unknown'`. */
  function TypeOf(f: DriveFile): string {
    OrElse(f.mimeType, "unknown")
  }

  /** `tally` holds the `fileTypes` counts of the files `fs`. */
  ghost predicate TallyMatch(tally: map<string, nat>, fs: seq<DriveFile>) {
    (forall t :: t in tally <==> t in KeySet(fs, TypeOf)) &&
    (forall t :: t in tally ==> tally[t] == |Group(fs, TypeOf, t)|)
  }

  /** `acc[type] = (acc[type] || 0) + 1` counts one more file. */
  lemma TallyStep(files: seq<DriveFile>, i: nat, before: map<string, nat>, after: map<string, nat>)
    requires i < |files|
    requires TallyMatch(before, files[..i])
    requires after == before[TypeOf(files[i]) := (if TypeOf(files[i]) in before then before[TypeOf(files[i])] else 0) + 1]
    ensures TallyMatch(after, files[..i + 1])
  {
    var fs, x := files[..i], files[i];
    var t := TypeOf(x);
    TakeSnoc(files, i);
    KeySetSnoc(fs, TypeOf, x);
    if t !in before {
      GroupOfUnseen(fs, TypeOf, t);
    }
    forall t' | t' in after ensures after[t'] == |Group(fs + [x], TypeOf, t')| {
      GroupSnoc(fs, TypeOf, x, t');
    }
  }

  /** The `fileTypes` reduce: the number of files of each type. */
  method TallyFileTypes(files: seq<DriveFile>) returns (tally: map<string, nat>)
    ensures forall t :: t in tally <==> t in KeySet(files, TypeOf)
    ensures forall t :: t in tally ==> tally[t] == |Group(files, TypeOf, t)|
  {
    tally := map[];
    var i := 0;
    while i < |files|
      invariant 0 <= i <= |files|
      invariant TallyMatch(tally, files[..i])
    {
      ghost var before := tally;
      var t := TypeOf(files[i]);
      tally := tally[t := (if t in tally then tally[t] else 0) + 1];
      TallyStep(files, i, before, tally);
      i := i + 1;
    }
    assert files[..i] == files;
  }

  /** The tallies count every file once: summed over the types in the
      order they were first seen, they give the number of files. */
  lemma TallyCountsEveryFile(files: seq<DriveFile>)
    ensures SumOf(Keys(files, TypeOf), t => |Group(files, TypeOf, t)|) == |files|
    ensures forall t :: t in Keys(files, TypeOf) <==> t in KeySet(files, TypeOf)
  {
    GroupSizesAddUp(files, TypeOf);
    forall t | t in Keys(files, TypeOf) ensures t in KeySet(files, TypeOf) {
      KeysOccur(files, TypeOf, t);
    }
  }

  /** `{ count, examples }` of one MIME type. */
  datatype TypeStats = TypeStats(count: nat, examples: seq<string>)

  /** `file.name || 'unnamed'`. */
  function NameOf(f: DriveFile): string {
    OrElse(f.name, "unnamed")
  }

  function Names(fs: seq<DriveFile>): (r: seq<string>)
    ensures |r| == |fs| && forall i :: 0 <= i < |fs| ==> r[i] == NameOf(fs[i])
  {
    seq(|fs|, i requires 0 <= i < |fs| => NameOf(fs[i]))
  }

  /** At most the first three entries. */
  function FirstThree(s: seq<string>): (r: seq<string>)
    ensures |r| == if |s| < 3 then |s| else 3
    ensures r == s[..|r|]
  {
    if |s| <= 3 then s else s[..3]
  }

  /** Pushing onto a list that is capped at three. */
  lemma FirstThreeSnoc(s: seq<string>, x: string)
    ensures FirstThree(s + [x]) == if |FirstThree(s)| < 3 then FirstThree(s) + [x] else FirstThree(s)
  {
    if |s| >= 3 {
      assert (s + [x])[..3] == s[..3];
    }
  }

  /** What `mimeTypeStats` holds for type `t` after the files `fs`. */
  function StatsOf(fs: seq<DriveFile>, t: string): TypeStats {
    TypeStats(|Group(fs, TypeOf, t)|, FirstThree(Names(Group(fs, TypeOf, t))))
  }

  lemma NamesSnoc(fs: seq<DriveFile>, x: DriveFile)
    ensures Names(fs + [x]) == Names(fs) + [NameOf(x)]
  {
  }

  /** `count++` and, below three examples, `examples.push(name)`. */
  function Bump(entry: TypeStats, name: string): TypeStats {
    TypeStats(entry.count + 1, if |entry.examples| < 3 then entry.examples + [name] else entry.examples)
  }

  /** One more file: the stats of its type count it and take its name if
      fewer than three are kept; the other types stay as they were. */
  lemma StatsSnoc(fs: seq<DriveFile>, x: DriveFile, t: string)
    ensures StatsOf(fs + [x], t) == if TypeOf(x) == t then Bump(StatsOf(fs, t), NameOf(x)) else StatsOf(fs, t)
  {
    GroupSnoc(fs, TypeOf, x, t);
    if TypeOf(x) == t {
      var g := Group(fs, TypeOf, t);
      NamesSnoc(g, x);
      FirstThreeSnoc(Names(g), NameOf(x));
    }
  }

  /** `stats` holds what the reduce has gathered from the files `fs`. */
  ghost predicate StatsMatch(stats: map<string, TypeStats>, fs: seq<DriveFile>) {
    (forall t :: t in stats <==> t in KeySet(fs, TypeOf)) &&
    (forall t :: t in stats ==> stats[t] == StatsOf(fs, t))
  }

  /** One more file: a type seen for the first time gets `{ count: 0,
      examples: [] }`, then its entry is bumped. */
  lemma StatsMatchStep(files: seq<DriveFile>, i: nat,
                       before: map<string, TypeStats>, mid: map<string, TypeStats>, after: map<string, TypeStats>)
    requires i < |files|
    requires StatsMatch(before, files[..i])
    requires TypeOf(files[i]) in before ==> mid == before
    requires TypeOf(files[i]) !in before ==> mid == before[TypeOf(files[i]) := TypeStats(0, [])]
    requires TypeOf(files[i]) in mid && after == mid[TypeOf(files[i]) := Bump(mid[TypeOf(files[i])], NameOf(files[i]))]
    ensures StatsMatch(after, files[..i + 1])
  {
    StatsDomainStep(files, i, before, mid, after);
    TakeSnoc(files, i);
    StatsValuesStep(files[..i], files[i], files[..i + 1], before, mid, after);
  }

  lemma StatsDomainStep(files: seq<DriveFile>, i: nat,
                        before: map<string, TypeStats>, mid: map<string, TypeStats>, after: map<string, TypeStats>)
    requires i < |files|
    requires forall t :: t in before <==> t in KeySet(files[..i], TypeOf)
    requires TypeOf(files[i]) in before ==> mid == before
    requires TypeOf(files[i]) !in before ==> mid == before[TypeOf(files[i]) := TypeStats(0, [])]
    requires TypeOf(files[i]) in mid && after == mid[TypeOf(files[i]) := Bump(mid[TypeOf(files[i])], NameOf(files[i]))]
    ensures forall t :: t in after <==> t in KeySet(files[..i + 1], TypeOf)
  {
    KeySetStep(files, TypeOf, i);
  }

  lemma StatsValuesStep(fs: seq<DriveFile>, x: DriveFile, grown: seq<DriveFile>,
                        before: map<string, TypeStats>, mid: map<string, TypeStats>, after: map<string, TypeStats>)
    requires grown == fs + [x]
    requires forall t :: t in before <==> t in KeySet(fs, TypeOf)
    requires forall t :: t in before ==> before[t] == StatsOf(fs, t)
    requires TypeOf(x) in before ==> mid == before
    requires TypeOf(x) !in before ==> mid == before[TypeOf(x) := TypeStats(0, [])]
    requires TypeOf(x) in mid && after == mid[TypeOf(x) := Bump(mid[TypeOf(x)], NameOf(x))]
    ensures forall t :: t in after ==> after[t] == StatsOf(grown, t)
  {
    forall t | t in after ensures after[t] == StatsOf(grown, t) {
      StatsValueAt(fs, x, before, mid, after, t);
    }
  }

  lemma StatsValueAt(fs: seq<DriveFile>, x: DriveFile,
                     before: map<string, TypeStats>, mid: map<string, TypeStats>, after: map<string, TypeStats>, t: string)
    requires t in after
    requires TypeOf(x) !in before ==> TypeOf(x) !in KeySet(fs, TypeOf)
    requires t in before ==> before[t] == StatsOf(fs, t)
    requires TypeOf(x) in before ==> before[TypeOf(x)] == StatsOf(fs, TypeOf(x))
    requires TypeOf(x) in before ==> mid == before
    requires TypeOf(x) !in before ==> mid == before[TypeOf(x) := TypeStats(0, [])]
    requires TypeOf(x) in mid && after == mid[TypeOf(x) := Bump(mid[TypeOf(x)], NameOf(x))]
    ensures after[t] == StatsOf(fs + [x], t)
  {
    StatsSnoc(fs, x, t);
    if TypeOf(x) !in before {
      StatsOfUnseen(fs, TypeOf(x));
    }
  }

  /** A type no file has so far has the stats `{ count: 0, examples: [] }`. */
  lemma StatsOfUnseen(fs: seq<DriveFile>, t: string)
    requires t !in KeySet(fs, TypeOf)
    ensures StatsOf(fs, t) == TypeStats(0, [])
  {
    GroupOfUnseen(fs, TypeOf, t);
    assert Names([]) == [];
  }

  /** The `mimeTypeStats` reduce of `investigateFileTypes` and
      `investigateFileTypesByDateRange`: per type, the number of files and
      the names of the first three. */
  method CollectTypeStats(files: seq<DriveFile>) returns (stats: map<string, TypeStats>)
    ensures forall t :: t in stats <==> t in KeySet(files, TypeOf)
    ensures forall t :: t in stats ==>
      stats[t].count == |Group(files, TypeOf, t)| &&
      stats[t].examples == FirstThree(Names(Group(files, TypeOf, t)))
  {
    stats := map[];
    var i := 0;
    while i < |files|
      invariant 0 <= i <= |files|
      invariant StatsMatch(stats, files[..i])
    {
      ghost var before := stats;
      var file := files[i];
      var t := TypeOf(file);
      if t !in stats {
        stats := stats[t := TypeStats(0, [])];
      }
      ghost var mid := stats;
      stats := stats[t := Bump(stats[t], NameOf(file))];
      StatsMatchStep(files, i, before, mid, stats);
      i := i + 1;
    }
    assert files[..i] == files;
  }

  // ---------------------------------------------------------------------
  // The download loops
  // ---------------------------------------------------------------------

  /** `if (!file.id || !file.name) continue;` skips everything else. */
  predicate Downloadable(f: DriveFile) {
    Truthy(f.id) && Truthy(f.name)
  }

  /** An entry of `downloadedFiles`; the path is left out. */
  datatype Downloaded = Downloaded(name: string, size: Option<int>, mimeType: Option<string>)

  /** `file.size ? parseInt(file.size) : undefined`; `None` stands for
      both `undefined` and NaN. */
  function SizeOf(f: DriveFile): Option<int> {
    if Truthy(f.size) then ParseInt(f.size.value) else None
  }

  /** The record of a downloaded file; `downloadFilesByDate` keeps
      `file.mimeType || undefined`, the image downloads keep no type. */
  function RecordOf(f: DriveFile, withType: bool): Downloaded
    requires Downloadable(f)
  {
    Downloaded(f.name.value, SizeOf(f), if withType && Truthy(f.mimeType) then f.mimeType else None)
  }

  /** The records of the files downloaded, in listing order. Downloading
      the file at a position in `failed` throws. */
  function DownloadsOf(files: seq<DriveFile>, failed: set<nat>, withType: bool): seq<Downloaded> {
    if files == [] then []
    else
      var i := |files| - 1;
      DownloadsOf(files[..i], failed, withType) +
      (if Downloadable(files[i]) && i !in failed then [RecordOf(files[i], withType)] else [])
  }

  /** The names of the files whose download failed, in listing order. */
  function ErrorsOf(files: seq<DriveFile>, failed: set<nat>): seq<string> {
    if files == [] then []
    else
      var i := |files| - 1;
      ErrorsOf(files[..i], failed) +
      (if Downloadable(files[i]) && i in failed then [files[i].name.value] else [])
  }

  /** The `for ... of` loop of `downloadFilesByDate`, `downloadImagesByDate`
      and `downloadImagesByMonth`. */
  method DownloadFiles(files: seq<DriveFile>, failed: set<nat>, withType: bool)
    returns (downloaded: seq<Downloaded>, errors: seq<string>)
    ensures downloaded == DownloadsOf(files, failed, withType)
    ensures errors == ErrorsOf(files, failed)
  {
    downloaded, errors := [], [];
    var i := 0;
    while i < |files|
      invariant 0 <= i <= |files|
      invariant downloaded == DownloadsOf(files[..i], failed, withType)
      invariant errors == ErrorsOf(files[..i], failed)
    {
      var file := files[i];
      assert files[..i + 1][..i] == files[..i];
      if !Truthy(file.id) || !Truthy(file.name) {
        i := i + 1;
        continue;
      }
      if i in failed {
        errors := errors + [file.name.value];
      } else {
        downloaded := downloaded + [RecordOf(file, withType)];
      }
      i := i + 1;
    }
    assert files[..i] == files;
  }

  /** Every file that is not skipped ends either downloaded or in the
      errors, so together they are at most the number of files. */
  lemma {:induction false} DownloadsAddUp(files: seq<DriveFile>, failed: set<nat>, withType: bool)
    ensures |DownloadsOf(files, failed, withType)| + |ErrorsOf(files, failed)| == |Filter(files, Downloadable)|
    ensures |DownloadsOf(files, failed, withType)| + |ErrorsOf(files, failed)| <= |files|
  {
    if files != [] {
      var i := |files| - 1;
      var init, last := files[..i], files[i];
      DownloadsAddUp(init, failed, withType);
      var kept := if Downloadable(last) then 1 else 0;
      assert |DownloadsOf(files, failed, withType)| + |ErrorsOf(files, failed)| ==
             |DownloadsOf(init, failed, withType)| + |ErrorsOf(init, failed)| + kept;
      assert |Filter(files, Downloadable)| == |Filter(init, Downloadable)| + kept by {
        assert files == init + [last];
        FilterConcat(init, [last], Downloadable);
        assert Filter([last], Downloadable) == if Downloadable(last) then [last] else [];
      }
    }
  }

  /** The records of files that can all be downloaded, in order. */
  function Records(fs: seq<DriveFile>, withType: bool): (r: seq<Downloaded>)
    requires forall j :: 0 <= j < |fs| ==> Downloadable(fs[j])
    ensures |r| == |fs| && forall j :: 0 <= j < |fs| ==> r[j] == RecordOf(fs[j], withType)
  {
    seq(|fs|, j requires 0 <= j < |fs| => RecordOf(fs[j], withType))
  }

  lemma RecordsSnoc(fs: seq<DriveFile>, x: DriveFile, withType: bool)
    requires forall j :: 0 <= j < |fs| ==> Downloadable(fs[j])
    requires Downloadable(x)
    ensures Records(fs + [x], withType) == Records(fs, withType) + [RecordOf(x, withType)]
  {
  }

  /** The files the loop does not skip, one more file at a time. */
  lemma KeptSnoc(fs: seq<DriveFile>, x: DriveFile)
    ensures Filter(fs + [x], Downloadable) == Filter(fs, Downloadable) + (if Downloadable(x) then [x] else [])
  {
    FilterConcat(fs, [x], Downloadable);
    assert Filter([x], Downloadable) == if Downloadable(x) then [x] else [];
  }

  /** With no failure, the records are those of the files that have both
      an id and a name, in listing order, and there are no errors. */
  lemma DownloadsWithoutFailure(files: seq<DriveFile>, withType: bool)
    ensures ErrorsOf(files, {}) == []
    ensures DownloadsOf(files, {}, withType) == Records(Filter(files, Downloadable), withType)
  {
    NoErrorsWithoutFailure(files);
    RecordsWithoutFailure(files, withType);
  }

  lemma {:induction false} NoErrorsWithoutFailure(files: seq<DriveFile>)
    ensures ErrorsOf(files, {}) == []
  {
    if files != [] {
      NoErrorsWithoutFailure(files[..|files| - 1]);
    }
  }

  lemma {:induction false} RecordsWithoutFailure(files: seq<DriveFile>, withType: bool)
    ensures DownloadsOf(files, {}, withType) == Records(Filter(files, Downloadable), withType)
  {
    if files != [] {
      var i := |files| - 1;
      var init, last := files[..i], files[i];
      RecordsWithoutFailure(init, withType);
      assert files == init + [last];
      KeptSnoc(init, last);
      if Downloadable(last) {
        RecordsSnoc(Filter(init, Downloadable), last, withType);
      }
    }
  }

  /** A skipped file leaves no trace: neither a record nor an error. */
  lemma {:induction false} SkippedLeavesNoTrace(files: seq<DriveFile>, failed: set<nat>, withType: bool)
    requires forall i :: 0 <= i < |files| ==> !Downloadable(files[i])
    ensures DownloadsOf(files, failed, withType) == [] && ErrorsOf(files, failed) == []
  {
    if files != [] {
      SkippedLeavesNoTrace(files[..|files| - 1], failed, withType);
    }
  }
}
