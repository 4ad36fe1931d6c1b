/** What the two receipt stores share: the ways a store promise rejects, the
    storage failures the SQLite driver can report, and the line and row
    handling of the CSV import. */
module Storage {
  import opened Wrappers
  import opened JsText

  /** Why a promise of the store rejects. */
  datatype DbError = InvalidHeader | UniqueViolation | StorageError | InvalidMonth | NotFound

  /** A failure the storage layer reports on its own: the first query for
      the image hash (`SELECT 1 ...`), `BEGIN TRANSACTION`, the INSERT
      statement with the given 0-based number in the batch, or the final
      `finalize`/`COMMIT`. */
  datatype Fault = NoFault | LookupFails | BeginFails | InsertFails(statement: nat) | CommitFails

  /** `csvString.trim().split('\n')`. */
  function CsvLines(csv: string): (r: seq<string>)
    ensures |r| >= 1
  {
    Split(Trim(csv), {'\n'})
  }

  /** A header line and one data line, neither with a line break and with
      no white space at the ends, split back into those two lines. */
  lemma CsvLinesOfTwo(head: string, line: string)
    requires forall i :: 0 <= i < |head| ==> head[i] != '\n'
    requires forall i :: 0 <= i < |line| ==> line[i] != '\n'
    requires head != [] && !IsJsSpace(head[0])
    requires line != [] && !IsJsSpace(line[|line| - 1])
    ensures CsvLines(head + "\n" + line) == [head, line]
  {
    var csv := head + "\n" + line;
    assert csv[0] == head[0] && csv[|csv| - 1] == line[|line| - 1];
    TrimNoop(csv);
    SplitAtFirst(head, '\n', line, {'\n'});
    SplitNoSeparator(line, {'\n'});
  }

  /** The rows that the parsed lines contribute, in line order. */
  function Present<T>(parsed: seq<Option<T>>): (r: seq<T>)
    ensures |r| <= |parsed|
  {
    if parsed == [] then []
    else
      var last := parsed[|parsed| - 1];
      Present(parsed[..|parsed| - 1]) + (if last.Some? then [last.value] else [])
  }

  lemma {:induction false} PresentPrefix<T>(parsed: seq<Option<T>>, n: nat)
    requires n <= |parsed|
    ensures |Present(parsed[..n])| <= |Present(parsed)|
    decreases |parsed| - n
  {
    if n < |parsed| {
      PresentPrefix(parsed, n + 1);
      assert parsed[..n + 1][..n] == parsed[..n];
    } else {
      assert parsed[..n] == parsed;
    }
  }

  lemma PresentStep<T>(parsed: seq<Option<T>>, i: nat)
    requires i < |parsed|
    ensures Present(parsed[..i + 1]) == Present(parsed[..i]) +
      (if parsed[i].Some? then [parsed[i].value] else [])
  {
    assert parsed[..i + 1][..i] == parsed[..i];
  }

  lemma PresentSingle<T>(x: Option<T>)
    ensures Present([x]) == if x.Some? then [x.value] else []
  {
    assert [x][..0] == [];
  }

  /** Every value kept is one of the entries that held a value. */
  lemma {:induction false} PresentValues<T>(parsed: seq<Option<T>>)
    ensures forall x :: x in Present(parsed) ==> Some(x) in parsed
  {
    if parsed != [] {
      var init := parsed[..|parsed| - 1];
      PresentValues(init);
      forall x | x in Present(parsed) ensures Some(x) in parsed {
        if x in Present(init) {
          var k :| 0 <= k < |init| && init[k] == Some(x);
          assert parsed[k] == Some(x);
        } else {
          assert parsed[|parsed| - 1] == Some(x);
        }
      }
    }
  }

  /** When every entry holds a value, nothing is dropped. */
  lemma {:induction false} PresentAllSome<T>(xs: seq<T>, parsed: seq<Option<T>>)
    requires |parsed| == |xs| && forall k :: 0 <= k < |xs| ==> parsed[k] == Some(xs[k])
    ensures Present(parsed) == xs
  {
    if xs != [] {
      var n := |xs| - 1;
      PresentAllSome(xs[..n], parsed[..n]);
      assert xs == xs[..n] + [xs[n]];
    }
  }
}
