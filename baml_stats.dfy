/**
 * The running statistics of one structured-extraction run: four counters and
 * an ordered log of per-file errors, of which the error report shows a
 * bounded window.
 */
module BamlStats {
  import opened Wrappers

  /** How many of the most recent errors the error report lists. */
  const ErrorWindow: nat := 10

  /** One `{"file": ..., "error": ...}` entry of the error log. */
  datatype ErrorEntry = ErrorEntry(file: string, error: string)

  /** One row of the error report: the File column and the Error column. */
  datatype TableRow = TableRow(file: string, error: string)

  function Min(a: nat, b: nat): nat {
    if a <= b then a else b
  }

  predicate IsDigit(c: char) {
    '0' <= c <= '9'
  }

  /** The character of one decimal digit. */
  function Digit(d: nat): (c: char)
    requires d < 10
    ensures IsDigit(c)
  {
    ('0' as int + d) as char
  }

  /** Python's `str(n)` on a natural number: decimal digits, no leading zero. */
  function NatToDecimal(n: nat): (r: string)
    ensures |r| > 0 && (forall i :: 0 <= i < |r| ==> IsDigit(r[i]))
    ensures r[0] == '0' ==> r == "0"
    decreases n
  {
    if n < 10 then [Digit(n)] else NatToDecimal(n / 10) + [Digit(n % 10)]
  }

  /** The number a string of decimal digits denotes (`int(s)`). */
  function DecimalValue(s: string): nat
    requires forall i :: 0 <= i < |s| ==> IsDigit(s[i])
    decreases |s|
  {
    if s == [] then 0
    else
      var n := |s| - 1;
      assert IsDigit(s[n]);
      DecimalValue(s[..n]) * 10 + (s[n] as int - '0' as int)
  }

  /** The row for one logged error. */
  function EntryRow(e: ErrorEntry): (r: TableRow)
    ensures r.file == e.file && r.error == e.error
  {
    TableRow(e.file, e.error)
  }

  /**
   * The row that reports the errors left out of the window: "..." and
   * "and <count> more errors", where the digits read back as the count.
   */
  function OverflowRow(remaining: nat): (r: TableRow)
    ensures r.file == "..."
    ensures |r.error| > 16 && r.error[..4] == "and " && r.error[|r.error| - 12..] == " more errors"
    ensures forall i :: 4 <= i < |r.error| - 12 ==> IsDigit(r.error[i])
    ensures DecimalValue(r.error[4..|r.error| - 12]) == remaining
  {
    var digits := NatToDecimal(remaining);
    var message := "and " + digits + " more errors";
    assert message[4..|message| - 12] == digits;
    DecimalParsesBack(remaining);
    TableRow("...", message)
  }

  class ProcessingStats {
    var filesDiscovered: nat
    var filesProcessed: nat
    var cacheHits: nat
    var errors: nat
    var errorDetails: seq<ErrorEntry>

    /** The error counter counts the log: both only ever change together. */
    ghost predicate Valid()
      reads this
    {
      errors == |errorDetails|
    }

    /** `ProcessingStats()`: every counter zero, the log empty (the start time is not modelled). */
    constructor ()
      ensures Valid()
      ensures filesDiscovered == 0 && filesProcessed == 0 && cacheHits == 0 && errors == 0
      ensures errorDetails == []
    {
      filesDiscovered, filesProcessed, cacheHits, errors := 0, 0, 0, 0;
      errorDetails := [];
    }

    /** `add_error`: count one more error and log it last. */
    method AddError(fileName: string, error: string)
      requires Valid()
      modifies this
      ensures Valid()
      ensures errors == old(errors) + 1
      ensures errorDetails == old(errorDetails) + [ErrorEntry(fileName, error)]
      ensures filesDiscovered == old(filesDiscovered) && filesProcessed == old(filesProcessed)
      ensures cacheHits == old(cacheHits)
    {
      errors := errors + 1;
      errorDetails := errorDetails + [ErrorEntry(fileName, error)];
    }

    /**
     * `create_error_table`: no table when nothing was logged; otherwise the
     * last (at most ten) entries in log order, then, when more were logged,
     * one row with the number not shown.
     */
    method CreateErrorTable() returns (table: Option<seq<TableRow>>)
      ensures table.None? <==> errorDetails == []
      ensures table.Some? ==>
        var n := |errorDetails|;
        var shown := Min(n, ErrorWindow);
        && |table.value| == shown + (if n > ErrorWindow then 1 else 0)
        && (forall k :: 0 <= k < shown ==> table.value[k] == EntryRow(errorDetails[n - shown + k]))
        && (n > ErrorWindow ==> table.value[shown] == OverflowRow(n - ErrorWindow))
    {
      if errorDetails == [] {
        return None;
      }
      var n := |errorDetails|;
      // the slice error_details[-10:]
      var recent := errorDetails[n - Min(n, ErrorWindow)..];
      var rows: seq<TableRow> := [];
      var i := 0;
      while i < |recent|
        invariant 0 <= i <= |recent|
        invariant |rows| == i
        invariant forall k :: 0 <= k < i ==> rows[k] == EntryRow(recent[k])
      {
        rows := rows + [EntryRow(recent[i])];
        i := i + 1;
      }
      if n > ErrorWindow {
        rows := rows + [OverflowRow(n - ErrorWindow)];
      }
      table := Some(rows);
    }
  }

  /** The decimal rendering denotes the number it renders. */
  lemma {:induction false} DecimalParsesBack(n: nat)
    ensures DecimalValue(NatToDecimal(n)) == n
    decreases n
  {
    var r := NatToDecimal(n);
    if n >= 10 {
      DecimalParsesBack(n / 10);
      assert r[..|r| - 1] == NatToDecimal(n / 10);
    }
  }
}
