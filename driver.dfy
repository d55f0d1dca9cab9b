/**
 * The script's outer loops: every sheet of the workbook, every row after
 * the header, one commit per row. An exception while building a row (the
 * settings decoder's `IndexError`) ends the whole run; the rows committed
 * before it stay committed.
 */
module Driver {
  import opened Wrappers
  import opened Rows
  import opened Settings
  import opened Graph

  /** A worksheet: its rows from row 1 (the header) to its last row. */
  datatype Sheet = Sheet(name: string, rows: seq<Row>)

  /** The batches committed so far, in order, and the error that stopped the run, if any. */
  datatype Outcome = Outcome(committed: seq<Batch>, failure: Option<DecodeError>)

  /** Rows 2 to the last: everything but the header. */
  function DataRows(rows: seq<Row>): seq<Row> {
    if |rows| <= 1 then [] else rows[1..]
  }

  /** What one data row yields: its normalised record's commit batch, or the decoding error. */
  function RowResult(row: Row): Result<Batch, DecodeError> {
    BuildRow(Normalize(row))
  }

  /**
   * The rows processed in order by `build`; the first failing row stops the
   * processing. The script's run is `DeployRows(RowResult, _)`; the properties
   * below hold for any builder.
   */
  function DeployRows(build: Row -> Result<Batch, DecodeError>, rows: seq<Row>): Outcome
    decreases |rows|
  {
    if rows == [] then Outcome([], None)
    else
      var prev := DeployRows(build, rows[..|rows| - 1]);
      if prev.failure.Some? then prev
      else
        match build(rows[|rows| - 1])
        case Err(e) => Outcome(prev.committed, Some(e))
        case Ok(b) => Outcome(prev.committed + [b], None)
  }

  /** The sheets processed in order by `build`; a failure in one sheet stops the run. */
  function DeploySheets(build: Row -> Result<Batch, DecodeError>, sheets: seq<Sheet>): Outcome
    decreases |sheets|
  {
    if sheets == [] then Outcome([], None)
    else
      var prev := DeploySheets(build, sheets[..|sheets| - 1]);
      if prev.failure.Some? then prev
      else
        var cur := DeployRows(build, DataRows(sheets[|sheets| - 1].rows));
        Outcome(prev.committed + cur.committed, cur.failure)
  }

  /**
   * The row loop of one sheet, `for i in range(2, max_row + 1)`, with the
   * row body given as `build`.
   */
  method RunRows(build: Row -> Result<Batch, DecodeError>, rows: seq<Row>)
      returns (committed: seq<Batch>, failure: Option<DecodeError>)
    ensures Outcome(committed, failure) == DeployRows(build, DataRows(rows))
  {
    committed := [];
    var maxRow := |rows|;
    ghost var data := DataRows(rows);
    var i := 2;
    while i <= maxRow
      invariant 2 <= i <= (if maxRow < 2 then 2 else maxRow + 1)
      invariant Outcome(committed, None) == DeployRows(build, data[..i - 2])
    {
      var r := build(rows[i - 1]);
      assert rows[i - 1] == data[i - 2];
      if r.Err? {
        RowFails(build, data, i - 2, committed);
        return committed, Some(r.error);
      }
      RowCommits(build, data, i - 2, committed);
      committed := committed + [r.value];
      i := i + 1;
    }
    assert data[..i - 2] == data;
    failure := None;
  }

  /** The sheet loop of the script, with the row body given as `build`. */
  method RunSheets(build: Row -> Result<Batch, DecodeError>, sheets: seq<Sheet>)
      returns (committed: seq<Batch>, failure: Option<DecodeError>)
    ensures Outcome(committed, failure) == DeploySheets(build, sheets)
  {
    committed := [];
    var k := 0;
    while k < |sheets|
      invariant 0 <= k <= |sheets|
      invariant Outcome(committed, None) == DeploySheets(build, sheets[..k])
    {
      var batches, err := RunRows(build, sheets[k].rows);
      if err.Some? {
        SheetFails(build, sheets, k, committed);
        return committed + batches, err;
      }
      SheetCommits(build, sheets, k, committed);
      committed := committed + batches;
      k := k + 1;
    }
    assert sheets[..k] == sheets;
    failure := None;
  }

  /** One sheet deployed row by row with the script's row body. */
  method DeploySheet(rows: seq<Row>) returns (committed: seq<Batch>, failure: Option<DecodeError>)
    ensures Outcome(committed, failure) == DeployRows(RowResult, DataRows(rows))
  {
    committed, failure := RunRows(RowResult, rows);
  }

  /** The whole workbook, sheet by sheet, with the script's row body. */
  method Deploy(sheets: seq<Sheet>) returns (committed: seq<Batch>, failure: Option<DecodeError>)
    ensures Outcome(committed, failure) == DeploySheets(RowResult, sheets)
  {
    committed, failure := RunSheets(RowResult, sheets);
  }

  /** One unfolding of `DeployRows` when the earlier rows all succeeded. */
  lemma RowStep(build: Row -> Result<Batch, DecodeError>, rows: seq<Row>)
    requires rows != []
    requires DeployRows(build, rows[..|rows| - 1]).failure.None?
    ensures var prev := DeployRows(build, rows[..|rows| - 1]).committed; var r := build(rows[|rows| - 1]);
      DeployRows(build, rows) == if r.Err? then Outcome(prev, Some(r.error)) else Outcome(prev + [r.value], None)
  {
  }

  /** A failure among the first `i` rows is the outcome of all of them. */
  lemma {:induction false} RowFailurePersists(build: Row -> Result<Batch, DecodeError>, rows: seq<Row>, i: nat)
    requires i <= |rows| && DeployRows(build, rows[..i]).failure.Some?
    ensures DeployRows(build, rows) == DeployRows(build, rows[..i])
    decreases |rows|
  {
    if i == |rows| {
      assert rows[..i] == rows;
    } else {
      var init := rows[..|rows| - 1];
      assert init[..i] == rows[..i];
      RowFailurePersists(build, init, i);
      FailedRowsStay(build, rows);
    }
  }

  /** A failure among the first `i` sheets is the outcome of all of them. */
  lemma {:induction false} SheetFailurePersists(build: Row -> Result<Batch, DecodeError>, sheets: seq<Sheet>, i: nat)
    requires i <= |sheets| && DeploySheets(build, sheets[..i]).failure.Some?
    ensures DeploySheets(build, sheets) == DeploySheets(build, sheets[..i])
    decreases |sheets|
  {
    if i == |sheets| {
      assert sheets[..i] == sheets;
    } else {
      var init := sheets[..|sheets| - 1];
      assert init[..i] == sheets[..i];
      SheetFailurePersists(build, init, i);
      FailedSheetsStay(build, sheets);
    }
  }

  /** A row that builds extends the outcome of the rows before it by its batch. */
  lemma RowCommits(build: Row -> Result<Batch, DecodeError>, data: seq<Row>, j: nat, committed: seq<Batch>)
    requires j < |data| && build(data[j]).Ok?
    requires Outcome(committed, None) == DeployRows(build, data[..j])
    ensures Outcome(committed + [build(data[j]).value], None) == DeployRows(build, data[..j + 1])
  {
    assert data[..j + 1][..j] == data[..j];
    RowStep(build, data[..j + 1]);
  }

  /** A row that fails ends the outcome of the whole sheet with its error. */
  lemma RowFails(build: Row -> Result<Batch, DecodeError>, data: seq<Row>, j: nat, committed: seq<Batch>)
    requires j < |data| && build(data[j]).Err?
    requires Outcome(committed, None) == DeployRows(build, data[..j])
    ensures Outcome(committed, Some(build(data[j]).error)) == DeployRows(build, data)
  {
    assert data[..j + 1][..j] == data[..j];
    RowStep(build, data[..j + 1]);
    RowFailurePersists(build, data, j + 1);
  }

  /** A sheet without a failing row extends the outcome of the sheets before it by its batches. */
  lemma SheetCommits(build: Row -> Result<Batch, DecodeError>, sheets: seq<Sheet>, k: nat, committed: seq<Batch>)
    requires k < |sheets|
    requires DeployRows(build, DataRows(sheets[k].rows)).failure.None?
    requires Outcome(committed, None) == DeploySheets(build, sheets[..k])
    ensures Outcome(committed + DeployRows(build, DataRows(sheets[k].rows)).committed, None) ==
            DeploySheets(build, sheets[..k + 1])
  {
    assert sheets[..k + 1][..k] == sheets[..k];
    SheetStep(build, sheets[..k + 1]);
  }

  /** A sheet with a failing row ends the outcome of the whole run with its error. */
  lemma SheetFails(build: Row -> Result<Batch, DecodeError>, sheets: seq<Sheet>, k: nat, committed: seq<Batch>)
    requires k < |sheets|
    requires DeployRows(build, DataRows(sheets[k].rows)).failure.Some?
    requires Outcome(committed, None) == DeploySheets(build, sheets[..k])
    ensures var cur := DeployRows(build, DataRows(sheets[k].rows));
      Outcome(committed + cur.committed, cur.failure) == DeploySheets(build, sheets)
  {
    assert sheets[..k + 1][..k] == sheets[..k];
    SheetStep(build, sheets[..k + 1]);
    SheetFailurePersists(build, sheets, k + 1);
  }

  /** One unfolding of `DeploySheets` when the earlier sheets all succeeded. */
  lemma SheetStep(build: Row -> Result<Batch, DecodeError>, sheets: seq<Sheet>)
    requires sheets != []
    requires DeploySheets(build, sheets[..|sheets| - 1]).failure.None?
    ensures var cur := DeployRows(build, DataRows(sheets[|sheets| - 1].rows));
      DeploySheets(build, sheets) ==
      Outcome(DeploySheets(build, sheets[..|sheets| - 1]).committed + cur.committed, cur.failure)
  {
  }

  // ------------------------------------------------------------ properties

  /**
   * The committed batches are those of a prefix of the rows, one per row in
   * row order; the run fails exactly when it stopped early, and then the error
   * is that of the first row not committed.
   */
  lemma {:induction false} DeployRowsSpec(build: Row -> Result<Batch, DecodeError>, rows: seq<Row>)
    ensures var o := DeployRows(build, rows); var k := |o.committed|;
      k <= |rows| &&
      (forall j :: 0 <= j < k ==> build(rows[j]) == Ok(o.committed[j])) &&
      (o.failure.None? <==> k == |rows|) &&
      (o.failure.Some? ==> build(rows[k]) == Err(o.failure.value))
    decreases |rows|
  {
    if rows != [] {
      var init := rows[..|rows| - 1];
      DeployRowsSpec(build, init);
      forall j | 0 <= j < |init| ensures init[j] == rows[j] { }
    }
  }

  /** A row that fails to build is never committed, nor is any row after it. */
  lemma {:induction false} FailureStopsRows(build: Row -> Result<Batch, DecodeError>, rows: seq<Row>, more: seq<Row>)
    requires DeployRows(build, rows).failure.Some?
    ensures DeployRows(build, rows + more) == DeployRows(build, rows)
    decreases |more|
  {
    if more == [] {
      assert rows + more == rows;
    } else {
      var all := rows + more;
      assert all[..|all| - 1] == rows + more[..|more| - 1];
      FailureStopsRows(build, rows, more[..|more| - 1]);
      FailedRowsStay(build, all);
    }
  }

  /** Once a row has failed, a further row changes nothing. */
  lemma FailedRowsStay(build: Row -> Result<Batch, DecodeError>, rows: seq<Row>)
    requires rows != []
    requires DeployRows(build, rows[..|rows| - 1]).failure.Some?
    ensures DeployRows(build, rows) == DeployRows(build, rows[..|rows| - 1])
  {
  }

  /** A sheet with no failing row commits one batch per data row; the header is never read. */
  lemma OneBatchPerDataRow(build: Row -> Result<Batch, DecodeError>, rows: seq<Row>)
    requires DeployRows(build, DataRows(rows)).failure.None?
    ensures |DeployRows(build, DataRows(rows)).committed| == if |rows| <= 1 then 0 else |rows| - 1
  {
    DeployRowsSpec(build, DataRows(rows));
  }

  /** A failure in one sheet means the later sheets are never processed. */
  lemma {:induction false} FailureStopsSheets(build: Row -> Result<Batch, DecodeError>, sheets: seq<Sheet>, more: seq<Sheet>)
    requires DeploySheets(build, sheets).failure.Some?
    ensures DeploySheets(build, sheets + more) == DeploySheets(build, sheets)
    decreases |more|
  {
    if more == [] {
      assert sheets + more == sheets;
    } else {
      var all := sheets + more;
      var init := sheets + more[..|more| - 1];
      assert all[..|all| - 1] == init;
      FailureStopsSheets(build, sheets, more[..|more| - 1]);
      FailedSheetsStay(build, all);
    }
  }

  /** Once a sheet has failed, a further sheet changes nothing. */
  lemma FailedSheetsStay(build: Row -> Result<Batch, DecodeError>, sheets: seq<Sheet>)
    requires sheets != []
    requires DeploySheets(build, sheets[..|sheets| - 1]).failure.Some?
    ensures DeploySheets(build, sheets) == DeploySheets(build, sheets[..|sheets| - 1])
  {
  }

  /** The number of data rows in the sheets. */
  function DataRowCount(sheets: seq<Sheet>): nat
    decreases |sheets|
  {
    if sheets == [] then 0
    else DataRowCount(sheets[..|sheets| - 1]) + |DataRows(sheets[|sheets| - 1].rows)|
  }

  /**
   * A run that ends without an error went through every sheet without a
   * failing row and committed one batch per data row of the workbook.
   */
  lemma {:induction false} CompleteRun(build: Row -> Result<Batch, DecodeError>, sheets: seq<Sheet>)
    requires DeploySheets(build, sheets).failure.None?
    ensures forall k :: 0 <= k < |sheets| ==> DeployRows(build, DataRows(sheets[k].rows)).failure.None?
    ensures |DeploySheets(build, sheets).committed| == DataRowCount(sheets)
    decreases |sheets|
  {
    if sheets != [] {
      var init := sheets[..|sheets| - 1];
      var last := sheets[|sheets| - 1];
      CleanSheetStep(build, sheets);
      CompleteRun(build, init);
      OneBatchPerDataRow(build, last.rows);
      EverySheetClean(build, sheets, init);
    }
  }

  /** Extending "no sheet has a failing row" from all but the last sheet to all of them. */
  lemma EverySheetClean(build: Row -> Result<Batch, DecodeError>, sheets: seq<Sheet>, init: seq<Sheet>)
    requires sheets != [] && init == sheets[..|sheets| - 1]
    requires forall k :: 0 <= k < |init| ==> DeployRows(build, DataRows(init[k].rows)).failure.None?
    requires DeployRows(build, DataRows(sheets[|sheets| - 1].rows)).failure.None?
    ensures forall k :: 0 <= k < |sheets| ==> DeployRows(build, DataRows(sheets[k].rows)).failure.None?
  {
    forall k | 0 <= k < |sheets|
      ensures DeployRows(build, DataRows(sheets[k].rows)).failure.None?
    {
      if k < |init| {
        assert sheets[k] == init[k];
      }
    }
  }

  /** A run without an error over the sheets is one over all but the last, then the last. */
  lemma CleanSheetStep(build: Row -> Result<Batch, DecodeError>, sheets: seq<Sheet>)
    requires sheets != [] && DeploySheets(build, sheets).failure.None?
    ensures var cur := DeployRows(build, DataRows(sheets[|sheets| - 1].rows));
      DeploySheets(build, sheets[..|sheets| - 1]).failure.None? && cur.failure.None? &&
      DeploySheets(build, sheets).committed == DeploySheets(build, sheets[..|sheets| - 1]).committed + cur.committed
  {
    if DeploySheets(build, sheets[..|sheets| - 1]).failure.Some? {
      FailedSheetsStay(build, sheets);
    }
    SheetStep(build, sheets);
  }
}
