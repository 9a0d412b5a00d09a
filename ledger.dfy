/**
 * The `MasterCSVManager` object (server/master_csv_manager.py). Its state is
 * the ledger file on disk, here the field `file`; every operation reads the
 * whole file and, when it writes, rewrites it whole.
 */
module Ledger {
  import opened Wrappers
  import opened PyDict
  import opened MasterCsv
  import opened CategoryUpdate

  lemma KnownTuplesStep(rows: seq<Row>, i: nat)
    requires i < |rows|
    ensures KnownTuples(rows[..i + 1]) == KnownTuples(rows[..i]) + {NaturalKey(rows[i])}
  {
    assert rows[..i + 1] == rows[..i] + [rows[i]];
    forall r | r in rows[..i + 1] ensures r in rows[..i] || r == rows[i] { }
  }

  /** The value tuples of the first j new rows. */
  function SeenTuples(batch: seq<Dict>, j: nat): set<seq<string>>
    requires j <= |batch|
  {
    set l | 0 <= l < j :: Values(batch[l])
  }

  /**
   * One round of the loop over the new rows: the set lookup decides
   * acceptance, and an accepted row, blanked, joins the ledger, the added
   * rows and the caller's list at its own position.
   */
  lemma AddLoopStep(
    known: set<seq<string>>, batch: seq<Dict>, j: nat,
    tuples: set<seq<string>>, added: seq<Dict>, after: seq<Dict>)
    requires j < |batch|
    requires tuples == known + SeenTuples(batch, j)
    requires added == Added(known, batch[..j])
    requires after == Marked(known, batch[..j]) + batch[j..]
    ensures Values(batch[j]) !in tuples ==>
      && tuples + {Values(batch[j])} == known + SeenTuples(batch, j + 1)
      && added + [Blank(batch[j])] == Added(known, batch[..j + 1])
      && after[j := Blank(batch[j])] == Marked(known, batch[..j + 1]) + batch[j + 1..]
    ensures Values(batch[j]) in tuples ==>
      && tuples == known + SeenTuples(batch, j + 1)
      && added == Added(known, batch[..j + 1])
      && after == Marked(known, batch[..j + 1]) + batch[j + 1..]
  {
    assert SeenTuples(batch, j + 1) == SeenTuples(batch, j) + {Values(batch[j])};
    assert (Values(batch[j]) !in tuples) == IsAccepted(known, batch, j);
    AddedStep(known, batch, j);
    MarkedStep(known, batch, j);
    var m := Marked(known, batch[..j]);
    assert batch[j..] == [batch[j]] + batch[j + 1..];
    assert after[j := Blank(batch[j])] == m + [Blank(batch[j])] + batch[j + 1..];
  }

  /** The outcome of an add, once the known tuples, the added rows and the caller's rows are computed. */
  lemma AddRowsSpecOf(f: LedgerFile, batch: seq<Dict>, known: set<seq<string>>, added: seq<Dict>, after: seq<Dict>)
    requires known == KnownTuples(Existing(f))
    requires added == Added(known, batch)
    requires after == Marked(known, batch)
    ensures var all := Dicts(Existing(f)) + added;
      AddRowsSpec(f, batch) ==
        if all == [] then AddOutcome(f, Ok(AddSummary(0, added, |batch| - |added|)), after)
        else AddOutcome(
          Some(WriteRows(all).rows),
          if WriteRows(all).complete then Ok(AddSummary(|all|, added, |batch| - |added|))
          else Err(ValueError(EXTRA_FIELDS_MESSAGE)),
          after)
  {
  }

  /** The first loop of `add_rows_to_master_csv`: the natural key of every line already in the file. */
  method ExistingTuples(rows: seq<Row>) returns (existingRowTuples: set<seq<string>>)
    ensures existingRowTuples == KnownTuples(rows)
  {
    var existingRows := Dicts(rows);
    existingRowTuples := {};
    var i := 0;
    while i < |existingRows|
      invariant 0 <= i <= |existingRows| == |rows|
      invariant existingRowTuples == KnownTuples(rows[..i])
    {
      KnownTuplesStep(rows, i);
      KeyTupleOfLine(rows[i]);
      existingRowTuples := existingRowTuples + {KeyTuple(existingRows[i])};
      i := i + 1;
    }
    assert rows[..|rows|] == rows;
  }

  /**
   * The second loop of `add_rows_to_master_csv`: a new row whose value tuple
   * has not been seen is blanked, in the caller's list too, and added; the
   * seen tuples grow by it.
   */
  method Deduplicate(known: set<seq<string>>, newRows: seq<Dict>)
    returns (existingRowTuples: set<seq<string>>, addedRows: seq<Dict>, newRowsAfter: seq<Dict>)
    ensures existingRowTuples == known + SeenTuples(newRows, |newRows|)
    ensures addedRows == Added(known, newRows)
    ensures newRowsAfter == Marked(known, newRows)
  {
    existingRowTuples := known;
    addedRows := [];
    newRowsAfter := newRows;
    var j := 0;
    while j < |newRows|
      invariant 0 <= j <= |newRows|
      invariant existingRowTuples == known + SeenTuples(newRows, j)
      invariant addedRows == Added(known, newRows[..j])
      invariant newRowsAfter == Marked(known, newRows[..j]) + newRows[j..]
    {
      AddLoopStep(known, newRows, j, existingRowTuples, addedRows, newRowsAfter);
      var row := newRows[j];
      var rowTuple := Values(row);
      if rowTuple !in existingRowTuples {
        row := Set(row, "Category", "");
        row := Set(row, "Sub Category", "");
        newRowsAfter := newRowsAfter[j := row];
        existingRowTuples := existingRowTuples + {rowTuple};
        addedRows := addedRows + [row];
      }
      j := j + 1;
    }
    assert newRows[..j] == newRows;
  }

  class MasterCsvManager {
    /** The contents of `master_transactions.csv`; None while it does not exist. */
    var file: LedgerFile

    /** The manager over a data folder whose ledger currently holds f. */
    constructor(f: LedgerFile)
      ensures file == f
    {
      file := f;
    }

    /** `read_master_csv_dict`: every line as a dictionary keyed by the header; none without a file. */
    method ReadDict() returns (rows: seq<Dict>)
      ensures |rows| == |Existing(file)|
      ensures forall i :: 0 <= i < |rows| ==> Keys(rows[i]) == FIELDNAMES
      ensures forall i :: 0 <= i < |rows| ==> FromDict(rows[i]) == Some(Existing(file)[i])
    {
      rows := if file.Some? then Dicts(file.value) else [];
      forall i | 0 <= i < |rows|
        ensures Keys(rows[i]) == FIELDNAMES && FromDict(rows[i]) == Some(Existing(file)[i])
      {
        ToDictShape(Existing(file)[i]);
        FromToDict(Existing(file)[i]);
      }
    }

    /**
     * `read_master_csv_list`: the header and the lines as lists of cells; an
     * absent file gives no columns and no rows.
     */
    method ReadList() returns (t: Table)
      ensures file.None? ==> t == Table([], [])
      ensures file.Some? ==> t.columns == FIELDNAMES
      ensures |t.rows| == |Existing(file)|
      ensures forall i :: 0 <= i < |t.rows| ==> |t.rows[i]| == |FIELDNAMES| && t.rows[i] == Cells(Existing(file)[i])
    {
      if file.Some? {
        var lines := file.value;
        t := Table(FIELDNAMES, seq(|lines|, i requires 0 <= i < |lines| => Cells(lines[i])));
      } else {
        t := Table([], []);
      }
    }

    /**
     * `add_rows_to_master_csv(newRows)`. The caller's rows come back as
     * `newRowsAfter`, since the accepted ones are blanked in place.
     */
    method AddRows(newRows: seq<Dict>) returns (result: Result<AddSummary, Exception>, newRowsAfter: seq<Dict>)
      modifies this
      ensures AddOutcome(file, result, newRowsAfter) == AddRowsSpec(old(file), newRows)
    {
      var existingRows: seq<Dict> := if file.Some? then Dicts(file.value) else [];
      var existingRowTuples := ExistingTuples(Existing(file));
      var addedRows;
      existingRowTuples, addedRows, newRowsAfter := Deduplicate(existingRowTuples, newRows);
      existingRows := existingRows + addedRows;
      AddRowsSpecOf(file, newRows, KnownTuples(Existing(file)), addedRows, newRowsAfter);

      result := Ok(AddSummary(|existingRows|, addedRows, |newRows| - |addedRows|));
      if |existingRows| > 0 {
        var written := WriteRows(existingRows);
        file := Some(written.rows);
        if !written.complete {
          result := Err(ValueError(EXTRA_FIELDS_MESSAGE));
        }
      }
    }

    /**
     * `update_rows_with_categories(updatedRows)`: for each update row, the
     * first line with its natural key takes its categories; then the file is
     * rewritten. A KeyError leaves the file as it was.
     */
    method UpdateRowsWithCategories(updatedRows: seq<Dict>) returns (result: Result<bool, Exception>)
      modifies this
      ensures UpdateOutcome(file, result) == UpdateRowsSpec(old(file), updatedRows)
    {
      var existingRows := Existing(file);
      var i := 0;
      while i < |updatedRows|
        invariant 0 <= i <= |updatedRows|
        invariant ApplyUpdates(Existing(file), updatedRows[..i]) == Ok(existingRows)
        invariant file == old(file)
      {
        assert updatedRows[..i + 1][..i] == updatedRows[..i];
        var row := updatedRows[i];
        ghost var before := existingRows;
        var j := 0;
        while j < |existingRows|
          invariant 0 <= j <= |existingRows|
          invariant existingRows == before
          invariant FindMatch(before, row, 0) == FindMatch(before, row, j)
        {
          var matched := Matches(row, existingRows[j]);
          if matched.Err? {
            assert ApplyUpdates(Existing(file), updatedRows[..i + 1]) == Err(matched.error);
            UpdatesStopAtError(Existing(file), updatedRows, i + 1);
            return Err(matched.error);
          }
          if matched.value {
            var category := Lookup(row, "Category");
            if category.Err? {
              assert ApplyUpdates(Existing(file), updatedRows[..i + 1]) == Err(category.error);
              UpdatesStopAtError(Existing(file), updatedRows, i + 1);
              return Err(category.error);
            }
            var subCategory := Lookup(row, "Sub Category");
            if subCategory.Err? {
              assert ApplyUpdates(Existing(file), updatedRows[..i + 1]) == Err(subCategory.error);
              UpdatesStopAtError(Existing(file), updatedRows, i + 1);
              return Err(subCategory.error);
            }
            existingRows := existingRows[j := existingRows[j].(category := category.value, subCategory := subCategory.value)];
            break;
          }
          j := j + 1;
        }
        assert ApplyOne(before, row) == Ok(existingRows);
        i := i + 1;
      }
      assert updatedRows[..i] == updatedRows;
      var written := WriteRows(Dicts(existingRows));
      WriteReadRoundTrip(existingRows);
      file := Some(written.rows);
      result := Ok(true);
    }
  }
}
