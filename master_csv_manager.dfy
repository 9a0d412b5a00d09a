/**
 * The transaction ledger (server/master_csv_manager.py): the file
 * `master_transactions.csv`, a header FIELDNAMES and one line per
 * transaction, which MasterCSVManager reads and rewrites whole on every
 * operation. The file itself is abstracted to its contents.
 */
module MasterCsv {
  import opened Wrappers
  import opened PyDict

  /** The ledger's columns, in file order. */
  /** The ledger's file name inside the data folder; the folder is not modelled. */
  const MASTER_FILE_NAME := "master_transactions.csv"

  const FIELDNAMES: seq<string> :=
    ["Date", "Transaction", "Name", "Memo", "Amount", "Category", "Sub Category"]

  /** One line of the ledger. */
  datatype Row = Row(
    date: string, transaction: string, name: string, memo: string, amount: string,
    category: string, subCategory: string)

  /** A line as `csv.reader` yields it: one cell per column of FIELDNAMES. */
  function Cells(r: Row): (cs: seq<string>)
    ensures |cs| == |FIELDNAMES|
  {
    [r.date, r.transaction, r.name, r.memo, r.amount, r.category, r.subCategory]
  }

  /** The natural key of a transaction: every column before Category. */
  function NaturalKey(r: Row): seq<string> {
    [r.date, r.transaction, r.name, r.memo, r.amount]
  }

  /** A line as `csv.DictReader` yields it from a file whose header is FIELDNAMES. */
  function ToDict(r: Row): Dict {
    [Field("Date", r.date), Field("Transaction", r.transaction), Field("Name", r.name),
     Field("Memo", r.memo), Field("Amount", r.amount), Field("Category", r.category),
     Field("Sub Category", r.subCategory)]
  }

  /** Such a line is keyed by the header, in order, and carries the line's cells. */
  lemma ToDictShape(r: Row)
    ensures Keys(ToDict(r)) == FIELDNAMES
    ensures Values(ToDict(r)) == Cells(r)
    ensures DistinctKeys(ToDict(r))
  {
  }

  /**
   * `tuple(copy.values())` once Category and Sub Category are deleted from a
   * copy of a line: the duplicate-detection tuple of a line already in the ledger.
   */
  function KeyTuple(d: Dict): seq<string> {
    Values(Delete(Delete(d, "Category"), "Sub Category"))
  }

  /** The duplicate-detection tuple of a line read from the ledger is its natural key. */
  lemma KeyTupleOfLine(r: Row)
    ensures KeyTuple(ToDict(r)) == NaturalKey(r)
  {
    var d := ToDict(r);
    ToDictShape(r);
    DeleteAt(d, 5);
    var d' := Delete(d, "Category");
    assert d' == d[..5] + [d[6]];
    DeleteAt(d', 5);
    assert Delete(d', "Sub Category") == d[..5];
  }

  lemma FieldnamesDistinct()
    ensures forall i, j :: 0 <= i < j < |FIELDNAMES| ==> FIELDNAMES[i] != FIELDNAMES[j]
  {
  }

  /** Every key of the dictionary is a column of the ledger. */
  predicate Writable(d: Dict) {
    forall k :: k in Keys(d) ==> k in FIELDNAMES
  }

  /**
   * `csv.DictWriter(fieldnames=FIELDNAMES)` turning a dictionary into a line:
   * a key outside FIELDNAMES makes it raise ValueError, and a column the
   * dictionary lacks is written as ''.
   */
  function FromDict(d: Dict): (r: Option<Row>)
    ensures r.Some? <==> Writable(d)
  {
    if !Writable(d) then None
    else Some(Row(
      Get(d, "Date").GetOr(""), Get(d, "Transaction").GetOr(""), Get(d, "Name").GetOr(""),
      Get(d, "Memo").GetOr(""), Get(d, "Amount").GetOr(""), Get(d, "Category").GetOr(""),
      Get(d, "Sub Category").GetOr("")))
  }

  /** A line read from the file is written back unchanged. */
  lemma FromToDict(r: Row)
    ensures FromDict(ToDict(r)) == Some(r)
  {
    var d := ToDict(r);
    ToDictShape(r);
    assert Writable(d);
    GetAt(d, 0); GetAt(d, 1); GetAt(d, 2); GetAt(d, 3); GetAt(d, 4); GetAt(d, 5); GetAt(d, 6);
  }

  /** The lines of a file, as `list(csv.DictReader(f))` yields them. */
  function Dicts(rows: seq<Row>): (ds: seq<Dict>)
    ensures |ds| == |rows|
    ensures forall i :: 0 <= i < |rows| ==> ds[i] == ToDict(rows[i])
  {
    seq(|rows|, i requires 0 <= i < |rows| => ToDict(rows[i]))
  }

  /** What `writer.writerows` leaves in the file, and whether it got to the end. */
  datatype Written = Written(rows: seq<Row>, complete: bool)

  /**
   * `writer.writerows(ds)`: the lines go out one by one, so when a dictionary
   * makes the writer raise, the lines before it are already in the file.
   */
  function WriteRows(ds: seq<Dict>): Written {
    if ds == [] then Written([], true)
    else match FromDict(ds[0])
      case None => Written([], false)
      case Some(r) =>
        var w := WriteRows(ds[1..]);
        Written([r] + w.rows, w.complete)
  }

  /**
   * The write completes exactly when every dictionary is writable; otherwise
   * it stops at the first one that is not. Each line written is its
   * dictionary's line.
   */
  lemma {:induction false} WriteRowsStops(ds: seq<Dict>)
    ensures var w := WriteRows(ds);
      && (w.complete <==> forall i :: 0 <= i < |ds| ==> Writable(ds[i]))
      && (w.complete ==> |w.rows| == |ds|)
      && (!w.complete ==> |w.rows| < |ds| && !Writable(ds[|w.rows|]))
      && (forall i :: 0 <= i < |w.rows| ==> FromDict(ds[i]) == Some(w.rows[i]))
  {
    if ds != [] && Writable(ds[0]) {
      WriteRowsStops(ds[1..]);
      var w := WriteRows(ds);
      var w' := WriteRows(ds[1..]);
      assert forall i :: 1 <= i < |ds| ==> ds[i] == ds[1..][i - 1];
      assert forall i :: 1 <= i < |w.rows| ==> w.rows[i] == w'.rows[i - 1];
    }
  }

  /** Writing back the lines just read reproduces the file. */
  lemma {:induction false} WriteReadRoundTrip(rows: seq<Row>)
    ensures WriteRows(Dicts(rows)) == Written(rows, true)
  {
    if rows != [] {
      assert Dicts(rows)[1..] == Dicts(rows[1..]);
      FromToDict(rows[0]);
      WriteReadRoundTrip(rows[1..]);
      assert [rows[0]] + rows[1..] == rows;
    }
  }

  /** The file's contents: None when `master_transactions.csv` does not exist. */
  type LedgerFile = Option<seq<Row>>

  /** The lines of the file; an absent file has none. */
  function Existing(f: LedgerFile): seq<Row> {
    f.GetOr([])
  }

  /** `read_master_csv_list`'s result. */
  datatype Table = Table(columns: seq<string>, rows: seq<seq<string>>)

  // ---------------------------------------------------------------------------
  // add_rows_to_master_csv

  /** The duplicate-detection tuples of the lines already in the ledger. */
  function KnownTuples(rows: seq<Row>): set<seq<string>> {
    set r | r in rows :: NaturalKey(r)
  }

  /**
   * The i-th new row is let in when its value tuple, over whatever columns it
   * carries, is neither the tuple of a line in the ledger nor that of an
   * earlier row of the batch.
   */
  predicate IsAccepted(known: set<seq<string>>, batch: seq<Dict>, i: nat)
    requires i < |batch|
  {
    && Values(batch[i]) !in known
    && forall j :: 0 <= j < i ==> Values(batch[j]) != Values(batch[i])
  }

  lemma IsAcceptedPrefix(known: set<seq<string>>, batch: seq<Dict>, n: nat, i: nat)
    requires i < n <= |batch|
    ensures IsAccepted(known, batch[..n], i) == IsAccepted(known, batch, i)
  {
    assert forall j :: 0 <= j <= i ==> batch[..n][j] == batch[j];
  }

  /** The positions of the accepted rows of a batch, in input order. */
  function AcceptedIndices(known: set<seq<string>>, batch: seq<Dict>): (idx: seq<nat>)
    ensures |idx| <= |batch|
    ensures forall k :: 0 <= k < |idx| ==> idx[k] < |batch| && IsAccepted(known, batch, idx[k])
    ensures forall i :: 0 <= i < |batch| && IsAccepted(known, batch, i) ==> i in idx
    ensures forall k, l :: 0 <= k < l < |idx| ==> idx[k] < idx[l]
    decreases |batch|
  {
    if batch == [] then []
    else
      var n := |batch| - 1;
      var front := AcceptedIndices(known, batch[..n]);
      assert forall i :: 0 <= i < n ==> IsAccepted(known, batch[..n], i) == IsAccepted(known, batch, i) by {
        forall i | 0 <= i < n ensures IsAccepted(known, batch[..n], i) == IsAccepted(known, batch, i) {
          IsAcceptedPrefix(known, batch, n, i);
        }
      }
      front + if IsAccepted(known, batch, n) then [n] else []
  }

  /** An accepted row gets its category columns set to '' before it is appended. */
  function Blank(d: Dict): Dict {
    Set(Set(d, "Category", ""), "Sub Category", "")
  }

  /** The rows appended to the ledger, in input order, blanked. */
  function Added(known: set<seq<string>>, batch: seq<Dict>): (added: seq<Dict>)
    ensures |added| <= |batch|
  {
    var idx := AcceptedIndices(known, batch);
    seq(|idx|, k requires 0 <= k < |idx| => Blank(batch[idx[k]]))
  }

  /** The caller's rows after the call: the accepted ones were blanked in place. */
  function Marked(known: set<seq<string>>, batch: seq<Dict>): (after: seq<Dict>)
    ensures |after| == |batch|
  {
    seq(|batch|, i requires 0 <= i < |batch| =>
      if IsAccepted(known, batch, i) then Blank(batch[i]) else batch[i])
  }

  lemma AddedStep(known: set<seq<string>>, batch: seq<Dict>, j: nat)
    requires j < |batch|
    ensures Added(known, batch[..j + 1]) ==
      Added(known, batch[..j]) + if IsAccepted(known, batch, j) then [Blank(batch[j])] else []
  {
    var b := batch[..j + 1];
    assert b[..j] == batch[..j];
    IsAcceptedPrefix(known, batch, j + 1, j);
    var front := AcceptedIndices(known, batch[..j]);
    var idx := AcceptedIndices(known, b);
    assert idx == front + if IsAccepted(known, b, j) then [j] else [];
    var lhs := Added(known, b);
    var rhs := Added(known, batch[..j]) + if IsAccepted(known, batch, j) then [Blank(batch[j])] else [];
    assert |lhs| == |rhs|;
    forall k | 0 <= k < |lhs| ensures lhs[k] == rhs[k] {
      if k < |front| {
        assert front[k] < j;
        assert b[idx[k]] == batch[..j][front[k]];
      }
    }
  }

  lemma MarkedStep(known: set<seq<string>>, batch: seq<Dict>, j: nat)
    requires j < |batch|
    ensures Marked(known, batch[..j + 1]) == Marked(known, batch[..j]) +
      [if IsAccepted(known, batch, j) then Blank(batch[j]) else batch[j]]
  {
    var b := batch[..j + 1];
    var lhs := Marked(known, b);
    var front := Marked(known, batch[..j]);
    var rhs := front + [if IsAccepted(known, batch, j) then Blank(batch[j]) else batch[j]];
    assert |lhs| == |rhs|;
    forall i | 0 <= i < |lhs| ensures lhs[i] == rhs[i] {
      IsAcceptedPrefix(known, batch, j + 1, i);
      assert b[i] == batch[i];
      if i < j {
        IsAcceptedPrefix(known, batch, j, i);
        assert batch[..j][i] == batch[i];
        assert rhs[i] == front[i];
      }
    }
  }

  /** What an add leaves behind: the file, the result, the caller's rows. */
  datatype AddSummary = AddSummary(totalRows: nat, addedRows: seq<Dict>, duplicateRows: int)
  datatype AddOutcome = AddOutcome(
    file: LedgerFile, result: Result<AddSummary, Exception>, batchAfter: seq<Dict>)

  /** The message DictWriter raises with for a key outside FIELDNAMES. */
  const EXTRA_FIELDS_MESSAGE := "dict contains fields not in fieldnames"

  /**
   * `add_rows_to_master_csv(batch)` on file f. The file is rewritten, header
   * and every line, unless the ledger would still be empty.
   */
  function AddRowsSpec(f: LedgerFile, batch: seq<Dict>): AddOutcome {
    var rows := Existing(f);
    var known := KnownTuples(rows);
    var added := Added(known, batch);
    var all := Dicts(rows) + added;
    var after := Marked(known, batch);
    if all == [] then
      AddOutcome(f, Ok(AddSummary(0, added, |batch| - |added|)), after)
    else
      var w := WriteRows(all);
      AddOutcome(
        Some(w.rows),
        if w.complete then Ok(AddSummary(|all|, added, |batch| - |added|))
        else Err(ValueError(EXTRA_FIELDS_MESSAGE)),
        after)
  }

  /** The first row of a batch that carries the same tuple as row i. */
  lemma {:induction false} FirstOccurrence(batch: seq<Dict>, i: nat) returns (m: nat)
    requires i < |batch|
    ensures m <= i && Values(batch[m]) == Values(batch[i])
    ensures forall j :: 0 <= j < m ==> Values(batch[j]) != Values(batch[i])
    decreases i
  {
    if j :| 0 <= j < i && Values(batch[j]) == Values(batch[i]) {
      m := FirstOccurrence(batch, j);
    } else {
      m := i;
    }
  }

  /**
   * Which tuples get in: every tuple of the batch that the ledger does not
   * know, each exactly once, and no other.
   */
  lemma AcceptedTuples(known: set<seq<string>>, batch: seq<Dict>)
    ensures var idx := AcceptedIndices(known, batch);
      && (forall k :: 0 <= k < |idx| ==> Values(batch[idx[k]]) !in known)
      && (forall k, l :: 0 <= k < l < |idx| ==> Values(batch[idx[k]]) != Values(batch[idx[l]]))
      && (forall i :: 0 <= i < |batch| && Values(batch[i]) !in known ==>
            exists k :: 0 <= k < |idx| && Values(batch[idx[k]]) == Values(batch[i]))
  {
    var idx := AcceptedIndices(known, batch);
    forall i | 0 <= i < |batch| && Values(batch[i]) !in known
      ensures exists k :: 0 <= k < |idx| && Values(batch[idx[k]]) == Values(batch[i])
    {
      var m := FirstOccurrence(batch, i);
      assert IsAccepted(known, batch, m);
      var k :| 0 <= k < |idx| && idx[k] == m;
    }
  }

  /** Blanking sets both category columns to '' and leaves every other column as it was. */
  lemma BlankGet(d: Dict, key: string)
    ensures Get(Blank(d), key) ==
      if key == "Category" || key == "Sub Category" then Some("") else Get(d, key)
  {
    GetSet(Set(d, "Category", ""), "Sub Category", "", key);
    GetSet(d, "Category", "", key);
  }

  /** Rows blanked one for one carry empty categories and, otherwise, their source's columns. */
  lemma BlankedRows(src: seq<Dict>, blanked: seq<Dict>)
    requires |blanked| == |src|
    requires forall k :: 0 <= k < |src| ==> blanked[k] == Blank(src[k])
    ensures forall k :: 0 <= k < |blanked| ==>
        && Get(blanked[k], "Category") == Some("")
        && Get(blanked[k], "Sub Category") == Some("")
        && forall key :: key != "Category" && key != "Sub Category" ==>
             Get(blanked[k], key) == Get(src[k], key)
  {
    forall k, key | 0 <= k < |src|
      ensures Get(Blank(src[k]), key) ==
        if key == "Category" || key == "Sub Category" then Some("") else Get(src[k], key)
    {
      BlankGet(src[k], key);
    }
  }

  /** An accepted row carries empty categories and, otherwise, what the caller gave. */
  lemma AddedRowsAreBlank(known: set<seq<string>>, batch: seq<Dict>)
    ensures var idx := AcceptedIndices(known, batch);
      var added := Added(known, batch);
      && |added| == |idx|
      && forall k :: 0 <= k < |added| ==>
        && Get(added[k], "Category") == Some("")
        && Get(added[k], "Sub Category") == Some("")
        && forall key :: key != "Category" && key != "Sub Category" ==>
             Get(added[k], key) == Get(batch[idx[k]], key)
  {
    var idx := AcceptedIndices(known, batch);
    var src := seq(|idx|, k requires 0 <= k < |idx| => batch[idx[k]]);
    BlankedRows(src, Added(known, batch));
  }

  /** A row that carries the five natural-key columns only, in ledger order. */
  predicate KeyColumnsOnly(d: Dict) {
    Keys(d) == FIELDNAMES[..5]
  }

  /** Neither category column is among the five natural-key columns. */
  lemma CategoriesAbsent(d: Dict)
    requires KeyColumnsOnly(d)
    ensures "Category" !in Keys(d)
    ensures "Sub Category" !in Keys(d + [Field("Category", "")])
  {
    FieldnamesDistinct();
    var c := d + [Field("Category", "")];
    forall i | 0 <= i < |c| ensures Keys(c)[i] == FIELDNAMES[i] {
      if i < 5 { assert Keys(d)[i] == FIELDNAMES[i]; }
    }
    assert FIELDNAMES[5] == "Category" && FIELDNAMES[6] == "Sub Category";
  }

  /** Such a row lacks both category columns, so blanking appends them, in ledger order. */
  lemma BlankKeyRowShape(d: Dict)
    requires KeyColumnsOnly(d)
    ensures Blank(d) == d + [Field("Category", ""), Field("Sub Category", "")]
    ensures Keys(Blank(d)) == FIELDNAMES
  {
    CategoriesAbsent(d);
    SetAbsentAppends(d, "Category", "");
    SetAbsentAppends(d + [Field("Category", "")], "Sub Category", "");
    var b := d + [Field("Category", ""), Field("Sub Category", "")];
    forall i | 0 <= i < |b| ensures Keys(b)[i] == FIELDNAMES[i] {
      if i < 5 { assert Keys(d)[i] == FIELDNAMES[i]; }
    }
  }

  /** Such a row, once blanked, is exactly the line that carries its values and empty categories. */
  lemma BlankKeyRow(d: Dict)
    requires KeyColumnsOnly(d)
    ensures |d| == 5
    ensures var r := Row(d[0].value, d[1].value, d[2].value, d[3].value, d[4].value, "", "");
      && Blank(d) == ToDict(r)
      && Values(d) == NaturalKey(r)
  {
    BlankKeyRowShape(d);
    assert |d| == |Keys(d)| == 5;
    var r := Row(d[0].value, d[1].value, d[2].value, d[3].value, d[4].value, "", "");
    var b := Blank(d);
    forall i | 0 <= i < 7 ensures Values(b)[i] == Cells(r)[i] {
      if i < 5 { assert b[i] == d[i]; }
    }
    ToDictShape(r);
    SameKeysAndValues(b, ToDict(r));
  }

  /** A blanked row that can be written becomes a line with empty categories. */
  lemma BlankWritesEmptyCategories(d: Dict)
    requires Writable(Blank(d))
    ensures FromDict(Blank(d)).value.category == ""
    ensures FromDict(Blank(d)).value.subCategory == ""
  {
    BlankGet(d, "Category");
    BlankGet(d, "Sub Category");
  }

  /**
   * Rewriting the file with its old lines followed by new rows: the old
   * lines always go out unchanged, the new rows as far as they can be written.
   */
  lemma {:induction false} WriteExistingThenAdded(rows: seq<Row>, added: seq<Dict>)
    ensures WriteRows(Dicts(rows) + added) ==
      Written(rows + WriteRows(added).rows, WriteRows(added).complete)
  {
    WriteReadRoundTrip(rows);
    WriteAfterComplete(Dicts(rows), added);
  }

  /** Writing more dictionaries after ones that all went out continues the same file. */
  lemma {:induction false} WriteAfterComplete(front: seq<Dict>, back: seq<Dict>)
    requires WriteRows(front).complete
    ensures WriteRows(front + back) ==
      Written(WriteRows(front).rows + WriteRows(back).rows, WriteRows(back).complete)
  {
    if front == [] {
      assert front + back == back;
    } else {
      var all := front + back;
      assert all[0] == front[0];
      assert all[1..] == front[1..] + back;
      WriteAfterComplete(front[1..], back);
    }
  }

  /**
   * An add in terms of writing the accepted rows after the old lines: the
   * ledger is the old lines and then whatever of the accepted rows could be
   * written, and the add succeeds exactly when all of them could.
   */
  lemma AddRowsWrites(f: LedgerFile, batch: seq<Dict>)
    ensures var rows := Existing(f);
      var known := KnownTuples(rows);
      var added := Added(known, batch);
      var wa := WriteRows(added);
      var o := AddRowsSpec(f, batch);
      && Existing(o.file) == rows + wa.rows
      && (rows == [] && added == [] ==> o.file == f)
      && (rows != [] || added != [] ==> o.file == Some(rows + wa.rows))
      && o.result == (if wa.complete then Ok(AddSummary(|rows| + |added|, added, |batch| - |added|))
                      else Err(ValueError(EXTRA_FIELDS_MESSAGE)))
      && o.batchAfter == Marked(known, batch)
  {
    var rows := Existing(f);
    var added := Added(KnownTuples(rows), batch);
    if rows == [] && added == [] {
      assert Dicts(rows) + added == [];
    } else {
      assert |Dicts(rows) + added| > 0;
      WriteExistingThenAdded(rows, added);
    }
  }

  /** The lines already in the ledger stay at its head, unchanged and in order, even when the write fails. */
  lemma AddRowsKeepsExisting(f: LedgerFile, batch: seq<Dict>)
    ensures var o := AddRowsSpec(f, batch);
      && |Existing(f)| <= |Existing(o.file)|
      && Existing(o.file)[..|Existing(f)|] == Existing(f)
  {
    AddRowsWrites(f, batch);
  }

  /** A write fails only on a row that carries a column outside the ledger's. */
  lemma AddRowsFails(f: LedgerFile, batch: seq<Dict>)
    requires AddRowsSpec(f, batch).result.Err?
    ensures AddRowsSpec(f, batch).result.error == ValueError(EXTRA_FIELDS_MESSAGE)
    ensures exists i :: 0 <= i < |batch| && IsAccepted(KnownTuples(Existing(f)), batch, i) &&
                        exists key :: key in Keys(batch[i]) && key !in FIELDNAMES
  {
    var known := KnownTuples(Existing(f));
    var added := Added(known, batch);
    var idx := AcceptedIndices(known, batch);
    AddRowsWrites(f, batch);
    WriteRowsStops(added);
    var k := |WriteRows(added).rows|;
    var key :| key in Keys(added[k]) && key !in FIELDNAMES;
    assert added[k] == Blank(batch[idx[k]]);
    BlankKeyFrom(batch[idx[k]], key);
  }

  /** Blanking adds no key other than the two category columns. */
  lemma BlankKeyFrom(d: Dict, key: string)
    requires key in Keys(Blank(d))
    ensures key in Keys(d) || key == "Category" || key == "Sub Category"
  {
    SetKeys(d, "Category", "");
    SetKeys(Set(d, "Category", ""), "Sub Category", "");
  }

  /**
   * On success the ledger is the old lines followed by the accepted rows, in
   * input order, each with empty categories; the counts add up.
   */
  lemma AddRowsAppendsAccepted(f: LedgerFile, batch: seq<Dict>)
    requires AddRowsSpec(f, batch).result.Ok?
    ensures var o := AddRowsSpec(f, batch);
      var rows := Existing(f);
      var added := Added(KnownTuples(rows), batch);
      && |Existing(o.file)| == |rows| + |added|
      && Existing(o.file)[..|rows|] == rows
      && (forall k :: 0 <= k < |added| ==>
            && FromDict(added[k]) == Some(Existing(o.file)[|rows| + k])
            && Existing(o.file)[|rows| + k].category == ""
            && Existing(o.file)[|rows| + k].subCategory == "")
      && o.result.value.addedRows == added
      && o.result.value.totalRows == |rows| + |added|
      && o.result.value.duplicateRows == |batch| - |added| >= 0
  {
    var rows := Existing(f);
    var known := KnownTuples(rows);
    var added := Added(known, batch);
    var idx := AcceptedIndices(known, batch);
    AddRowsWrites(f, batch);
    var wa := WriteRows(added);
    WriteRowsStops(added);
    forall k | 0 <= k < |added|
      ensures wa.rows[k].category == "" && wa.rows[k].subCategory == ""
    {
      assert added[k] == Blank(batch[idx[k]]);
      BlankWritesEmptyCategories(batch[idx[k]]);
    }
    var file := Existing(AddRowsSpec(f, batch).file);
    assert forall k :: 0 <= k < |added| ==> file[|rows| + k] == wa.rows[k];
  }

  /** The first accepted row carries a tuple the ledger does not know. */
  lemma FirstAccepted(known: set<seq<string>>, batch: seq<Dict>) returns (j: nat)
    requires |AcceptedIndices(known, batch)| > 0
    ensures j < |batch| && Values(batch[j]) !in known
  {
    j := AcceptedIndices(known, batch)[0];
  }

  /** No accepted index when every tuple of the batch is already known. */
  lemma NoneAccepted(known: set<seq<string>>, batch: seq<Dict>)
    requires forall i :: 0 <= i < |batch| ==> Values(batch[i]) in known
    ensures Added(known, batch) == []
    ensures Marked(known, batch) == batch
  {
    if |AcceptedIndices(known, batch)| > 0 {
      var j := FirstAccepted(known, batch);
      assert false;
    }
    var after := Marked(known, batch);
    assert forall i :: 0 <= i < |batch| ==> after[i] == batch[i];
  }

  /**
   * A batch whose every value tuple the ledger already knows changes
   * nothing: each row is a duplicate, no row is touched, and the file is
   * written back as it was.
   */
  lemma AddRowsAllKnown(f: LedgerFile, batch: seq<Dict>)
    requires forall i :: 0 <= i < |batch| ==> Values(batch[i]) in KnownTuples(Existing(f))
    ensures AddRowsSpec(f, batch) == AddOutcome(
      if Existing(f) == [] then f else Some(Existing(f)),
      Ok(AddSummary(|Existing(f)|, [], |batch|)),
      batch)
  {
    NoneAccepted(KnownTuples(Existing(f)), batch);
    AddRowsWrites(f, batch);
    assert WriteRows([]) == Written([], true);
    assert Existing(f) + [] == Existing(f);
  }

  /** Key-only rows, once accepted and blanked, all go out, each as a line keyed by its tuple. */
  lemma KeyRowsWrite(known: set<seq<string>>, batch: seq<Dict>)
    requires forall i :: 0 <= i < |batch| ==> KeyColumnsOnly(batch[i])
    ensures var idx := AcceptedIndices(known, batch);
      var wa := WriteRows(Added(known, batch));
      && wa.complete
      && |wa.rows| == |idx|
      && forall k :: 0 <= k < |idx| ==> NaturalKey(wa.rows[k]) == Values(batch[idx[k]])
  {
    var idx := AcceptedIndices(known, batch);
    var added := Added(known, batch);
    WriteRowsStops(added);
    var wa := WriteRows(added);
    forall k | 0 <= k < |added|
      ensures Writable(added[k]) && NaturalKey(FromDict(added[k]).value) == Values(batch[idx[k]])
    {
      assert added[k] == Blank(batch[idx[k]]);
      KeyRowLine(batch[idx[k]]);
    }
  }

  /** Appending lines that carry the tuples of the rows they stand for makes those tuples known. */
  lemma TuplesCovered(rows: seq<Row>, lines: seq<Row>, batch: seq<Dict>, idx: seq<nat>)
    requires |lines| == |idx|
    requires forall k :: 0 <= k < |idx| ==> idx[k] < |batch| && NaturalKey(lines[k]) == Values(batch[idx[k]])
    requires forall i :: 0 <= i < |batch| && Values(batch[i]) !in KnownTuples(rows) ==>
      exists k :: 0 <= k < |idx| && Values(batch[idx[k]]) == Values(batch[i])
    ensures forall i :: 0 <= i < |batch| ==> Values(batch[i]) in KnownTuples(rows + lines)
  {
    forall i | 0 <= i < |batch| ensures Values(batch[i]) in KnownTuples(rows + lines) {
      if Values(batch[i]) in KnownTuples(rows) {
        var r :| r in rows && NaturalKey(r) == Values(batch[i]);
        assert r in rows + lines;
      } else {
        var k :| 0 <= k < |idx| && Values(batch[idx[k]]) == Values(batch[i]);
        assert (rows + lines)[|rows| + k] == lines[k];
      }
    }
  }

  /** After adding key-only rows, the ledger knows every tuple of the batch. */
  lemma FirstAddKnowsBatch(f: LedgerFile, batch: seq<Dict>)
    requires forall i :: 0 <= i < |batch| ==> KeyColumnsOnly(batch[i])
    ensures AddRowsSpec(f, batch).result.Ok?
    ensures forall i :: 0 <= i < |batch| ==>
      Values(batch[i]) in KnownTuples(Existing(AddRowsSpec(f, batch).file))
  {
    var rows := Existing(f);
    var known := KnownTuples(rows);
    AddRowsWrites(f, batch);
    KeyRowsWrite(known, batch);
    AcceptedTuples(known, batch);
    TuplesCovered(rows, WriteRows(Added(known, batch)).rows, batch, AcceptedIndices(known, batch));
  }

  /** A blanked key-only row is writable, and its line's tuple is the row's value tuple. */
  lemma KeyRowLine(d: Dict)
    requires KeyColumnsOnly(d)
    ensures Writable(Blank(d))
    ensures NaturalKey(FromDict(Blank(d)).value) == Values(d)
  {
    BlankKeyRow(d);
    var r := Row(d[0].value, d[1].value, d[2].value, d[3].value, d[4].value, "", "");
    FromToDict(r);
  }

  /**
   * Re-adding rows that carry exactly the five natural-key columns, in
   * ledger order, to the ledger the first add left adds nothing: every row
   * is counted a duplicate and the file is written back unchanged.
   */
  lemma AddRowsIdempotent(f: LedgerFile, batch: seq<Dict>)
    requires forall i :: 0 <= i < |batch| ==> KeyColumnsOnly(batch[i])
    ensures var o1 := AddRowsSpec(f, batch);
      var o2 := AddRowsSpec(o1.file, batch);
      && o1.result.Ok?
      && o2.file == o1.file
      && o2.result == Ok(AddSummary(|Existing(o1.file)|, [], |batch|))
      && o2.batchAfter == batch
  {
    FirstAddKnowsBatch(f, batch);
    var o1 := AddRowsSpec(f, batch);
    AddRowsAllKnown(o1.file, batch);
    if Existing(o1.file) == [] {
      assert o1.file == None || o1.file == Some([]);
    }
  }
}
