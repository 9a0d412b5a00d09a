/**
 * `MasterCSVManager.update_rows_with_categories` (server/master_csv_manager.py):
 * each update row names a transaction by its five natural-key columns and
 * carries the categories to write on the first line of the ledger with that
 * key. Reading a column the update row lacks raises KeyError, which aborts
 * the whole call before the file is rewritten.
 */
module CategoryUpdate {
  import opened Wrappers
  import opened PyDict
  import opened MasterCsv

  /** `row[col]` on an update row. */
  function Lookup(u: Dict, col: string): (r: Result<string, Exception>)
    ensures r.Ok? <==> col in Keys(u)
    ensures r.Err? ==> r.error == KeyError(col)
  {
    GetPresent(u, col);
    match Get(u, col)
    case Some(v) => Ok(v)
    case None => Err(KeyError(col))
  }

  /**
   * The condition of the inner loop, from column i on: the natural-key
   * columns are compared left to right and evaluation stops at the first one
   * that differs, so a column after it is never read.
   */
  function MatchesFrom(u: Dict, key: seq<string>, i: nat): Result<bool, Exception>
    requires |key| == 5 && i <= 5
    decreases 5 - i
  {
    if i == 5 then Ok(true)
    else match Lookup(u, FIELDNAMES[i])
      case Err(e) => Err(e)
      case Ok(v) => if v != key[i] then Ok(false) else MatchesFrom(u, key, i + 1)
  }

  /** Does update row u name line r? */
  function Matches(u: Dict, r: Row): Result<bool, Exception> {
    MatchesFrom(u, NaturalKey(r), 0)
  }

  /** The update row carries all five natural-key columns. */
  predicate HasKey(u: Dict) {
    forall i :: 0 <= i < 5 ==> FIELDNAMES[i] in Keys(u)
  }

  /** The natural key an update row names, when it carries one. */
  function UpdateKey(u: Dict): (key: seq<string>)
    requires HasKey(u)
    ensures |key| == 5
    ensures forall i :: 0 <= i < 5 ==> Get(u, FIELDNAMES[i]) == Some(key[i])
  {
    seq(5, i requires 0 <= i < 5 => Lookup(u, FIELDNAMES[i]).value)
  }

  lemma {:induction false} MatchesFromKey(u: Dict, key: seq<string>, i: nat)
    requires HasKey(u) && |key| == 5 && i <= 5
    ensures MatchesFrom(u, key, i) == Ok(UpdateKey(u)[i..] == key[i..])
    decreases 5 - i
  {
    if i < 5 {
      var k := UpdateKey(u);
      MatchesFromKey(u, key, i + 1);
      assert k[i..] == [k[i]] + k[i + 1..];
      assert key[i..] == [key[i]] + key[i + 1..];
    }
  }

  /**
   * With all five key columns present the comparison never raises, and it
   * holds exactly when the update names the line's natural key.
   */
  lemma MatchesKey(u: Dict, r: Row)
    requires HasKey(u)
    ensures Matches(u, r) == Ok(UpdateKey(u) == NaturalKey(r))
  {
    MatchesFromKey(u, NaturalKey(r), 0);
  }

  /**
   * The comparison raises exactly for the first key column the update lacks,
   * provided every column before it matched.
   */
  lemma {:induction false} MatchesFromRaises(u: Dict, key: seq<string>, i: nat)
    requires |key| == 5 && i <= 5
    ensures MatchesFrom(u, key, i).Err? <==>
      exists m :: i <= m < 5 && FIELDNAMES[m] !in Keys(u) &&
        forall l :: i <= l < m ==> Get(u, FIELDNAMES[l]) == Some(key[l])
    decreases 5 - i
  {
    if i < 5 {
      MatchesFromRaises(u, key, i + 1);
      GetPresent(u, FIELDNAMES[i]);
    }
  }

  /**
   * The first line from j on that update u names: Ok(None) when there is
   * none, or the KeyError a comparison raised on the way.
   */
  function FindMatch(rows: seq<Row>, u: Dict, j: nat): (r: Result<Option<nat>, Exception>)
    requires j <= |rows|
    ensures r.Ok? && r.value.Some? ==> j <= r.value.value < |rows|
    decreases |rows| - j
  {
    if j == |rows| then Ok(None)
    else match Matches(u, rows[j])
      case Err(e) => Err(e)
      case Ok(true) => Ok(Some(j))
      case Ok(false) => FindMatch(rows, u, j + 1)
  }

  /**
   * What the search finds: the first line from j on that u names, with every
   * line before it compared false; none when every line compares false; an
   * error only when some comparison raised it.
   */
  lemma {:induction false} FindMatchSpec(rows: seq<Row>, u: Dict, j: nat)
    requires j <= |rows|
    ensures var r := FindMatch(rows, u, j);
      && (r.Ok? && r.value.Some? ==>
        && Matches(u, rows[r.value.value]) == Ok(true)
        && forall l :: j <= l < r.value.value ==> Matches(u, rows[l]) == Ok(false))
      && (r.Ok? && r.value.None? ==> forall l :: j <= l < |rows| ==> Matches(u, rows[l]) == Ok(false))
      && (r.Err? ==> exists l :: j <= l < |rows| && Matches(u, rows[l]) == Err(r.error))
    decreases |rows| - j
  {
    if j < |rows| && Matches(u, rows[j]) == Ok(false) {
      FindMatchSpec(rows, u, j + 1);
    }
  }

  /** One update row: the first line it names takes its two categories. */
  function ApplyOne(rows: seq<Row>, u: Dict): Result<seq<Row>, Exception> {
    match FindMatch(rows, u, 0)
    case Err(e) => Err(e)
    case Ok(None) => Ok(rows)
    case Ok(Some(m)) =>
      match Lookup(u, "Category")
      case Err(e) => Err(e)
      case Ok(c) =>
        match Lookup(u, "Sub Category")
        case Err(e) => Err(e)
        case Ok(s) => Ok(rows[m := rows[m].(category := c, subCategory := s)])
  }

  /** The update rows in order; the first error ends the call. */
  function ApplyUpdates(rows: seq<Row>, us: seq<Dict>): Result<seq<Row>, Exception>
    decreases |us|
  {
    if us == [] then Ok(rows)
    else match ApplyUpdates(rows, us[..|us| - 1])
      case Err(e) => Err(e)
      case Ok(cur) => ApplyOne(cur, us[|us| - 1])
  }

  /** Once an update raises, the later update rows are never looked at. */
  lemma {:induction false} UpdatesStopAtError(rows: seq<Row>, us: seq<Dict>, n: nat)
    requires n <= |us|
    requires ApplyUpdates(rows, us[..n]).Err?
    ensures ApplyUpdates(rows, us) == ApplyUpdates(rows, us[..n])
    decreases |us|
  {
    if n < |us| {
      var front := us[..|us| - 1];
      assert front[..n] == us[..n];
      UpdatesStopAtError(rows, front, n);
    } else {
      assert us[..n] == us;
    }
  }

  /** What an update leaves behind: the file and the result. */
  datatype UpdateOutcome = UpdateOutcome(file: LedgerFile, result: Result<bool, Exception>)

  /**
   * `update_rows_with_categories(us)` on file f: on an error the file is not
   * touched; otherwise it is rewritten, created empty when it was absent.
   */
  function UpdateRowsSpec(f: LedgerFile, us: seq<Dict>): UpdateOutcome {
    match ApplyUpdates(Existing(f), us)
    case Err(e) => UpdateOutcome(f, Err(e))
    case Ok(rows) => UpdateOutcome(Some(rows), Ok(true))
  }

  /** Two ledgers that differ at most in their category columns. */
  predicate SameTransactions(a: seq<Row>, b: seq<Row>) {
    |a| == |b| && forall i :: 0 <= i < |a| ==> NaturalKey(a[i]) == NaturalKey(b[i])
  }

  /** One update changes at most the categories of one line. */
  lemma ApplyOneKeepsTransactions(rows: seq<Row>, u: Dict)
    requires ApplyOne(rows, u).Ok?
    ensures SameTransactions(rows, ApplyOne(rows, u).value)
  {
    FindMatchSpec(rows, u, 0);
  }

  /**
   * Updating categories never adds, drops, reorders or rewrites a
   * transaction: only Category and Sub Category can change.
   */
  lemma {:induction false} UpdatesKeepTransactions(rows: seq<Row>, us: seq<Dict>)
    requires ApplyUpdates(rows, us).Ok?
    ensures SameTransactions(rows, ApplyUpdates(rows, us).value)
    decreases |us|
  {
    if us != [] {
      var front := us[..|us| - 1];
      UpdatesKeepTransactions(rows, front);
      var cur := ApplyUpdates(rows, front).value;
      ApplyOneKeepsTransactions(cur, us[|us| - 1]);
    }
  }

  /** The update row carries all seven columns of the ledger. */
  predicate Complete(u: Dict) {
    HasKey(u) && "Category" in Keys(u) && "Sub Category" in Keys(u)
  }

  /**
   * A complete update row never raises. It leaves the ledger as it was when
   * no line has its natural key, and otherwise sets the categories of the
   * first such line and of no other.
   */
  lemma ApplyOneComplete(rows: seq<Row>, u: Dict)
    requires Complete(u)
    ensures ApplyOne(rows, u).Ok?
    ensures var r := ApplyOne(rows, u).value;
      if forall i :: 0 <= i < |rows| ==> NaturalKey(rows[i]) != UpdateKey(u) then
        r == rows
      else
        exists m ::
          && 0 <= m < |rows|
          && NaturalKey(rows[m]) == UpdateKey(u)
          && (forall l :: 0 <= l < m ==> NaturalKey(rows[l]) != UpdateKey(u))
          && r == rows[m := rows[m].(category := Lookup(u, "Category").value,
                                    subCategory := Lookup(u, "Sub Category").value)]
  {
    FindMatchSpec(rows, u, 0);
    forall l | 0 <= l < |rows| ensures Matches(u, rows[l]) == Ok(UpdateKey(u) == NaturalKey(rows[l])) {
      MatchesKey(u, rows[l]);
    }
  }

  /**
   * Of two complete updates for the same transaction, the later one decides
   * the categories the line ends with.
   */
  lemma LaterUpdateWins(rows: seq<Row>, u1: Dict, u2: Dict)
    requires Complete(u1) && Complete(u2) && UpdateKey(u1) == UpdateKey(u2)
    ensures ApplyUpdates(rows, [u1, u2]) == ApplyUpdates(rows, [u2])
  {
    UpdatesInOrder(rows, u1, u2);
    FindMatchOk(rows, u1);
    SameKeyFind(rows, u1, u2);
    var r1 := ApplyOne(rows, u1).value;
    SameKeysFind(rows, r1, u2);
    match FindMatch(rows, u1, 0).value
    case None =>
    case Some(m) =>
      var c2, s2 := Lookup(u2, "Category").value, Lookup(u2, "Sub Category").value;
      assert r1[m := r1[m].(category := c2, subCategory := s2)] ==
        rows[m := rows[m].(category := c2, subCategory := s2)];
  }

  /** One update row, then two, in the order given. */
  lemma UpdatesInOrder(rows: seq<Row>, u1: Dict, u2: Dict)
    ensures ApplyUpdates(rows, [u2]) == ApplyOne(rows, u2)
    ensures ApplyUpdates(rows, [u1, u2]) ==
      match ApplyOne(rows, u1)
      case Err(e) => Err(e)
      case Ok(r1) => ApplyOne(r1, u2)
  {
    assert [u1, u2][..1] == [u1];
    assert [u2][..0] == [] && [u1][..0] == [];
  }

  /** An update row that carries its key finds a line or none, and never raises. */
  lemma FindMatchOk(rows: seq<Row>, u: Dict)
    requires HasKey(u)
    ensures FindMatch(rows, u, 0).Ok?
  {
    FindMatchSpec(rows, u, 0);
    if FindMatch(rows, u, 0).Err? {
      var l :| 0 <= l < |rows| && Matches(u, rows[l]).Err?;
      MatchesKey(u, rows[l]);
    }
  }

  /** Two update rows that name the same natural key find the same line. */
  lemma SameKeyFind(rows: seq<Row>, u1: Dict, u2: Dict)
    requires HasKey(u1) && HasKey(u2) && UpdateKey(u1) == UpdateKey(u2)
    ensures FindMatch(rows, u1, 0) == FindMatch(rows, u2, 0)
  {
    SameKeyFindFrom(rows, u1, u2, 0);
  }

  lemma {:induction false} SameKeyFindFrom(rows: seq<Row>, u1: Dict, u2: Dict, j: nat)
    requires HasKey(u1) && HasKey(u2) && UpdateKey(u1) == UpdateKey(u2) && j <= |rows|
    ensures FindMatch(rows, u1, j) == FindMatch(rows, u2, j)
    decreases |rows| - j
  {
    if j < |rows| {
      MatchesKey(u1, rows[j]);
      MatchesKey(u2, rows[j]);
      SameKeyFindFrom(rows, u1, u2, j + 1);
    }
  }

  /** Lines with the same natural keys are matched the same way. */
  lemma SameKeysFind(a: seq<Row>, b: seq<Row>, u: Dict)
    requires SameTransactions(a, b)
    ensures FindMatch(a, u, 0) == FindMatch(b, u, 0)
  {
    SameKeysFindFrom(a, b, u, 0);
  }

  lemma {:induction false} SameKeysFindFrom(a: seq<Row>, b: seq<Row>, u: Dict, j: nat)
    requires SameTransactions(a, b) && j <= |a|
    ensures FindMatch(a, u, j) == FindMatch(b, u, j)
    decreases |a| - j
  {
    if j < |a| {
      SameKeysFindFrom(a, b, u, j + 1);
      SameKeyFindStep(a, b, u, j);
    } else {
      NothingLeftToFind(a, b, u, j);
    }
  }

  /** Past the last line there is nothing to find, in either ledger. */
  lemma NothingLeftToFind(a: seq<Row>, b: seq<Row>, u: Dict, j: nat)
    requires j == |a| == |b|
    ensures FindMatch(a, u, j) == FindMatch(b, u, j) == Ok(None)
  {
  }

  /** Lines with the same natural key are matched alike, so the search continues alike. */
  lemma SameKeyFindStep(a: seq<Row>, b: seq<Row>, u: Dict, j: nat)
    requires SameTransactions(a, b) && j < |a|
    requires FindMatch(a, u, j + 1) == FindMatch(b, u, j + 1)
    ensures FindMatch(a, u, j) == FindMatch(b, u, j)
  {
    assert NaturalKey(a[j]) == NaturalKey(b[j]);
    assert Matches(u, a[j]) == Matches(u, b[j]);
  }

  /**
   * On a ledger that does not exist every update is ignored, and the call
   * leaves an empty ledger behind: the header alone.
   */
  lemma {:induction false} UpdateAbsentLedger(us: seq<Dict>)
    ensures UpdateRowsSpec(None, us) == UpdateOutcome(Some([]), Ok(true))
  {
    EmptyLedgerIgnoresUpdates(us);
  }

  lemma {:induction false} EmptyLedgerIgnoresUpdates(us: seq<Dict>)
    ensures ApplyUpdates([], us) == Ok([])
    decreases |us|
  {
    if us != [] {
      EmptyLedgerIgnoresUpdates(us[..|us| - 1]);
    }
  }

  /**
   * An update row without a Date column fails the call on any non-empty
   * ledger, since Date is the first column compared, and the file stays as it was.
   */
  lemma MissingDateFails(f: LedgerFile, u: Dict)
    requires Existing(f) != [] && "Date" !in Keys(u)
    ensures UpdateRowsSpec(f, [u]) == UpdateOutcome(f, Err(KeyError("Date")))
  {
    assert [u][..0] == [];
    var rows := Existing(f);
    assert ApplyUpdates(rows, [u]) == ApplyOne(rows, u);
    assert Lookup(u, FIELDNAMES[0]) == Err(KeyError("Date"));
    assert Matches(u, rows[0]) == Err(KeyError("Date"));
    assert FindMatch(rows, u, 0) == Err(KeyError("Date"));
  }

  /** A line of the ledger, as a dictionary, is a complete update naming itself. */
  lemma LineAsUpdate(r: Row)
    ensures Complete(ToDict(r))
    ensures UpdateKey(ToDict(r)) == NaturalKey(r)
    ensures Lookup(ToDict(r), "Category") == Ok(r.category)
    ensures Lookup(ToDict(r), "Sub Category") == Ok(r.subCategory)
  {
    var d := ToDict(r);
    ToDictShape(r);
    forall i | 0 <= i < 7
      ensures FIELDNAMES[i] in Keys(d) && Get(d, FIELDNAMES[i]) == Some(Cells(r)[i])
    {
      assert Keys(d)[i] == FIELDNAMES[i];
      GetAt(d, i);
    }
    assert Get(d, FIELDNAMES[5]) == Some(r.category);
    assert Get(d, FIELDNAMES[6]) == Some(r.subCategory);
    assert UpdateKey(d) == Cells(r)[..5];
  }

  /** No two lines of the ledger share a natural key. */
  predicate DistinctTransactions(rows: seq<Row>) {
    forall i, j :: 0 <= i < j < |rows| ==> NaturalKey(rows[i]) != NaturalKey(rows[j])
  }

  /** Lines final[t] for t in touched, as the update rows handed to the call. */
  function LineUpdates(final: seq<Row>, touched: seq<nat>): (us: seq<Dict>)
    requires forall m :: 0 <= m < |touched| ==> touched[m] < |final|
    ensures |us| == |touched|
  {
    seq(|touched|, m requires 0 <= m < |touched| => ToDict(final[touched[m]]))
  }

  /** The ledger with the touched lines taken from final. */
  function Mix(rows: seq<Row>, final: seq<Row>, touched: seq<nat>): (mixed: seq<Row>)
    requires |final| == |rows|
    ensures |mixed| == |rows|
  {
    seq(|rows|, i requires 0 <= i < |rows| => if i in touched then final[i] else rows[i])
  }

  /** A line takes the categories of a line with the same natural key and becomes it. */
  lemma SameKeyRow(a: Row, b: Row)
    requires NaturalKey(a) == NaturalKey(b)
    ensures a.(category := b.category, subCategory := b.subCategory) == b
  {
    assert NaturalKey(a)[0] == NaturalKey(b)[0] && NaturalKey(a)[1] == NaturalKey(b)[1];
    assert NaturalKey(a)[2] == NaturalKey(b)[2] && NaturalKey(a)[3] == NaturalKey(b)[3];
    assert NaturalKey(a)[4] == NaturalKey(b)[4];
  }

  /** Every line of the mixed ledger records the transaction of the same line of rows. */
  lemma MixKey(rows: seq<Row>, final: seq<Row>, front: seq<nat>, i: nat)
    requires SameTransactions(rows, final) && i < |rows|
    ensures NaturalKey(Mix(rows, final, front)[i]) == NaturalKey(rows[i])
  {
  }

  /** The first line with the natural key of a line of final is that very line. */
  lemma FindsOwnLine(rows: seq<Row>, final: seq<Row>, front: seq<nat>, t: nat)
    requires DistinctTransactions(rows) && SameTransactions(rows, final)
    requires t < |rows|
    ensures FindMatch(Mix(rows, final, front), ToDict(final[t]), 0) == Ok(Some(t))
  {
    var cur := Mix(rows, final, front);
    var u := ToDict(final[t]);
    LineAsUpdate(final[t]);
    FindMatchOk(cur, u);
    FindMatchSpec(cur, u, 0);
    MixKey(rows, final, front, t);
    MatchesKey(u, cur[t]);
    match FindMatch(cur, u, 0).value
    case None =>
      assert false;
    case Some(m) =>
      MixKey(rows, final, front, m);
      MatchesKey(u, cur[m]);
      assert NaturalKey(rows[m]) == NaturalKey(rows[t]);
  }

  /** One more handed line: it becomes the line of final. */
  lemma MixStep(rows: seq<Row>, final: seq<Row>, front: seq<nat>, t: nat)
    requires DistinctTransactions(rows) && SameTransactions(rows, final)
    requires t < |rows|
    ensures ApplyOne(Mix(rows, final, front), ToDict(final[t])) == Ok(Mix(rows, final, front + [t]))
  {
    var cur := Mix(rows, final, front);
    FindsOwnLine(rows, final, front, t);
    LineAsUpdate(final[t]);
    assert NaturalKey(cur[t]) == NaturalKey(final[t]);
    SameKeyRow(cur[t], final[t]);
    assert cur[t := final[t]] == Mix(rows, final, front + [t]);
  }

  /**
   * Handing the call some lines of an edited copy of a ledger whose natural
   * keys are distinct and unedited sets exactly those lines to their edited
   * categories, whatever the order and however often a line is handed.
   */
  lemma {:induction false} UpdatesFromLines(rows: seq<Row>, final: seq<Row>, touched: seq<nat>)
    requires DistinctTransactions(rows) && SameTransactions(rows, final)
    requires forall m :: 0 <= m < |touched| ==> touched[m] < |rows|
    ensures ApplyUpdates(rows, LineUpdates(final, touched)) == Ok(Mix(rows, final, touched))
    decreases |touched|
  {
    var us := LineUpdates(final, touched);
    if touched == [] {
      assert Mix(rows, final, touched) == rows;
    } else {
      var front := touched[..|touched| - 1];
      var t := touched[|touched| - 1];
      UpdatesFromLines(rows, final, front);
      assert us[..|us| - 1] == LineUpdates(final, front);
      assert us[|us| - 1] == ToDict(final[t]);
      assert ApplyUpdates(rows, us) == ApplyOne(Mix(rows, final, front), ToDict(final[t]));
      assert touched == front + [t];
      MixStep(rows, final, front, t);
    }
  }
}
