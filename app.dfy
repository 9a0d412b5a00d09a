/**
 * The upload endpoint of the server: the file-name check, the shaping of the
 * parsed CSV rows into the endpoint's `csv_data`, and the cascade of checks
 * `upload_csv` runs before it hands the rows to the ledger and queues them
 * for categorisation.
 */
module App {
  import opened Wrappers
  import opened PyDict
  import opened MasterCsv
  import opened Ledger

  // ---------------------------------------------------------------------
  // allowed_file
  // ---------------------------------------------------------------------

  /** The index of the last '.' of s, if it has one. */
  function LastDot(s: string): (k: Option<nat>)
    ensures k.None? <==> '.' !in s
    ensures k.Some? ==> k.value < |s| && s[k.value] == '.' && '.' !in s[k.value + 1..]
  {
    if s == [] then None
    else if s[|s| - 1] == '.' then Some(|s| - 1)
    else
      var k := LastDot(s[..|s| - 1]);
      assert s == s[..|s| - 1] + [s[|s| - 1]];
      if k.Some? then
        assert s[k.value + 1..] == s[..|s| - 1][k.value + 1..] + [s[|s| - 1]];
        k
      else k
  }

  /**
   * `str.lower()` on the letters A to Z. Other characters are kept; no other
   * character lowers to one of "csv", so the extension test is unaffected.
   */
  function Lower(s: string): (r: string)
    ensures |r| == |s|
    ensures forall i :: 0 <= i < |s| ==> r[i] == (if 'A' <= s[i] <= 'Z' then (s[i] as int + 32) as char else s[i])
  {
    seq(|s|, i requires 0 <= i < |s| => if 'A' <= s[i] <= 'Z' then (s[i] as int + 32) as char else s[i])
  }

  /** `app.config['ALLOWED_EXTENSIONS']` */
  const ALLOWED_EXTENSIONS: set<string> := {"csv"}

  /** Position k holds the last '.' of s. */
  predicate IsLastDot(s: string, k: nat) {
    k < |s| && s[k] == '.' && '.' !in s[k + 1..]
  }

  /**
   * `allowed_file`: the text after the last '.' (`rsplit('.', 1)[1]`),
   * lowered, is an allowed extension.
   */
  function AllowedFile(filename: string): (ok: bool)
    ensures '.' !in filename ==> !ok
    ensures ok <==> exists k: nat :: IsLastDot(filename, k) && Lower(filename[k + 1..]) == "csv"
  {
    var dot := LastDot(filename);
    LastDotFound(filename);
    if dot.None? then false
    else
      assert IsLastDot(filename, dot.value);
      Lower(filename[dot.value + 1..]) in ALLOWED_EXTENSIONS
  }

  /** LastDot finds the last dot wherever it is. */
  lemma LastDotFound(s: string)
    ensures forall k: nat :: IsLastDot(s, k) ==> LastDot(s) == Some(k)
  {
    forall k: nat | IsLastDot(s, k) ensures LastDot(s) == Some(k) {
      LastDotUnique(s, k, LastDot(s).value);
    }
  }

  /** A dot after position k lies in the text after k. */
  lemma DotInTail(s: string, k: nat, m: nat)
    requires k < m < |s| && s[m] == '.'
    ensures '.' in s[k + 1..]
  {
    assert s[k + 1..][m - k - 1] == s[m];
  }

  /** A string has one last dot. */
  lemma LastDotUnique(s: string, k: nat, m: nat)
    requires IsLastDot(s, k) && IsLastDot(s, m)
    ensures k == m
  {
    if k < m {
      DotInTail(s, k, m);
    } else if m < k {
      DotInTail(s, m, k);
    }
  }

  /** A name ending in ".csv", in any case, is allowed whatever comes before. */
  lemma {:induction false} CsvSuffixAllowed(stem: string, ext: string)
    requires |ext| == 3 && Lower(ext) == "csv"
    ensures AllowedFile(stem + "." + ext)
  {
    var s := stem + "." + ext;
    var k := |stem|;
    assert s[k] == '.';
    assert s[k + 1..] == ext;
    assert '.' !in ext by {
      forall i | 0 <= i < |ext| ensures ext[i] != '.' {
        assert Lower(ext)[i] == "csv"[i];
      }
    }
  }

  /** Only the last extension counts: "x.csv.bak" is refused. */
  lemma {:induction false} LastExtensionDecides(stem: string, ext: string)
    requires '.' !in ext && Lower(ext) != "csv"
    ensures !AllowedFile(stem + "." + ext)
  {
    var s := stem + "." + ext;
    assert s[|stem|] == '.' && s[|stem| + 1..] == ext;
    if AllowedFile(s) {
      var k: nat :| IsLastDot(s, k) && Lower(s[k + 1..]) == "csv";
      LastDotUnique(s, k, |stem|);
    }
  }

  lemma UpperCaseExtensionAllowed()
    ensures AllowedFile("x.CSV")
  {
    assert "x.CSV" == "x" + "." + "CSV";
    CsvSuffixAllowed("x", "CSV");
  }

  lemma DoubleExtensionRefused()
    ensures !AllowedFile("x.csv.bak")
  {
    assert "x.csv.bak" == "x.csv" + "." + "bak";
    assert Lower("bak")[0] == 'b';
    LastExtensionDecides("x.csv", "bak");
  }

  // ---------------------------------------------------------------------
  // parse_csv_content
  // ---------------------------------------------------------------------

  /**
   * What `csv.DictReader` yields over the uploaded text: the rows it read
   * and, if decoding or parsing raised, the text of that exception.
   */
  datatype Reader = Reader(rows: seq<Dict>, failure: Option<string>)

  /** The successful result of `parse_csv_content`. */
  datatype CsvData = CsvData(rowCount: nat, columns: seq<string>, data: seq<Dict>, preview: seq<Dict>, totalRows: nat)

  const PREVIEW_ROWS: nat := 10
  const PARSE_FAILED := "Failed to parse CSV: "

  function Min(a: nat, b: nat): nat {
    if a <= b then a else b
  }

  /** The result dictionary built from the rows read. */
  function Shaped(rows: seq<Dict>): (d: CsvData)
    ensures d.data == rows && d.rowCount == |rows| && d.totalRows == |rows|
    ensures |d.preview| <= PREVIEW_ROWS && d.preview <= rows
    ensures |rows| <= PREVIEW_ROWS ==> d.preview == rows
    ensures |rows| > PREVIEW_ROWS ==> |d.preview| == PREVIEW_ROWS
    ensures rows == [] <==> d.columns == [] && d.preview == []
    ensures rows != [] ==> d.columns == Keys(rows[0]) && d.preview[0] == rows[0]
  {
    CsvData(|rows|, if rows == [] then [] else Keys(rows[0]), rows, rows[..Min(PREVIEW_ROWS, |rows|)], |rows|)
  }

  /**
   * `parse_csv_content`: collect the reader's rows; an exception becomes a
   * failure message.
   */
  method ParseCsvContent(reader: Reader) returns (result: Result<CsvData, string>)
    ensures reader.failure.Some? ==> result == Err(PARSE_FAILED + reader.failure.value)
    ensures reader.failure.None? ==> result == Ok(Shaped(reader.rows))
  {
    var rows: seq<Dict> := [];
    for i := 0 to |reader.rows|
      invariant rows == reader.rows[..i]
    {
      rows := rows + [reader.rows[i]];
    }
    assert rows == reader.rows;
    if reader.failure.Some? {
      return Err(PARSE_FAILED + reader.failure.value);
    }
    result := Ok(Shaped(rows));
  }

  // ---------------------------------------------------------------------
  // upload_csv
  // ---------------------------------------------------------------------

  /** The `file` part of a request: its name, its size in bytes and its content. */
  datatype FileUpload = FileUpload(filename: string, size: nat, content: Reader)

  /** A POST to `/upload`; `file` is absent when the form has no such field. */
  datatype Request = Request(file: Option<FileUpload>)

  /** The counts `upload_csv` relays from the ledger. */
  datatype MasterSummary = MasterSummary(totalRows: nat, addedRows: nat, duplicateRows: int)

  /**
   * The `csv_data` object of the response: the parse result's counts and
   * columns, with only the preview rows sent under `data`.
   */
  datatype SentCsvData = SentCsvData(rowCount: nat, columns: seq<string>, data: seq<Dict>, totalRows: nat)

  /** The JSON body of the response. */
  datatype Response =
    | Rejected(error: string)
    | Uploaded(originalFilename: string, fileSize: nat, csvData: SentCsvData, masterCsv: MasterSummary)

  const NO_FILE := "No file provided"
  const NO_SELECTION := "No file selected"
  const INVALID_TYPE := "Invalid file type. Only CSV files are allowed."
  const SERVER_ERROR := "Server error: "

  /** `str(e)`: a KeyError shows its key quoted. */
  function ExceptionText(e: Exception): string {
    match e
    case KeyError(k) => "'" + k + "'"
    case ValueError(m) => m
    case FileNotFoundError(name) => name
  }

  /** The checks before the ledger is touched; the first that fails answers. */
  function Rejection(req: Request): Option<string> {
    if req.file.None? then Some(NO_FILE)
    else if req.file.value.filename == "" then Some(NO_SELECTION)
    else if !AllowedFile(req.file.value.filename) then Some(INVALID_TYPE)
    else if req.file.value.content.failure.Some? then Some(PARSE_FAILED + req.file.value.content.failure.value)
    else None
  }

  /** The ledger file, the categorisation queue and the response after one upload. */
  datatype UploadOutcome = UploadOutcome(file: LedgerFile, queue: seq<seq<Dict>>, response: Response)

  /**
   * `upload_csv` on ledger file f with queue q. The preview shows the first
   * rows as the ledger left them (accepted rows blanked), while the columns
   * were taken before.
   */
  function UploadSpec(f: LedgerFile, q: seq<seq<Dict>>, req: Request): UploadOutcome {
    match Rejection(req)
    case Some(message) => UploadOutcome(f, q, Rejected(message))
    case None =>
      var u := req.file.value;
      var parsed := Shaped(u.content.rows);
      var o := AddRowsSpec(f, u.content.rows);
      match o.result
      case Err(e) => UploadOutcome(o.file, q, Rejected(SERVER_ERROR + ExceptionText(e)))
      case Ok(summary) =>
        UploadOutcome(
          o.file,
          q + [summary.addedRows],
          Uploaded(u.filename, u.size,
                   SentCsvData(parsed.rowCount, parsed.columns, o.batchAfter[..|parsed.preview|], parsed.totalRows),
                   MasterSummary(summary.totalRows, |summary.addedRows|, summary.duplicateRows)))
  }

  /** The checks run in order: a missing field, then an empty name, then the extension, then the parse. */
  lemma UploadRejectionOrder(f: LedgerFile, q: seq<seq<Dict>>, req: Request)
    ensures req.file.None? ==> UploadSpec(f, q, req).response == Rejected(NO_FILE)
    ensures req.file.Some? && req.file.value.filename == "" ==>
      UploadSpec(f, q, req).response == Rejected(NO_SELECTION)
    ensures req.file.Some? && req.file.value.filename != "" && !AllowedFile(req.file.value.filename) ==>
      UploadSpec(f, q, req).response == Rejected(INVALID_TYPE)
    ensures req.file.Some? && AllowedFile(req.file.value.filename) && req.file.value.content.failure.Some? ==>
      UploadSpec(f, q, req).response == Rejected(PARSE_FAILED + req.file.value.content.failure.value)
  {
    if req.file.Some? && AllowedFile(req.file.value.filename) {
      assert req.file.value.filename != "";
    }
  }

  /** A request refused by the checks changes neither the ledger nor the queue. */
  lemma RejectionsTouchNothing(f: LedgerFile, q: seq<seq<Dict>>, req: Request)
    requires Rejection(req).Some?
    ensures UploadSpec(f, q, req) == UploadOutcome(f, q, Rejected(Rejection(req).value))
  {
  }

  /**
   * A successful upload: the ledger gets the accepted rows, exactly those are
   * queued for categorisation, the counts are relayed from the ledger, and
   * only the preview rows are sent back.
   */
  lemma UploadRelaysCounts(f: LedgerFile, q: seq<seq<Dict>>, req: Request)
    requires UploadSpec(f, q, req).response.Uploaded?
    ensures var rows := req.file.value.content.rows;
      var added := Added(KnownTuples(Existing(f)), rows);
      var o := UploadSpec(f, q, req);
      && Rejection(req).None?
      && o.file == AddRowsSpec(f, rows).file
      && o.queue == q + [added]
      && o.response.csvData.rowCount == o.response.csvData.totalRows == |rows|
      && o.response.csvData.columns == Shaped(rows).columns
      && |o.response.csvData.data| == Min(PREVIEW_ROWS, |rows|)
      && o.response.masterCsv.addedRows == |added|
      && o.response.masterCsv.totalRows == |Existing(f)| + |added|
      && o.response.masterCsv.duplicateRows == |rows| - |added| >= 0
  {
    var rows := req.file.value.content.rows;
    AddRowsAppendsAccepted(f, rows);
  }

  /** The server: the ledger it writes to and the queue the consumer reads. */
  class Server {
    const master: MasterCsvManager
    var categorizedQueue: seq<seq<Dict>>

    constructor(m: MasterCsvManager)
      ensures master == m && categorizedQueue == []
    {
      master := m;
      categorizedQueue := [];
    }

    /** `upload_csv` */
    method UploadCsv(req: Request) returns (response: Response)
      modifies this, master
      ensures UploadOutcome(master.file, categorizedQueue, response) ==
              UploadSpec(old(master.file), old(categorizedQueue), req)
    {
      if req.file.None? {
        return Rejected(NO_FILE);
      }
      var file := req.file.value;
      if file.filename == "" {
        return Rejected(NO_SELECTION);
      }
      if !AllowedFile(file.filename) {
        return Rejected(INVALID_TYPE);
      }
      var result := ParseCsvContent(file.content);
      if result.Err? {
        return Rejected(result.error);
      }
      var parsed := result.value;
      var masterResult, dataAfter := master.AddRows(parsed.data);
      if masterResult.Err? {
        return Rejected(SERVER_ERROR + ExceptionText(masterResult.error));
      }
      categorizedQueue := categorizedQueue + [masterResult.value.addedRows];
      var summary := masterResult.value;
      response := Uploaded(file.filename, file.size,
                           SentCsvData(parsed.rowCount, parsed.columns, dataAfter[..|parsed.preview|], parsed.totalRows),
                           MasterSummary(summary.totalRows, |summary.addedRows|, summary.duplicateRows));
    }
  }
}
