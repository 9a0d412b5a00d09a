# cash-flow ledger and taxonomy, modelled in Dafny

cash-flow is a personal-finance tool with two halves:

- A Python server keeps a transaction ledger, `master_transactions.csv`. It
  accepts uploaded bank CSV exports and deduplicates them against the ledger.
  A queue of background tasks categorises each transaction with a text
  classifier and applies taxonomy edits.
- A Vue client keeps copies of the ledger and of the category taxonomy, and
  draws breakdowns and score cards from them.

This project models the deterministic core of both halves over in-memory
values and proves what each operation promises:

- **The ledger** (`MasterCsv`, `Ledger`, `CategoryUpdate`). Lines are
  seven-column records. An add deduplicates the batch by value tuple. A
  category update rewrites the first line whose natural key matches. Both
  read paths are covered. The ledger manager is a class whose file is a
  field, and its methods are proved equal to specification functions. Those
  functions carry lemmas that state the properties: existing lines are kept,
  the accepted rows are appended in order, the counts add up, re-adding is
  idempotent, updates change only the categories, and a later update wins.
- **The categoriser** (`Taxonomy`, `CategorizerTasks`, `Categorizer`,
  `CategorizerConstants`). This covers:
  - the category → subcategories dictionary, with its inverse lookup and its
    label ↔ id maps;
  - the default taxonomy and its uniqueness facts;
  - the two phases of the categories-update task;
  - the annotate task;
  - the manager object: its fields, its run-once initialise guard, and its
    FIFO task queue drained by the consumer loop.
- **The upload endpoint** (`App`): the file-name check, the shaping of the
  parsed rows, the order of the validation checks, and how the ledger's
  counts are relayed.
- **The client stores and chart helpers** (`CategoriesStore`,
  `TransactionsStore`, `TransactionsUtils`):
  - the client's rename, remove and add on the taxonomy, with lemmas that
    show where they agree with the server and where they do not;
  - the column accessors and the date bounds;
  - the slice functions, the group-by-name `breakdown`, its total, and the
    score card.

Python dictionaries are ordered lists of distinct keys with string values
(`PyDict`), so `tuple(row.values())` and key order are modelled exactly for
rows that have one cell per header column. Ragged CSV lines are not modelled
(see "## Left out"). A ledger file is
`Option<seq<Row>>`, where `None` means the file does not exist. Exceptions are
a `Result`. The classifier, the model that initialising and training install,
and the client's `Number`/`Date` parsing are parameters.

Where the code and its documented behaviour differ, the model follows the code:

- An annotated row without a label gets Category `"unknown"` in lower case but
  Sub Category `"Unknown"` (server/categorizer_manager.py:33 and 38).
  `get_category_from_subcategory` answers `"Unknown"` for an unlisted name.
- An empty label counts as no label (server/categorizer_manager.py:34).
- The categories-update task passes the rewritten ledger lines by reference.
  So the rows handed to `update_rows_with_categories` carry the state after
  all edits (server/categorizer_manager.py:56-69).
- The upload response's preview rows are the same dictionaries the ledger add
  blanked. So accepted rows show empty categories, while `columns` was taken
  before the add (server/app.py:119-121, 192, 209).

## Model

| member | source | states |
|---|---|---|
| MasterCsv.ToDictShape | server/master_csv_manager.py:28-32 | a ledger line read through DictReader is keyed by the seven FIELDNAMES columns in order, with distinct keys, and carries the line's cells |
| MasterCsv.KeyTupleOfLine | server/master_csv_manager.py:84-88 | the duplicate-detection tuple of a line already in the ledger (its copy with Category and Sub Category deleted) is exactly its five natural-key cells |
| MasterCsv.FromDict | server/master_csv_manager.py:102-105 | DictWriter can write a dictionary exactly when every key of it is a FIELDNAMES column |
| MasterCsv.FromToDict | server/master_csv_manager.py:68-71 | a line read from the file is written back unchanged |
| MasterCsv.WriteRowsStops | server/master_csv_manager.py:103-105 | writerows completes iff every dictionary is writable; otherwise the file keeps the lines before the first unwritable one; each line written is its dictionary's line |
| MasterCsv.WriteReadRoundTrip | server/master_csv_manager.py:68-71 | writing back the lines just read reproduces the file |
| MasterCsv.AcceptedIndices | server/master_csv_manager.py:92-99 | the accepted positions are strictly increasing, each is accepted, and every accepted position is listed |
| MasterCsv.AcceptedTuples | server/master_csv_manager.py:92-98 | accepted rows carry tuples the ledger does not know, no two alike, and every unknown tuple of the batch gets in once: a row repeated in a batch is added at most once |
| MasterCsv.BlankGet | server/master_csv_manager.py:95-96 | blanking sets Category and Sub Category to '' and leaves every other column as the caller gave it |
| MasterCsv.AddedRowsAreBlank | server/master_csv_manager.py:95-99 | every added row has empty categories and otherwise the columns of the batch row it came from |
| MasterCsv.WriteExistingThenAdded | server/master_csv_manager.py:101-105 | rewriting the old lines followed by new rows keeps the old lines, unchanged, at the head, and appends the new rows as far as they can be written |
| MasterCsv.AddRowsWrites | server/master_csv_manager.py:74-111 | the whole add: the file becomes the old lines plus the written accepted rows (it is not created when both are empty); Ok with the counts iff every accepted row was written, otherwise DictWriter's ValueError; the caller's accepted rows are blanked |
| MasterCsv.AddRowsKeepsExisting | server/master_csv_manager.py:77-105 | the lines already in the ledger stay at its head, unchanged and in order, even when the write fails |
| MasterCsv.AddRowsFails | server/master_csv_manager.py:101-105 | an add fails only with DictWriter's ValueError, and only because some accepted row carries a column outside FIELDNAMES |
| MasterCsv.AddRowsAppendsAccepted | server/master_csv_manager.py:91-111 | on success the ledger is the old lines followed by one line per accepted row, in input order, each with empty categories; total_rows = old length + added, duplicate_rows = batch − added ≥ 0 |
| MasterCsv.NoneAccepted | server/master_csv_manager.py:92-99 | when the ledger already knows every tuple of the batch, nothing is added and no caller row is touched |
| MasterCsv.AddRowsAllKnown | server/master_csv_manager.py:83-111 | such a batch leaves the file as it was and reports no row added and every row a duplicate |
| MasterCsv.KeyRowsWrite | server/master_csv_manager.py:95-105 | rows carrying exactly the five key columns can always be written once blanked, each as a line whose natural key is the row's tuple |
| MasterCsv.FirstAddKnowsBatch | server/master_csv_manager.py:83-105 | after adding such rows the add succeeds and the ledger knows every tuple of the batch |
| MasterCsv.AddRowsIdempotent | server/master_csv_manager.py:83-111 | re-adding the same key-only rows to the ledger the first add left adds nothing: same file, every row a duplicate, the caller's rows untouched |
| Ledger.ExistingTuples | server/master_csv_manager.py:83-89 | the first loop collects exactly the natural keys of the ledger's lines |
| Ledger.Deduplicate | server/master_csv_manager.py:91-99 | the second loop adds exactly the accepted rows, blanked and in input order, blanks the same rows in the caller's list and grows the seen set by every tuple of the batch |
| Ledger.MasterCsvManager.constructor | server/master_csv_manager.py:16-19 | the manager works on the ledger file as it currently is |
| Ledger.MasterCsvManager.ReadDict | server/master_csv_manager.py:25-33 | one dictionary per line, keyed by FIELDNAMES and writing back as that line; no rows when the file is absent |
| Ledger.MasterCsvManager.ReadList | server/master_csv_manager.py:35-44 | the header FIELDNAMES and each line's seven cells; no columns and no rows when the file is absent |
| Ledger.MasterCsvManager.AddRows | server/master_csv_manager.py:74-111 | the new file, the result and the caller's rows are exactly those of the add specification whose properties the MasterCsv lemmas prove |
| Ledger.MasterCsvManager.UpdateRowsWithCategories | server/master_csv_manager.py:46-72 | the nested loop with its break leaves exactly the file and result of the update specification whose properties the CategoryUpdate lemmas prove |
| CategoryUpdate.Lookup | server/master_csv_manager.py:58-65 | `row[col]` succeeds iff the column is present, and otherwise raises KeyError(col) |
| CategoryUpdate.MatchesKey | server/master_csv_manager.py:57-63 | with all five key columns the comparison never raises, and it holds iff the update names the line's natural key |
| CategoryUpdate.MatchesFromRaises | server/master_csv_manager.py:57-63 | the comparison raises iff some key column is missing while every column compared before it matched (left-to-right short-circuit) |
| CategoryUpdate.FindMatchSpec | server/master_csv_manager.py:56-66 | the inner loop stops at the first line the update names, every earlier line comparing false; it finds none when all compare false; it raises only an error some comparison raises |
| CategoryUpdate.UpdatesStopAtError | server/master_csv_manager.py:55-66 | once an update row raises, the later update rows are never looked at |
| CategoryUpdate.ApplyOneKeepsTransactions | server/master_csv_manager.py:64-65 | one update row changes nothing but the two category columns |
| CategoryUpdate.UpdatesKeepTransactions | server/master_csv_manager.py:55-66 | an update never changes the row count, the order or any non-category column |
| CategoryUpdate.ApplyOneComplete | server/master_csv_manager.py:55-66 | an update row with all seven columns never raises; unmatched it is ignored; matched it sets the categories of the first matching line and of no other |
| CategoryUpdate.LaterUpdateWins | server/master_csv_manager.py:55-66 | of two complete update rows for the same transaction, the later one decides the line's categories |
| CategoryUpdate.UpdatesInOrder | server/master_csv_manager.py:55-66 | update rows are applied one after another in the order given |
| CategoryUpdate.FindMatchOk | server/master_csv_manager.py:56-63 | an update row carrying the five key columns never makes the search raise |
| CategoryUpdate.SameKeyFind | server/master_csv_manager.py:57-63 | two update rows naming the same natural key find the same line |
| CategoryUpdate.SameKeysFind | server/master_csv_manager.py:56-66 | rewriting categories does not change which line a later update finds |
| CategoryUpdate.UpdateAbsentLedger | server/master_csv_manager.py:49-72 | without a ledger file every update row is ignored, the call answers True and leaves a header-only file |
| CategoryUpdate.MissingDateFails | server/master_csv_manager.py:58 | an update row without Date raises KeyError('Date') on any non-empty ledger, and the file is left as it was |
| CategoryUpdate.LineAsUpdate | server/master_csv_manager.py:28-32 | a line read as a dictionary is a complete update row naming its own transaction and categories |
| CategoryUpdate.UpdatesFromLines | server/categorizer_manager.py:54-69 | handing the update some lines of an edited copy of a ledger whose natural keys are distinct sets exactly those lines to their edited state, whatever the order and however often a line is handed |
| Taxonomy.IndexOfCategory | server/categorizer_manager.py:98-99 | the position of a category key, found iff the key is present |
| Taxonomy.FlattenMembers | server/categorizer_manager.py:311-316 | a name is in get_all_sub_categories iff some category lists it |
| Taxonomy.FlattenLength | server/categorizer_manager.py:311-316 | the flattened list is as long as all the lists together |
| Taxonomy.InverseSpec | server/categorizer_manager.py:292-294 | the inverse dictionary knows exactly the listed names and sends each to the last category listing it |
| Taxonomy.CategoryOfSpec | server/categorizer_manager.py:289-295 | the lookup gives the last category listing the name, or "Unknown" when none does |
| Taxonomy.UniqueOwner | server/categorizer_manager.py:292-295 | when no name is listed by two categories, the lookup gives the one category listing it |
| Taxonomy.UniqueLabelsOf | server/categorizer_manager.py:297-309 | the chained label list has no repeat when no list repeats a name and no two categories share one |
| Taxonomy.LabelToIdSpec | server/categorizer_manager.py:297-302 | a name has an id iff it is a label, and its id is the last position holding it |
| Taxonomy.LabelRoundTrip | server/categorizer_manager.py:297-309 | `id_to_label[label_to_id[l]] == l` for every label, even a repeated one |
| Taxonomy.IdRoundTrip | server/categorizer_manager.py:297-309 | with distinct labels, `label_to_id[id_to_label[i]] == i` for every id |
| Taxonomy.IndexOf | server/categorizer_manager.py:86-87 | `list.index` gives the first position holding the name |
| Taxonomy.ReplaceFirst | server/categorizer_manager.py:84-87 | the rename replaces the first occurrence only, and leaves a list without the name as it was |
| Taxonomy.RemoveFirst | server/categorizer_manager.py:91-93 | `list.remove` drops the first occurrence only, and leaves a list without the name as it was |
| Taxonomy.RenameOrRemove | server/categorizer_manager.py:79-93 | a rename or delete keeps the categories and their order and leaves unmatched lists alone; a rename keeps list lengths and puts the new name in; a delete shortens a matched list by one |
| Taxonomy.AddSpec | server/categorizer_manager.py:94-100 | an add appends a missing category with the subcategory alone; an existing category gains it at the end unless listed; nothing else changes |
| Taxonomy.AddIdempotent | server/categorizer_manager.py:94-100 | adding the same subcategory twice is the same as adding it once |
| Taxonomy.OtherEditIgnored | server/categorizer_manager.py:79-100 | an edit of another type leaves the taxonomy as it is |
| Taxonomy.EditKeepsDistinctNames | server/categorizer_manager.py:79-100 | every edit keeps the category keys distinct |
| CategorizerConstants.DefaultCategoryNames | server/categorizer_constants.py:5-51 | nine categories in the order Income … Ignore, distinct, each with a non-empty list |
| CategorizerConstants.DefaultLabelCount | server/categorizer_constants.py:5-51 | 27 labels, so every label id lies in 0..26 |
| CategorizerConstants.DefaultUniqueLabels | server/categorizer_constants.py:5-51 | the 27 default labels are distinct |
| CategorizerConstants.DefaultIdsRoundTrip | server/categorizer_constants.py:5-51 | for the defaults, every id names the label at that position and that label's id is the id again |
| CategorizerConstants.DefaultNoSharedSubCategories | server/categorizer_constants.py:5-51 | no subcategory is listed by two categories, so the inverse lookup is unambiguous |
| CategorizerConstants.GasIsCar | server/categorizer_constants.py:42-46 | the subcategory "Gas" is looked up as "Car" |
| CategorizerConstants.InvestmentLabelIsIncome | server/categorizer_constants.py:6-15 | "Investment" is a category key, yet the subcategory "Investment" is looked up as "Income" |
| CategorizerTasks.Truthy | server/categorizer_manager.py:34 | a label counts iff it is present and non-empty |
| CategorizerTasks.AnnotateRowSpec | server/categorizer_manager.py:25-38 | the errors in evaluation order: no classifier, then a missing Name; a labelled row gets the label and its category; an unlabelled one gets "unknown"/"Unknown"; every other column is kept |
| CategorizerTasks.MapUntilErrorEach | server/categorizer_manager.py:25-38 | the row loop succeeds iff every row annotates, and then holds each row's result in order; otherwise it fails with the first failing row's error |
| CategorizerTasks.HitsUpTo | server/categorizer_manager.py:57-66 | the lines an edit appends to `updated_rows`, in line order: exactly those it renames or clears |
| CategorizerTasks.EditLineKeepsKey | server/categorizer_manager.py:56-66 | the ledger phase never changes a line's natural key |
| CategorizerTasks.UntouchedUnchanged | server/categorizer_manager.py:56-66 | a line no edit rewrites comes out unchanged |
| CategorizerTasks.RenamesChain | server/categorizer_manager.py:56-61 | a later edit sees an earlier rename: a line renamed a→b and then b→c ends as c |
| CategorizerTasks.DeleteClearsAddIgnores | server/categorizer_manager.py:58-66 | a delete clears both categories of exactly the lines it names; an add touches no line |
| CategorizerTasks.CompleteUpdatesSucceed | server/master_csv_manager.py:55-66 | update rows that carry all seven columns never make the update raise |
| CategorizerTasks.UpdateCategoriesSucceeds | server/categorizer_manager.py:52-106 | the categories-update task never raises, keeps every transaction, writes the edited taxonomy (of the file, or of the defaults) to the file and installs the same value, and keeps the classifier |
| CategorizerTasks.UpdateCategoriesPropagates | server/categorizer_manager.py:54-69 | when no two lines share a natural key, every ledger line ends as the edits, applied in order, make it |
| CategorizerTasks.DrainAppend | server/categorizer_manager.py:326-336 | first in, first out: once the consumer gets through the queued tasks, the tasks queued after them run next, from the state those left |
| CategorizerTasks.TrainOutcomes | server/categorizer_manager.py:115-188 | training loads the ledger first, so without a ledger file it raises FileNotFoundError whatever the categories; with a ledger it raises ValueError iff categories are unset; otherwise it installs the trained classifier and changes nothing else |
| CategorizerTasks.StopAfter | server/categorizer_manager.py:326-336 | the None sentinel stops the consumer right after the tasks before it, leaving the rest queued |
| Categorizer.EditTransactions | server/categorizer_manager.py:54-66 | the ledger-phase loops produce every line as the edits make it, and `updated_rows` lists, edit by edit, the lines each edit rewrites |
| Categorizer.EditEachLine | server/categorizer_manager.py:57-66 | one edit over every line rewrites exactly the lines it names and records them in order |
| Categorizer.EditTaxonomy | server/categorizer_manager.py:79-100 | the taxonomy-phase loop applies the edits in the order sent |
| Categorizer.EditCategories | server/categorizer_manager.py:80-100 | one edit, list by list, gives the edited taxonomy that Taxonomy.ApplyEdit describes |
| Categorizer.CategorizerManager.constructor | server/categorizer_manager.py:232-250 | empty queue, no categories, no classifier, and the initialise flag unset |
| Categorizer.CategorizerManager.AddCategorizedTask | server/categorizer_manager.py:252-254 | the task goes to the back of the queue; nothing else changes |
| Categorizer.CategorizerManager.AddTrainTask | server/categorizer_manager.py:256-259 | the task goes to the back of the queue; nothing else changes |
| Categorizer.CategorizerManager.AddInitializedTask | server/categorizer_manager.py:261-267 | only the first call enqueues the initialise task, so the queue never holds more than one |
| Categorizer.CategorizerManager.UpdateCategories | server/categorizer_manager.py:321-324 | the edits are queued and the call answers True |
| Categorizer.CategorizerManager.Stop | server/categorizer_manager.py:338-342 | the sentinel goes to the back of the queue |
| Categorizer.CategorizerManager.GetClassifier | server/categorizer_manager.py:284-287 | the classifier, or ValueError("Classifier not set") |
| Categorizer.CategorizerManager.GetCategoryFromSubcategory | server/categorizer_manager.py:289-295 | ValueError before categories are set; otherwise the last category listing the name, or "Unknown" |
| Categorizer.CategorizerManager.GetAllSubCategories | server/categorizer_manager.py:311-316 | ValueError before categories are set; otherwise every listed name, as many as the lists hold |
| Categorizer.CategorizerManager.GetLabelToId | server/categorizer_manager.py:297-302 | ValueError before categories are set; otherwise an id for exactly the labels, each pointing back at its label |
| Categorizer.CategorizerManager.GetIdToLabel | server/categorizer_manager.py:304-309 | ValueError before categories are set; otherwise ids 0..n−1, id i naming the i-th label |
| Categorizer.CategorizerManager.Categorize | server/categorizer_manager.py:23-41 | the annotate task: every row is annotated and then all rows go to the ledger in one update call, with the outcome CategorizerTasks.RunTask describes |
| Categorizer.CategorizerManager.UpdateCategoriesWork | server/categorizer_manager.py:52-106 | the categories-update task has the outcome CategorizerTasks.RunTask describes and leaves the queue alone |
| Categorizer.CategorizerManager.DoWork | server/categorizer_manager.py:333-334 | each kind of task does what CategorizerTasks.RunTask describes, training included (see CategorizerTasks.TrainOutcomes) |
| Categorizer.CategorizerManager.CategorizedConsumer | server/categorizer_manager.py:326-336 | the consumer loop ends in the state, with the remaining queue and for the reason CategorizerTasks.Drain gives, and keeps the initialise guard |
| App.LastDot | server/app.py:96 | the last '.' of the name: none iff the name has no '.', and no '.' after it |
| App.Lower | server/app.py:96-97 | `lower()` maps A–Z to a–z and keeps every other character |
| App.AllowedFile | server/app.py:93-97 | false without a '.'; true iff the text after the last '.', lowered, is "csv" |
| App.CsvSuffixAllowed | server/app.py:95-97 | a name ending in "." and "csv" in any case is allowed, whatever comes before |
| App.LastExtensionDecides | server/app.py:95-97 | only the last extension counts |
| App.UpperCaseExtensionAllowed | server/app.py:95-97 | "x.CSV" is allowed |
| App.DoubleExtensionRefused | server/app.py:95-97 | "x.csv.bak" is refused |
| App.Shaped | server/app.py:116-123 | row_count = total_rows = the number of rows; data is every row; preview is the first min(10, n) rows; columns are the first row's keys, or none without rows |
| App.ParseCsvContent | server/app.py:100-129 | the reader's rows shaped as above, or "Failed to parse CSV: " and the exception text |
| App.UploadRejectionOrder | server/app.py:157-187 | the checks answer in order: no file field, empty name, wrong extension, parse failure |
| App.RejectionsTouchNothing | server/app.py:157-187 | a refused request changes neither the ledger nor the categorisation queue |
| App.UploadRelaysCounts | server/app.py:189-217 | a successful upload adds the accepted rows to the ledger, queues exactly them, relays total, added and duplicate counts consistent with the batch, and sends back only the first min(10, n) rows |
| App.Server.constructor | server/app.py:33 | the categorisation queue starts empty |
| App.Server.UploadCsv | server/app.py:153-224 | the ledger, the queue and the response are those of the upload specification that the lemmas above describe |
| TransactionsStore.AccessorsReadServerColumns | user_interface/src/store/transactions_store.ts:10-28 | the accessors read the Date, Name, Amount, Category and Sub Category cells of a line the server writes |
| TransactionsStore.Max | user_interface/src/store/transactions_store.ts:41 | `Math.max` of a non-empty list is one of its elements and no element exceeds it |
| TransactionsStore.Min | user_interface/src/store/transactions_store.ts:47 | `Math.min` of a non-empty list is one of its elements and no element is below it |
| TransactionsStore.Store.constructor | user_interface/src/store/transactions_store.ts:31 | the table starts empty |
| TransactionsStore.Store.LoadTransactions | user_interface/src/store/transactions_store.ts:33-35 | the table is replaced as a whole |
| TransactionsStore.Store.HasData | user_interface/src/store/transactions_store.ts:37 | true iff the table is non-empty |
| TransactionsStore.Store.MaxDate | user_interface/src/store/transactions_store.ts:39-43 | undefined iff the table is empty; otherwise a row's date no row's date exceeds |
| TransactionsStore.Store.MinDate | user_interface/src/store/transactions_store.ts:45-49 | undefined iff the table is empty; otherwise a row's date below no row's date |
| TransactionsStore.Store.MinNotAfterMax | user_interface/src/store/transactions_store.ts:39-49 | the earliest date is never after the latest |
| TransactionsUtils.CreateSliceFunc | user_interface/src/helper/transactions_utils.ts:32-49 | a slice iff both non-null filters match; named by the subcategory; valued −amount iff inverted |
| TransactionsUtils.ExpensesSlice | user_interface/src/helper/transactions_utils.ts:53-60 | none iff the category is Investment, Income or Ignore; otherwise named by the category, valued −amount |
| TransactionsUtils.ExpensesExcludeIncomeAndInvesting | user_interface/src/helper/transactions_utils.ts:51-62 | a row counted as spending is never counted as income or investing |
| TransactionsUtils.InFrameSlicesAppend | user_interface/src/helper/transactions_utils.ts:73-82 | the slices of two tables joined are the slices of each, joined |
| TransactionsUtils.IgnoredRow | user_interface/src/helper/transactions_utils.ts:73-78 | a row outside the time frame, or without a slice, changes nothing wherever it stands |
| TransactionsUtils.IndexOfName | user_interface/src/helper/transactions_utils.ts:79 | the entry under a name: found iff some entry carries it, and then the first such |
| TransactionsUtils.AccumulateLookup | user_interface/src/helper/transactions_utils.ts:79-80 | adding a slice creates its name if new and moves only that name's total, by the slice's value |
| TransactionsUtils.AccumulateDistinct | user_interface/src/helper/transactions_utils.ts:79-80 | adding a slice keeps the names distinct and adds its value to the sum |
| TransactionsUtils.InPlaceAccumulate | user_interface/src/helper/transactions_utils.ts:79-80 | the create-at-0-then-add object update is the same as adding the slice |
| TransactionsUtils.GroupDistinct | user_interface/src/helper/transactions_utils.ts:71-83 | the breakdown has distinct names and its values add up to the sum of the slices |
| TransactionsUtils.GroupValue | user_interface/src/helper/transactions_utils.ts:71-83 | the breakdown has an entry for a name iff some slice carries it, holding that name's sum |
| TransactionsUtils.GroupEntries | user_interface/src/helper/transactions_utils.ts:71-83 | one entry per distinct name, each valued at the sum of its name's slices |
| TransactionsUtils.GroupEntryNames | user_interface/src/helper/transactions_utils.ts:71-83 | the breakdown names exactly the names of the slices |
| TransactionsUtils.AddSlice | user_interface/src/helper/transactions_utils.ts:78-81 | the loop body adds one slice into the running totals |
| TransactionsUtils.Breakdown | user_interface/src/helper/transactions_utils.ts:66-84 | the loop gives the grouping of the in-frame slices, whose properties GroupEntries and GroupEntryNames state |
| TransactionsUtils.TotalBreakdownAmount | user_interface/src/helper/transactions_utils.ts:86-94 | the total over the breakdown is the sum of every in-frame slice |
| TransactionsUtils.Increase | user_interface/src/helper/transactions_utils.ts:109-110 | undefined iff the base is 0; otherwise the change relative to the base |
| TransactionsUtils.ScoreCardOf | user_interface/src/helper/transactions_utils.ts:96-112 | the three totals are the in-frame sums, and each percentage compares the current total with its base |
| CategoriesStore.RemoveAll | user_interface/src/store/categories_store.ts:30 | the filter drops every occurrence and keeps every other element with its count |
| CategoriesStore.ReplaceAll | user_interface/src/store/categories_store.ts:33 | the map keeps the length and replaces every occurrence |
| CategoriesStore.ReplaceAllCounts | user_interface/src/store/categories_store.ts:33 | after a real rename the new name takes the old name's count and the old name is gone |
| CategoriesStore.UpdatedCategories | user_interface/src/store/categories_store.ts:23-37 | the keys are kept; renaming a name to itself changes nothing |
| CategoriesStore.RemoveEverywhere | user_interface/src/store/categories_store.ts:28-31 | a null new name removes every occurrence from every list and keeps the rest |
| CategoriesStore.RenameEverywhere | user_interface/src/store/categories_store.ts:32-34 | a rename replaces every occurrence in every list and keeps the list lengths |
| CategoriesStore.ReplaceSingle | user_interface/src/store/categories_store.ts:33 | where the name occurs at most once, replacing all occurrences is the server's replace-first |
| CategoriesStore.RemoveSingle | user_interface/src/store/categories_store.ts:30 | where the name occurs at most once, dropping all occurrences is the server's remove-first |
| CategoriesStore.AgreesWithServer | user_interface/src/store/categories_store.ts:23-37 | the client's rename or removal equals the server's when no list repeats the name |
| CategoriesStore.RenameDiffersOnRepeats | user_interface/src/store/categories_store.ts:33 | on a list with a repeat the client renames both occurrences, the server only the first |
| CategoriesStore.WithSubCategory | user_interface/src/store/categories_store.ts:39-46 | fails iff the category is missing; otherwise keeps the keys |
| CategoriesStore.AddAppends | user_interface/src/store/categories_store.ts:39-46 | the named list gains the subcategory at its end even when already listed; other lists are unchanged |
| CategoriesStore.AddDiffers | user_interface/src/store/categories_store.ts:39-46 | the server ignores an add of a listed name and creates a missing category; the client repeats the name and fails on a missing category |
| CategoriesStore.SubCategoriesOf | user_interface/src/store/categories_store.ts:7-9 | the list under the key, or [] when the key is absent |
| CategoriesStore.Expenses | user_interface/src/store/categories_store.ts:11-17 | exactly the items whose key is not Income, Ignore or Investment, lists unchanged |
| CategoriesStore.Store.constructor | user_interface/src/store/categories_store.ts:5 | the taxonomy starts empty |
| CategoriesStore.Store.LoadCategories | user_interface/src/store/categories_store.ts:19-21 | the taxonomy is replaced as a whole |
| CategoriesStore.Store.UpdateCategory | user_interface/src/store/categories_store.ts:23-37 | the key-by-key loop leaves the taxonomy UpdatedCategories describes |
| CategoriesStore.Store.AddSubCategory | user_interface/src/store/categories_store.ts:39-46 | on a missing category the push raises and the store is unchanged; otherwise the store becomes WithSubCategory's result |

## Left out

- File I/O. The ledger file and `category_data.json` are in-memory values: `None` means the file is absent. Path building, `os.path.exists`, CSV quoting and escaping, and JSON encoding are not modelled.
- The ledger file is assumed to have been written by this code, with the FIELDNAMES header. A file with another header is not modelled.
- `MasterCsv.AddRowsSpec`: the ValueError text is DictWriter's message without the list of offending field names that Python appends to it.
- Ragged CSV lines are not modelled: a `Dict` holds one string per column. `csv.DictReader` gives a line with more cells than the header an extra `None` key holding a list, and a shorter line `None` values.
- `MasterCsv.AddRowsSpec`, `App.UploadSpec`: for an uploaded line with too many cells, `row_tuple not in existing_row_tuples` raises TypeError (unhashable list) at server/master_csv_manager.py:93-94. The earlier accepted rows are blanked by then, nothing is written, and the upload answers "Server error: unhashable type: 'list'". For a line with too few cells, the `None` values never equal a ledger tuple, so it is added again on every upload. Neither case is modelled.
- `MasterCsv.AddRowsWrites`: it covers every row of one string per column; the TypeError of a line with too many cells is not modelled (see the line above).
- `MasterCsv.AddRowsFails`: "fails only with ValueError" holds for rows of one string per column; a line with too many cells would raise TypeError first, which is not modelled.
- Threads and locks. The manager's lock, the daemon consumer thread, and the blocking `join`s of `stop()` are out. The consumer is a loop the caller runs over the queue, and it stops where the thread would wait.
- In app.py, the consumer never calls `task_done` for the sentinel (server/app.py:64-65). That only matters to the `join` at shutdown, which is out.
- Training (server/categorizer_manager.py:115-190). Only its observable effects are modelled: FileNotFoundError when there is no ledger file (the dataset is loaded first, at lines 117-118), then a ValueError when categories are unset, and otherwise the installed classifier.
  - The FileNotFoundError keeps only the file's name; its message, which holds the data folder's path, is not modelled.
  - A ledger label missing from `label_to_id` would raise KeyError during training. This is not modelled.
  - Building the pipeline (server/categorizer_manager.py:218-227) is out. The classifier it yields is a parameter, as is the one the initialise task installs.
- The classifier's result list is reduced to "the first result's label, if any". Results of other shapes count as no label.
- Aliasing of the module-level `default_categories`. It is shallow-copied at server/categorizer_manager.py:73 and shared at line 208, so edits could reach the constant's lists. The taxonomy is a value here.
- Malformed edit dictionaries are not modelled: a missing `type` or `change` key would raise KeyError. An edit with an unknown type is modelled, as `Other`.
- server/app.py's own `CategorizedTask` (lines 38-55) is not modelled. It reads `constants.type_to_category` from a module that is not part of this model.
- server/app.py's module-level classifier and consumer (lines 21-22, 58-71, 245-254) are not modelled. The upload's enqueue is modelled as appending the added rows to the server's queue.
- `get_transactions` (server/app.py:143-150) is not modelled. It calls `read_master_csv`, which MasterCSVManager does not define, so that endpoint raises on every request.
- Flask plumbing: routing, CORS, logging, HTTP status codes, upload time, the health check and the 413/404 handlers.
- `App.Lower`: it lowers A–Z only. No other character lowers to a letter of "csv", so the extension check is unaffected.
- The uploaded bytes and their UTF-8 decoding are out. The CSV reader's rows, or its exception text, are an input to `App.ParseCsvContent`.
- Client numbers and dates:
  - `Number(...)` and `new Date(...)` are parameters that map a cell to a real or to an integer timestamp, and NaN is not modelled.
  - Amounts are exact reals, so JavaScript floating-point rounding is not modelled.
- `TransactionsUtils.Breakdown`: `Object.values` is taken in insertion order. JavaScript lists integer-like keys first, and slice names that collide with `Object.prototype` properties (such as "constructor") are not modelled.
- Client rows are exactly the seven cells the server writes. Shorter rows, which JavaScript would read as undefined, are not modelled.
- The Vue/pinia wiring, the HTTP service and the routing of the client, and the synthetic test-data generator, are not modelled.
