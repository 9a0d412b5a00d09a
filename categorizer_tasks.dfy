/**
 * What the tasks of server/categorizer_manager.py do when the consumer runs
 * them, as functions of the state they read: the ledger file, the category
 * file, and the manager's categories and classifier. The manager class in
 * categorizer_manager.dfy is proved to do exactly this.
 */
module CategorizerTasks {
  import opened Wrappers
  import opened PyDict
  import opened MasterCsv
  import opened CategoryUpdate
  import opened Taxonomy
  import opened CategorizerConstants

  /**
   * The text-classification pipeline, called on a transaction's Name: the
   * `label` of its first result, when it returns one.
   */
  type Classifier = string -> Option<string>

  const CLASSIFIER_NOT_SET := "Classifier not set"
  const CATEGORIES_NOT_SET := "Categories not set"

  /** The category written when the classifier gives no label: lower case, unlike the subcategory. */
  const NO_LABEL_CATEGORY := "unknown"
  const NO_LABEL_SUB_CATEGORY := "Unknown"

  /** `if (type_label)`: an empty label counts as none. */
  function Truthy(typeLabel: Option<string>): (r: Option<string>)
    ensures r.Some? <==> typeLabel.Some? && typeLabel.value != ""
    ensures r.Some? ==> r == typeLabel
  {
    if typeLabel.Some? && typeLabel.value != "" then typeLabel else None
  }

  /**
   * One round of `CategorizedTask.doWork`: `get_classifier()` raises first,
   * then `row['Name']`, then, for a label, `get_category_from_subcategory`;
   * otherwise Category and Sub Category are assigned, in that order.
   */
  function AnnotateRow(classifier: Option<Classifier>, categories: Option<Categories>, row: Dict): Result<Dict, Exception> {
    if classifier.None? then Err(ValueError(CLASSIFIER_NOT_SET))
    else match Lookup(row, "Name")
      case Err(e) => Err(e)
      case Ok(name) =>
        match Truthy(classifier.value(name))
        case None => Ok(Set(Set(row, "Category", NO_LABEL_CATEGORY), "Sub Category", NO_LABEL_SUB_CATEGORY))
        case Some(typeLabel) =>
          if categories.None? then Err(ValueError(CATEGORIES_NOT_SET))
          else Ok(Set(Set(row, "Category", CategoryOf(categories.value, typeLabel)), "Sub Category", typeLabel))
  }

  /**
   * The categories an annotated row carries: the label and the category
   * listing it, or "unknown"/"Unknown" without a label; every other column
   * is as it was. The errors come in the order the source evaluates.
   */
  lemma AnnotateRowSpec(classifier: Option<Classifier>, categories: Option<Categories>, row: Dict)
    ensures classifier.None? ==> AnnotateRow(classifier, categories, row) == Err(ValueError(CLASSIFIER_NOT_SET))
    ensures classifier.Some? && "Name" !in Keys(row) ==>
      AnnotateRow(classifier, categories, row) == Err(KeyError("Name"))
    ensures AnnotateRow(classifier, categories, row).Ok? ==>
      var r := AnnotateRow(classifier, categories, row).value;
      var typeLabel := Truthy(classifier.value(Lookup(row, "Name").value));
      && (typeLabel.None? ==>
            Get(r, "Category") == Some(NO_LABEL_CATEGORY) && Get(r, "Sub Category") == Some(NO_LABEL_SUB_CATEGORY))
      && (typeLabel.Some? ==>
            && categories.Some?
            && Get(r, "Category") == Some(CategoryOf(categories.value, typeLabel.value))
            && Get(r, "Sub Category") == Some(typeLabel.value))
      && forall k :: k != "Category" && k != "Sub Category" ==> Get(r, k) == Get(row, k)
  {
    if AnnotateRow(classifier, categories, row).Ok? {
      var r := AnnotateRow(classifier, categories, row).value;
      var typeLabel := Truthy(classifier.value(Lookup(row, "Name").value));
      var c := if typeLabel.None? then NO_LABEL_CATEGORY else CategoryOf(categories.value, typeLabel.value);
      var s := if typeLabel.None? then NO_LABEL_SUB_CATEGORY else typeLabel.value;
      assert r == Set(Set(row, "Category", c), "Sub Category", s);
      forall k ensures Get(r, k) == (if k == "Sub Category" then Some(s) else if k == "Category" then Some(c) else Get(row, k)) {
        GetSet(Set(row, "Category", c), "Sub Category", s, k);
        GetSet(row, "Category", c, k);
      }
    }
  }

  /** f on each element in turn; the first error ends the run. */
  function MapUntilError<T, U>(f: T -> Result<U, Exception>, xs: seq<T>): (r: Result<seq<U>, Exception>)
    ensures r.Ok? ==> |r.value| == |xs|
    decreases |xs|
  {
    if xs == [] then Ok([])
    else match MapUntilError(f, xs[..|xs| - 1])
      case Err(e) => Err(e)
      case Ok(done) =>
        match f(xs[|xs| - 1])
        case Err(e) => Err(e)
        case Ok(y) => Ok(done + [y])
  }

  /**
   * The run succeeds exactly when f succeeds on every element, and then
   * holds f's results in order; otherwise it fails with the error of the
   * first element f fails on.
   */
  lemma {:induction false} MapUntilErrorEach<T, U>(f: T -> Result<U, Exception>, xs: seq<T>)
    ensures MapUntilError(f, xs).Ok? <==> forall i :: 0 <= i < |xs| ==> f(xs[i]).Ok?
    ensures MapUntilError(f, xs).Ok? ==> forall i :: 0 <= i < |xs| ==> MapUntilError(f, xs).value[i] == f(xs[i]).value
    ensures MapUntilError(f, xs).Err? ==> exists i ::
      && 0 <= i < |xs|
      && f(xs[i]) == Err(MapUntilError(f, xs).error)
      && forall j :: 0 <= j < i ==> f(xs[j]).Ok?
    decreases |xs|
  {
    if xs != [] {
      var front := xs[..|xs| - 1];
      MapUntilErrorEach(f, front);
      assert forall i :: 0 <= i < |front| ==> front[i] == xs[i];
    }
  }

  /** One more element: the run on a prefix extends by f's result on the next element. */
  lemma MapUntilErrorStep<T, U>(f: T -> Result<U, Exception>, xs: seq<T>, n: nat)
    requires n < |xs|
    ensures MapUntilError(f, xs[..n + 1]) ==
      match MapUntilError(f, xs[..n])
      case Err(e) => Err(e)
      case Ok(done) => (match f(xs[n]) case Err(e) => Err(e) case Ok(y) => Ok(done + [y]))
  {
    assert xs[..n + 1][..n] == xs[..n];
  }

  /** Once the run on a prefix fails, the run on the whole fails the same way. */
  lemma {:induction false} MapUntilErrorStops<T, U>(f: T -> Result<U, Exception>, xs: seq<T>, n: nat)
    requires n <= |xs| && MapUntilError(f, xs[..n]).Err?
    ensures MapUntilError(f, xs) == MapUntilError(f, xs[..n])
    decreases |xs|
  {
    if n < |xs| {
      var front := xs[..|xs| - 1];
      assert front[..n] == xs[..n];
      MapUntilErrorStops(f, front, n);
    } else {
      assert xs[..n] == xs;
    }
  }

  /** The loop of `CategorizedTask.doWork` over its rows; the first error ends it. */
  function AnnotateRows(classifier: Option<Classifier>, categories: Option<Categories>, rows: seq<Dict>): Result<seq<Dict>, Exception> {
    MapUntilError(Annotator(classifier, categories), rows)
  }

  /** AnnotateRow with the manager's classifier and categories fixed. */
  function Annotator(classifier: Option<Classifier>, categories: Option<Categories>): Dict -> Result<Dict, Exception> {
    row => AnnotateRow(classifier, categories, row)
  }

  /** Ledger phase of `UpdateCategoriesTask.doWork`: one edit applied to one line. */
  function EditRow(r: Row, e: Edit): Row {
    match e
    case Update(s, n) => if r.subCategory == s then r.(subCategory := n) else r
    case Delete(s) => if r.subCategory == s then r.(category := "", subCategory := "") else r
    case _ => r
  }

  /** Does edit e rewrite line r (and append it to `updated_rows`)? */
  predicate Hits(r: Row, e: Edit) {
    (e.Update? || e.Delete?) && r.subCategory == e.subCategory
  }

  /** The edits in order on one line: a later edit sees what an earlier one wrote. */
  function EditLine(r: Row, edits: seq<Edit>): Row
    decreases |edits|
  {
    if edits == [] then r else EditRow(EditLine(r, edits[..|edits| - 1]), edits[|edits| - 1])
  }

  /** Every line of the ledger after the edits. */
  function EditLines(rows: seq<Row>, edits: seq<Edit>): (final: seq<Row>)
    ensures |final| == |rows|
  {
    seq(|rows|, i requires 0 <= i < |rows| => EditLine(rows[i], edits))
  }

  /** The lines among the first k that edit e rewrites, in order. */
  function HitsUpTo(rows: seq<Row>, e: Edit, k: nat): (hits: seq<nat>)
    requires k <= |rows|
    ensures forall m :: 0 <= m < |hits| ==> hits[m] < k
    ensures forall i :: 0 <= i < k ==> (i in hits <==> Hits(rows[i], e))
  {
    if k == 0 then []
    else HitsUpTo(rows, e, k - 1) + (if Hits(rows[k - 1], e) then [k - 1] else [])
  }

  /**
   * `updated_rows` as indices into the ledger: for each edit in turn, the
   * lines it rewrites. A line rewritten twice is listed twice.
   */
  function Touched(rows: seq<Row>, edits: seq<Edit>): (touched: seq<nat>)
    ensures forall m :: 0 <= m < |touched| ==> touched[m] < |rows|
    decreases |edits|
  {
    if edits == [] then []
    else
      var front := edits[..|edits| - 1];
      Touched(rows, front) + HitsUpTo(EditLines(rows, front), edits[|edits| - 1], |rows|)
  }

  /** An edit never changes a line's natural key. */
  lemma {:induction false} EditLineKeepsKey(r: Row, edits: seq<Edit>)
    ensures NaturalKey(EditLine(r, edits)) == NaturalKey(r)
    decreases |edits|
  {
    if edits != [] {
      EditLineKeepsKey(r, edits[..|edits| - 1]);
    }
  }

  /** A line no edit rewrites is handed back unchanged. */
  lemma {:induction false} UntouchedUnchanged(rows: seq<Row>, edits: seq<Edit>, i: nat)
    requires i < |rows| && i !in Touched(rows, edits)
    ensures EditLine(rows[i], edits) == rows[i]
    decreases |edits|
  {
    if edits != [] {
      var front := edits[..|edits| - 1];
      assert Touched(rows, edits) == Touched(rows, front) + HitsUpTo(EditLines(rows, front), edits[|edits| - 1], |rows|);
      UntouchedUnchanged(rows, front, i);
      assert !Hits(EditLines(rows, front)[i], edits[|edits| - 1]);
    }
  }

  /** A rename is seen by the edits after it: a line renamed a to b and then b to c ends as c. */
  lemma RenamesChain(r: Row, a: string, b: string, c: string)
    requires r.subCategory == a
    ensures EditLine(r, [Update(a, b), Update(b, c)]) == r.(subCategory := c)
  {
    assert [Update(a, b), Update(b, c)][..1] == [Update(a, b)];
    assert [Update(a, b)][..0] == [];
    assert EditLine(r, [Update(a, b)]) == r.(subCategory := b);
  }

  /** A delete clears both categories of the lines it names; an add touches no line. */
  lemma DeleteClearsAddIgnores(r: Row, s: string, c: string)
    ensures r.subCategory == s ==> EditRow(r, Delete(s)) == r.(category := "", subCategory := "")
    ensures r.subCategory != s ==> EditRow(r, Delete(s)) == r
    ensures !Hits(r, Add(s, c)) && EditRow(r, Add(s, c)) == r
  {
  }

  /** A task on the manager's queue. */
  datatype Task =
    | Categorized(rows: seq<Dict>)
    | UpdateCategories(edits: seq<Edit>)
    | Train
    | Initialize

  /**
   * What the tasks read and write: the ledger file, `category_data.json`,
   * and the manager's `categories` and `classifier`.
   */
  datatype State = State(
    ledger: LedgerFile,
    categoryFile: Option<Categories>,
    categories: Option<Categories>,
    classifier: Option<Classifier>)

  /** The state after a task, and the exception it raised, if any. */
  datatype TaskOutcome = TaskOutcome(state: State, error: Option<Exception>)

  /** The categories the taxonomy phase starts from: the file's, or the defaults. */
  function BaseCategories(st: State): Categories {
    st.categoryFile.GetOr(DEFAULT_CATEGORIES)
  }

  /**
   * `doWork` of each task. `model` is the classifier the pipeline builds
   * from the model on disk, which initialising and training install.
   */
  function RunTask(st: State, model: Classifier, task: Task): TaskOutcome {
    match task
    case Categorized(rows) =>
      (match AnnotateRows(st.classifier, st.categories, rows)
       case Err(e) => TaskOutcome(st, Some(e))
       case Ok(annotated) =>
         var o := UpdateRowsSpec(st.ledger, annotated);
         TaskOutcome(st.(ledger := o.file), if o.result.Err? then Some(o.result.error) else None))
    case UpdateCategories(edits) =>
      var rows := Existing(st.ledger);
      var o := UpdateRowsSpec(st.ledger, LineUpdates(EditLines(rows, edits), Touched(rows, edits)));
      if o.result.Err? then TaskOutcome(st.(ledger := o.file), Some(o.result.error))
      else
        var cats := ApplyEdits(BaseCategories(st), edits);
        TaskOutcome(st.(ledger := o.file, categoryFile := Some(cats), categories := Some(cats)), None)
    case Train =>
      if st.ledger.None? then TaskOutcome(st, Some(FileNotFoundError(MASTER_FILE_NAME)))
      else if st.categories.None? then TaskOutcome(st, Some(ValueError(CATEGORIES_NOT_SET)))
      else TaskOutcome(st.(classifier := Some(model)), None)
    case Initialize =>
      TaskOutcome(st.(categories := Some(BaseCategories(st)), classifier := Some(model)), None)
  }

  /**
   * Training loads the ledger before it asks for the labels: without a
   * ledger file it raises FileNotFoundError whether or not categories are
   * set, then ValueError without categories, and otherwise it installs the
   * trained classifier and changes nothing else.
   */
  lemma TrainOutcomes(st: State, model: Classifier)
    ensures var o := RunTask(st, model, Train);
      && (o.error.Some? <==> st.ledger.None? || st.categories.None?)
      && (st.ledger.None? ==> o == TaskOutcome(st, Some(FileNotFoundError(MASTER_FILE_NAME))))
      && (st.ledger.Some? && st.categories.None? ==> o == TaskOutcome(st, Some(ValueError(CATEGORIES_NOT_SET))))
      && (o.error.None? ==> o.state == st.(classifier := Some(model)))
  {
  }

  /** Every complete update row is applied without raising. */
  lemma {:induction false} CompleteUpdatesSucceed(rows: seq<Row>, us: seq<Dict>)
    requires forall m :: 0 <= m < |us| ==> Complete(us[m])
    ensures ApplyUpdates(rows, us).Ok?
    decreases |us|
  {
    if us != [] {
      CompleteUpdatesSucceed(rows, us[..|us| - 1]);
      ApplyOneComplete(ApplyUpdates(rows, us[..|us| - 1]).value, us[|us| - 1]);
    }
  }

  /**
   * Updating categories never raises: the rows it hands the ledger are
   * lines read from it. The ledger's lines keep their transactions and the
   * categories become the edited taxonomy, in the file and in memory.
   */
  lemma UpdateCategoriesSucceeds(st: State, model: Classifier, edits: seq<Edit>)
    ensures var o := RunTask(st, model, UpdateCategories(edits));
      && o.error.None?
      && o.state.ledger.Some?
      && SameTransactions(Existing(st.ledger), o.state.ledger.value)
      && o.state.categoryFile == o.state.categories == Some(ApplyEdits(BaseCategories(st), edits))
      && o.state.classifier == st.classifier
  {
    var rows := Existing(st.ledger);
    var final := EditLines(rows, edits);
    var us := LineUpdates(final, Touched(rows, edits));
    forall m | 0 <= m < |us| ensures Complete(us[m]) {
      LineAsUpdate(final[Touched(rows, edits)[m]]);
    }
    CompleteUpdatesSucceed(rows, us);
    UpdatesKeepTransactions(rows, us);
  }

  /**
   * Renames and deletes reach the ledger: when no two lines share a natural
   * key, every line ends as the edits, in order, make it.
   */
  lemma UpdateCategoriesPropagates(st: State, model: Classifier, edits: seq<Edit>)
    requires DistinctTransactions(Existing(st.ledger))
    ensures RunTask(st, model, UpdateCategories(edits)).state.ledger == Some(EditLines(Existing(st.ledger), edits))
  {
    var rows := Existing(st.ledger);
    var final := EditLines(rows, edits);
    var touched := Touched(rows, edits);
    forall i | 0 <= i < |rows| ensures NaturalKey(rows[i]) == NaturalKey(final[i]) {
      EditLineKeepsKey(rows[i], edits);
    }
    UpdatesFromLines(rows, final, touched);
    forall i | 0 <= i < |rows| ensures Mix(rows, final, touched)[i] == final[i] {
      if i !in touched {
        UntouchedUnchanged(rows, edits, i);
      }
    }
    assert Mix(rows, final, touched) == final;
  }

  /** Why the consumer stopped: the sentinel, a task that raised, or an empty queue it waits on. */
  datatype Stop = Sentinel | Crashed(error: Exception) | Waiting

  datatype ConsumerOutcome = ConsumerOutcome(state: State, rest: seq<Option<Task>>, stop: Stop)

  /**
   * `categorized_consumer`: tasks are taken from the front and run in turn;
   * None ends the loop, and a task that raises ends the thread.
   */
  function Drain(st: State, model: Classifier, queue: seq<Option<Task>>): ConsumerOutcome
    decreases |queue|
  {
    if queue == [] then ConsumerOutcome(st, [], Waiting)
    else match queue[0]
      case None => ConsumerOutcome(st, queue[1..], Sentinel)
      case Some(task) =>
        var o := RunTask(st, model, task);
        if o.error.Some? then ConsumerOutcome(o.state, queue[1..], Crashed(o.error.value))
        else Drain(o.state, model, queue[1..])
  }

  /**
   * First in, first out: when the consumer gets through a queue without
   * stopping, the tasks enqueued after it run next, from the state it left.
   */
  lemma {:induction false} DrainAppend(st: State, model: Classifier, q1: seq<Option<Task>>, q2: seq<Option<Task>>)
    requires Drain(st, model, q1).stop == Waiting
    ensures Drain(st, model, q1 + q2) == Drain(Drain(st, model, q1).state, model, q2)
    decreases |q1|
  {
    if q1 == [] {
      assert q1 + q2 == q2;
    } else {
      assert (q1 + q2)[0] == q1[0] && (q1 + q2)[1..] == q1[1..] + q2;
      var o := RunTask(st, model, q1[0].value);
      assert Drain(st, model, q1) == Drain(o.state, model, q1[1..]);
      DrainAppend(o.state, model, q1[1..], q2);
    }
  }

  /** The sentinel stops the consumer right after the tasks before it, leaving the rest queued. */
  lemma StopAfter(st: State, model: Classifier, q1: seq<Option<Task>>, q2: seq<Option<Task>>)
    requires Drain(st, model, q1).stop == Waiting
    ensures Drain(st, model, q1 + [None] + q2) == ConsumerOutcome(Drain(st, model, q1).state, q2, Sentinel)
  {
    assert q1 + [None] + q2 == q1 + ([None] + q2);
    DrainAppend(st, model, q1, [None] + q2);
    assert ([None] + q2)[1..] == q2;
  }
}
