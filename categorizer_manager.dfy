/**
 * The `CategorizerManager` object (server/categorizer_manager.py): its
 * categories and classifier, the flag that guards the initialise task, and
 * the FIFO of tasks its consumer drains. The consumer thread is modelled as
 * a loop the caller runs; the tasks' `doWork` bodies are methods proved
 * equal to the functions of categorizer_tasks.dfy.
 */
module Categorizer {
  import opened Wrappers
  import opened PyDict
  import opened MasterCsv
  import opened CategoryUpdate
  import opened Ledger
  import opened Taxonomy
  import opened CategorizerConstants
  import opened CategorizerTasks

  /** The id of label l points back at l. */
  predicate LabelIdOk(labels: seq<string>, l: string)
    requires l in LabelToId(labels)
  {
    0 <= LabelToId(labels)[l] < |labels| && labels[LabelToId(labels)[l]] == l
  }

  /** The taxonomy with the lists of the first i categories edited by e. */
  function EditedUpTo(t: Categories, e: Edit, i: nat): (r: Categories)
    ensures |r| == |t|
  {
    seq(|t|, k requires 0 <= k < |t| => if k < i then Entry(t[k].category, EditList(t[k].subCategories, e)) else t[k])
  }

  /** One edit more on the ledger's lines, after the inner loop went over every line. */
  lemma LedgerPhaseStep(rows: seq<Row>, edits: seq<Edit>, n: nat, cur: seq<Row>, next: seq<Row>)
    requires n < |edits| && cur == EditLines(rows, edits[..n])
    requires |next| == |rows| && forall i :: 0 <= i < |rows| ==> next[i] == EditRow(cur[i], edits[n])
    ensures next == EditLines(rows, edits[..n + 1])
    ensures Touched(rows, edits[..n + 1]) == Touched(rows, edits[..n]) + HitsUpTo(cur, edits[n], |rows|)
  {
    assert edits[..n + 1][..n] == edits[..n];
  }

  /** One edit more on the taxonomy. */
  lemma TaxonomyPhaseStep(base: Categories, edits: seq<Edit>, n: nat)
    requires n < |edits|
    ensures ApplyEdits(base, edits[..n + 1]) == ApplyEdit(ApplyEdits(base, edits[..n]), edits[n])
  {
    assert edits[..n + 1][..n] == edits[..n];
  }

  /** The ledger phase: every edit in turn goes over every line. */
  method EditTransactions(rows: seq<Row>, edits: seq<Edit>) returns (transactions: seq<Row>, updatedRows: seq<nat>)
    ensures transactions == EditLines(rows, edits)
    ensures updatedRows == Touched(rows, edits)
  {
    transactions := rows;
    updatedRows := [];
    for n := 0 to |edits|
      invariant transactions == EditLines(rows, edits[..n])
      invariant updatedRows == Touched(rows, edits[..n])
    {
      var edit := edits[n];
      ghost var cur := transactions;
      var hits;
      transactions, hits := EditEachLine(transactions, edit);
      updatedRows := updatedRows + hits;
      LedgerPhaseStep(rows, edits, n, cur, transactions);
    }
    assert edits[..|edits|] == edits;
  }

  /** One edit over every line, noting the lines it rewrites. */
  method EditEachLine(cur: seq<Row>, edit: Edit) returns (transactions: seq<Row>, hits: seq<nat>)
    ensures |transactions| == |cur|
    ensures forall i :: 0 <= i < |cur| ==> transactions[i] == EditRow(cur[i], edit)
    ensures hits == HitsUpTo(cur, edit, |cur|)
  {
    transactions := cur;
    hits := [];
    for k := 0 to |transactions|
      invariant |transactions| == |cur|
      invariant forall i :: 0 <= i < |cur| ==> transactions[i] == if i < k then EditRow(cur[i], edit) else cur[i]
      invariant hits == HitsUpTo(cur, edit, k)
    {
      assert transactions[k] == cur[k];
      assert HitsUpTo(cur, edit, k + 1) == hits + if Hits(cur[k], edit) then [k] else [];
      if edit.Update? && edit.subCategory == transactions[k].subCategory {
        transactions := transactions[k := transactions[k].(subCategory := edit.newName)];
        hits := hits + [k];
      } else if edit.Delete? && edit.subCategory == transactions[k].subCategory {
        transactions := transactions[k := transactions[k].(category := "", subCategory := "")];
        hits := hits + [k];
      }
    }
  }

  /** The taxonomy phase: the edits in the order they were sent. */
  method EditTaxonomy(base: Categories, edits: seq<Edit>) returns (cats: Categories)
    ensures cats == ApplyEdits(base, edits)
  {
    cats := base;
    for n := 0 to |edits|
      invariant cats == ApplyEdits(base, edits[..n])
    {
      TaxonomyPhaseStep(base, edits, n);
      cats := EditCategories(cats, edits[n]);
    }
    assert edits[..|edits|] == edits;
  }

  /** One edit of the taxonomy phase, list by list. */
  method EditCategories(start: Categories, edit: Edit) returns (cats: Categories)
    ensures cats == ApplyEdit(start, edit)
  {
    cats := start;
    match edit {
      case Update(s, newName) =>
        for i := 0 to |cats|
          invariant cats == EditedUpTo(start, edit, i)
        {
          var subCategories := cats[i].subCategories;
          if s in subCategories {
            subCategories := subCategories[IndexOf(subCategories, s) := newName];
            cats := cats[i := Entry(cats[i].category, subCategories)];
          }
        }
        assert cats == ApplyEdit(start, edit);
      case Delete(s) =>
        for i := 0 to |cats|
          invariant cats == EditedUpTo(start, edit, i)
        {
          var subCategories := cats[i].subCategories;
          if s in subCategories {
            var k := IndexOf(subCategories, s);
            subCategories := subCategories[..k] + subCategories[k + 1..];
            cats := cats[i := Entry(cats[i].category, subCategories)];
          }
        }
        assert cats == ApplyEdit(start, edit);
      case Add(s, c) =>
        var found := IndexOfCategory(cats, c);
        var i: nat;
        if found.None? {
          cats := cats + [Entry(c, [])];
          i := |cats| - 1;
        } else {
          i := found.value;
        }
        if s !in cats[i].subCategories {
          cats := cats[i := Entry(c, cats[i].subCategories + [s])];
        }
        if found.None? {
          assert [] + [s] == [s];
          assert cats == start + [Entry(c, [s])];
        }
      case Other =>
    }
  }

  class CategorizerManager {
    /** The ledger the tasks read and update. */
    const ledger: MasterCsvManager
    /** The classifier `pipeline(...)` builds from the model on disk. */
    const model: Classifier

    var queue: seq<Option<Task>>
    /** The contents of `category_data.json`; None while it does not exist. */
    var categoryFile: Option<Categories>
    var categories: Option<Categories>
    var classifier: Option<Classifier>
    var hasQueueInitializedTask: bool
    /** How many initialise tasks were ever enqueued. */
    ghost var initializeTasksEnqueued: nat

    /** The state the tasks work on. */
    function CurrentState(): State
      reads this, ledger
    {
      State(ledger.file, categoryFile, categories, classifier)
    }

    /** At most one initialise task is ever enqueued, and only once the flag is set. */
    ghost predicate Valid()
      reads this
    {
      && initializeTasksEnqueued == (if hasQueueInitializedTask then 1 else 0)
      && multiset(queue)[Some(Initialize)] <= initializeTasksEnqueued
    }

    constructor(ledger: MasterCsvManager, categoryFile: Option<Categories>, model: Classifier)
      ensures this.ledger == ledger && this.model == model
      ensures this.categoryFile == categoryFile
      ensures queue == [] && categories.None? && classifier.None? && !hasQueueInitializedTask
      ensures Valid()
    {
      this.ledger := ledger;
      this.model := model;
      this.categoryFile := categoryFile;
      queue := [];
      categories := None;
      classifier := None;
      hasQueueInitializedTask := false;
      initializeTasksEnqueued := 0;
    }

    /** `add_categorized_task(rows)`. */
    method AddCategorizedTask(rows: seq<Dict>)
      requires Valid()
      modifies this
      ensures queue == old(queue) + [Some(Categorized(rows))]
      ensures CurrentState() == old(CurrentState()) && hasQueueInitializedTask == old(hasQueueInitializedTask)
      ensures Valid()
    {
      queue := queue + [Some(Categorized(rows))];
    }

    /** `add_train_task()`. */
    method AddTrainTask()
      requires Valid()
      modifies this
      ensures queue == old(queue) + [Some(Train)]
      ensures CurrentState() == old(CurrentState()) && hasQueueInitializedTask == old(hasQueueInitializedTask)
      ensures Valid()
    {
      queue := queue + [Some(Train)];
    }

    /** `add_initialized_task()`: the first call enqueues the task, later calls do nothing. */
    method AddInitializedTask()
      requires Valid()
      modifies this
      ensures queue == old(queue) + (if old(hasQueueInitializedTask) then [] else [Some(Initialize)])
      ensures hasQueueInitializedTask
      ensures CurrentState() == old(CurrentState())
      ensures Valid() && multiset(queue)[Some(Initialize)] <= 1
    {
      if hasQueueInitializedTask {
        return;
      }
      queue := queue + [Some(Initialize)];
      hasQueueInitializedTask := true;
      initializeTasksEnqueued := initializeTasksEnqueued + 1;
    }

    /** `update_categories(edits)`: enqueues the edits and answers True. */
    method UpdateCategories(edits: seq<Edit>) returns (accepted: bool)
      requires Valid()
      modifies this
      ensures accepted
      ensures queue == old(queue) + [Some(Task.UpdateCategories(edits))]
      ensures CurrentState() == old(CurrentState()) && hasQueueInitializedTask == old(hasQueueInitializedTask)
      ensures Valid()
    {
      queue := queue + [Some(Task.UpdateCategories(edits))];
      accepted := true;
    }

    /** `stop()` without the joins: the sentinel goes to the back of the queue. */
    method Stop()
      requires Valid()
      modifies this
      ensures queue == old(queue) + [None]
      ensures CurrentState() == old(CurrentState()) && hasQueueInitializedTask == old(hasQueueInitializedTask)
      ensures Valid()
    {
      queue := queue + [None];
    }

    /** `get_classifier()`. */
    function GetClassifier(): (r: Result<Classifier, Exception>)
      reads this
      ensures classifier.None? ==> r == Err(ValueError(CLASSIFIER_NOT_SET))
      ensures classifier.Some? ==> r == Ok(classifier.value)
    {
      if classifier.None? then Err(ValueError(CLASSIFIER_NOT_SET)) else Ok(classifier.value)
    }

    /**
     * `get_category_from_subcategory(s)`: the last category listing s, or
     * "Unknown"; ValueError before categories are set.
     */
    function GetCategoryFromSubcategory(s: string): (r: Result<string, Exception>)
      reads this
      ensures categories.None? ==> r == Err(ValueError(CATEGORIES_NOT_SET))
      ensures categories.Some? ==> r.Ok?
      ensures categories.Some? && (forall i :: 0 <= i < |categories.value| ==> s !in categories.value[i].subCategories) ==>
        r.value == UNKNOWN
      ensures categories.Some? ==> forall i :: LastOwner(categories.value, s, i) ==> r.value == categories.value[i].category
    {
      if categories.None? then Err(ValueError(CATEGORIES_NOT_SET))
      else
        CategoryOfSpec(categories.value, s);
        Ok(CategoryOf(categories.value, s))
    }

    /** `get_all_sub_categories()`: every listed name, category by category. */
    function GetAllSubCategories(): (r: Result<seq<string>, Exception>)
      reads this
      ensures categories.None? ==> r == Err(ValueError(CATEGORIES_NOT_SET))
      ensures categories.Some? ==> r.Ok? && |r.value| == TotalSubCategories(categories.value)
      ensures categories.Some? ==> forall s :: s in r.value <==>
        exists i :: 0 <= i < |categories.value| && s in categories.value[i].subCategories
    {
      if categories.None? then Err(ValueError(CATEGORIES_NOT_SET))
      else
        FlattenLength(categories.value);
        var all := Flatten(categories.value);
        assert forall s :: s in all <==> exists i :: 0 <= i < |categories.value| && s in categories.value[i].subCategories by {
          forall s ensures s in all <==> exists i :: 0 <= i < |categories.value| && s in categories.value[i].subCategories {
            FlattenMembers(categories.value, s);
          }
        }
        Ok(all)
    }

    /** `get_label_to_id()`: each label's position in the flattened list, the last one if it repeats. */
    function GetLabelToId(): (r: Result<map<string, int>, Exception>)
      reads this
      ensures categories.None? ==> r == Err(ValueError(CATEGORIES_NOT_SET))
      ensures categories.Some? ==> r.Ok? && forall l :: l in r.value <==> l in Flatten(categories.value)
      ensures categories.Some? ==> forall l :: l in r.value ==>
        0 <= r.value[l] < |Flatten(categories.value)| && Flatten(categories.value)[r.value[l]] == l
    {
      if categories.None? then Err(ValueError(CATEGORIES_NOT_SET))
      else
        var labels := Flatten(categories.value);
        assert forall l :: l in LabelToId(labels) ==> LabelIdOk(labels, l) by {
          forall l | l in LabelToId(labels) ensures LabelIdOk(labels, l) {
            LabelToIdSpec(labels, l);
          }
        }
        assert forall l :: l in labels ==> l in LabelToId(labels) by {
          forall l | l in labels ensures l in LabelToId(labels) {
            LabelToIdSpec(labels, l);
          }
        }
        Ok(LabelToId(labels))
    }

    /** `get_id_to_label()`: position i of the flattened list for each i. */
    function GetIdToLabel(): (r: Result<map<int, string>, Exception>)
      reads this
      ensures categories.None? ==> r == Err(ValueError(CATEGORIES_NOT_SET))
      ensures categories.Some? ==> r.Ok? && forall i :: i in r.value <==> 0 <= i < |Flatten(categories.value)|
      ensures categories.Some? ==> forall i :: i in r.value ==> r.value[i] == Flatten(categories.value)[i]
    {
      if categories.None? then Err(ValueError(CATEGORIES_NOT_SET))
      else Ok(IdToLabel(Flatten(categories.value)))
    }

    /** `CategorizedTask(rows).doWork()`: annotate every row, then hand them all to the ledger once. */
    method Categorize(rows: seq<Dict>) returns (error: Option<Exception>)
      modifies ledger
      ensures TaskOutcome(CurrentState(), error) == RunTask(old(CurrentState()), model, Categorized(rows))
    {
      ghost var annotator := Annotator(classifier, categories);
      var annotated: seq<Dict> := [];
      for i := 0 to |rows|
        invariant AnnotateRows(classifier, categories, rows[..i]) == Ok(annotated)
        invariant ledger.file == old(ledger.file)
      {
        MapUntilErrorStep(annotator, rows, i);
        var row := rows[i];
        var clf := GetClassifier();
        if clf.Err? {
          MapUntilErrorStops(annotator, rows, i + 1);
          return Some(clf.error);
        }
        var name := Lookup(row, "Name");
        if name.Err? {
          MapUntilErrorStops(annotator, rows, i + 1);
          return Some(name.error);
        }
        var typeLabel := Truthy(clf.value(name.value));
        var category := NO_LABEL_CATEGORY;
        if typeLabel.Some? {
          var found := GetCategoryFromSubcategory(typeLabel.value);
          if found.Err? {
            MapUntilErrorStops(annotator, rows, i + 1);
            return Some(found.error);
          }
          category := found.value;
        }
        row := Set(row, "Category", category);
        row := Set(row, "Sub Category", if typeLabel.Some? then typeLabel.value else NO_LABEL_SUB_CATEGORY);
        annotated := annotated + [row];
      }
      assert rows[..|rows|] == rows;
      var result := ledger.UpdateRowsWithCategories(annotated);
      error := if result.Err? then Some(result.error) else None;
    }

    /**
     * `UpdateCategoriesTask(edits).doWork()`: the ledger phase renames and
     * clears subcategories line by line and hands the rewritten lines to the
     * ledger; the taxonomy phase edits the category file's taxonomy, or the
     * defaults, and installs the result.
     */
    method UpdateCategoriesWork(edits: seq<Edit>) returns (error: Option<Exception>)
      modifies this, ledger
      ensures TaskOutcome(CurrentState(), error) == RunTask(old(CurrentState()), model, Task.UpdateCategories(edits))
      ensures queue == old(queue) && hasQueueInitializedTask == old(hasQueueInitializedTask)
      ensures initializeTasksEnqueued == old(initializeTasksEnqueued)
    {
      var transactions, updatedRows := EditTransactions(Existing(ledger.file), edits);
      var result := ledger.UpdateRowsWithCategories(LineUpdates(transactions, updatedRows));
      if result.Err? {
        return Some(result.error);
      }
      var cats := EditTaxonomy(if categoryFile.Some? then categoryFile.value else DEFAULT_CATEGORIES, edits);
      categoryFile := Some(cats);
      categories := Some(cats);
      error := None;
    }

    /** `doWork()` of whichever task the consumer took. */
    method DoWork(task: Task) returns (error: Option<Exception>)
      modifies this, ledger
      ensures TaskOutcome(CurrentState(), error) == RunTask(old(CurrentState()), model, task)
      ensures queue == old(queue) && hasQueueInitializedTask == old(hasQueueInitializedTask)
      ensures initializeTasksEnqueued == old(initializeTasksEnqueued)
    {
      match task
      case Categorized(rows) =>
        error := Categorize(rows);
      case UpdateCategories(edits) =>
        error := UpdateCategoriesWork(edits);
      case Train =>
        if ledger.file.None? {
          return Some(FileNotFoundError(MASTER_FILE_NAME));
        }
        var labels := GetLabelToId();
        if labels.Err? {
          return Some(labels.error);
        }
        classifier := Some(model);
        error := None;
      case Initialize =>
        categories := Some(if categoryFile.Some? then categoryFile.value else DEFAULT_CATEGORIES);
        classifier := Some(model);
        error := None;
    }

    /**
     * `categorized_consumer`: take tasks from the front and run them until
     * the sentinel, until one raises (which ends the consumer thread), or
     * until the queue is empty, where the thread would wait for more.
     */
    method CategorizedConsumer() returns (stop: Stop)
      requires Valid()
      modifies this, ledger
      ensures var o := Drain(old(CurrentState()), model, old(queue));
        CurrentState() == o.state && queue == o.rest && stop == o.stop
      ensures Valid()
    {
      while queue != []
        invariant Drain(CurrentState(), model, queue) == Drain(old(CurrentState()), model, old(queue))
        invariant Valid()
        decreases |queue|
      {
        var item := queue[0];
        assert queue == [item] + queue[1..];
        queue := queue[1..];
        if item.None? {
          return Sentinel;
        }
        var error := DoWork(item.value);
        if error.Some? {
          return Crashed(error.value);
        }
      }
      return Waiting;
    }
  }
}
