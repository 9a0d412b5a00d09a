/**
 * The client's copy of the taxonomy: the category to subcategories object
 * the settings page edits before it sends the same edits to the server, and
 * the views of it the charts use. Its rename and add do not behave like the
 * server's: a rename replaces every occurrence rather than the first, a
 * removal drops every occurrence, and an add appends even a subcategory
 * already listed and fails on a missing category instead of creating it.
 */
module CategoriesStore {
  import opened Wrappers
  import opened Taxonomy

  /** `list.filter((cat) => cat !== x)` */
  function RemoveAll(xs: seq<string>, x: string): (r: seq<string>)
    ensures multiset(r) == multiset(xs)[x := 0]
    ensures x !in r
    decreases |xs|
  {
    if xs == [] then []
    else
      assert xs == [xs[0]] + xs[1..];
      (if xs[0] == x then [] else [xs[0]]) + RemoveAll(xs[1..], x)
  }

  /** `list.map((cat) => (cat === x ? y : cat))` */
  function ReplaceAll(xs: seq<string>, x: string, y: string): (r: seq<string>)
    ensures |r| == |xs|
    ensures forall i :: 0 <= i < |xs| ==> r[i] == if xs[i] == x then y else xs[i]
  {
    seq(|xs|, i requires 0 <= i < |xs| => if xs[i] == x then y else xs[i])
  }

  /** The mapped list holds y where x was and nothing else changes, counted with multiplicity. */
  lemma {:induction false} ReplaceAllCounts(xs: seq<string>, x: string, y: string)
    requires x != y
    ensures multiset(ReplaceAll(xs, x, y)) == multiset(xs)[x := 0][y := multiset(xs)[y] + multiset(xs)[x]]
    decreases |xs|
  {
    if xs != [] {
      var n := |xs| - 1;
      ReplaceAllCounts(xs[..n], x, y);
      assert xs == xs[..n] + [xs[n]];
      assert ReplaceAll(xs, x, y) == ReplaceAll(xs[..n], x, y) + [if xs[n] == x then y else xs[n]];
    }
  }

  /** The list of one category after `updateCategory(x, newName)`. */
  function EditAll(xs: seq<string>, x: string, newName: Option<string>): seq<string> {
    match newName
    case None => RemoveAll(xs, x)
    case Some(y) => ReplaceAll(xs, x, y)
  }

  /** `updateCategory(x, newName)`: a null name removes x, a string renames it, in every list. */
  function UpdatedCategories(t: Categories, x: string, newName: Option<string>): (r: Categories)
    ensures Names(r) == Names(t)
    ensures newName == Some(x) ==> r == t
  {
    if newName == Some(x) then t
    else seq(|t|, i requires 0 <= i < |t| => Entry(t[i].category, EditAll(t[i].subCategories, x, newName)))
  }

  /**
   * Removing a subcategory on the client takes every occurrence out of every
   * list and keeps the rest of each list, with its repetitions.
   */
  lemma RemoveEverywhere(t: Categories, x: string, i: nat)
    requires i < |t|
    ensures var r := UpdatedCategories(t, x, None);
      && x !in r[i].subCategories
      && multiset(r[i].subCategories) == multiset(t[i].subCategories)[x := 0]
  {
  }

  /**
   * Renaming a subcategory on the client replaces every occurrence in every
   * list: the lists keep their lengths and the new name takes the old one's
   * count.
   */
  lemma RenameEverywhere(t: Categories, x: string, y: string, i: nat)
    requires i < |t|
    ensures var r := UpdatedCategories(t, x, Some(y));
      && |r[i].subCategories| == |t[i].subCategories|
      && (x != y ==> x !in r[i].subCategories)
      && (x != y ==> multiset(r[i].subCategories)[y] == multiset(t[i].subCategories)[y] + multiset(t[i].subCategories)[x])
  {
    if x != y {
      ReplaceAllCounts(t[i].subCategories, x, y);
    }
  }

  /** x is listed at most once. */
  predicate AtMostOnce(xs: seq<string>, x: string) {
    forall i, j :: 0 <= i < j < |xs| && xs[i] == x ==> xs[j] != x
  }

  /** Where x is listed at most once, replacing every occurrence is replacing the first. */
  lemma ReplaceSingle(xs: seq<string>, x: string, y: string)
    requires AtMostOnce(xs, x)
    ensures ReplaceAll(xs, x, y) == ReplaceFirst(xs, x, y)
  {
    if x in xs {
      var k := IndexOf(xs, x);
      assert forall i :: 0 <= i < |xs| && i != k ==> xs[i] != x;
      assert ReplaceAll(xs, x, y) == xs[k := y];
    } else {
      assert ReplaceAll(xs, x, y) == xs;
    }
  }

  /** Where x is listed at most once, dropping every occurrence is dropping the first. */
  lemma {:induction false} RemoveSingle(xs: seq<string>, x: string)
    requires AtMostOnce(xs, x)
    ensures RemoveAll(xs, x) == RemoveFirst(xs, x)
    decreases |xs|
  {
    if xs != [] {
      assert forall j :: 0 <= j < |xs| - 1 ==> xs[1..][j] == xs[j + 1];
      if xs[0] == x {
        assert x !in xs[1..];
        NoneRemoved(xs[1..], x);
      } else {
        RemoveSingle(xs[1..], x);
      }
    }
  }

  /** Filtering out a value the list does not hold keeps the list. */
  lemma {:induction false} NoneRemoved(xs: seq<string>, x: string)
    requires x !in xs
    ensures RemoveAll(xs, x) == xs
    decreases |xs|
  {
    if xs != [] {
      NoneRemoved(xs[1..], x);
    }
  }

  /**
   * The client and the server agree on a rename or a removal as long as no
   * list holds the subcategory twice.
   */
  lemma AgreesWithServer(t: Categories, e: Edit)
    requires e.Update? || e.Delete?
    requires forall i :: 0 <= i < |t| ==> AtMostOnce(t[i].subCategories, e.subCategory)
    ensures UpdatedCategories(t, e.subCategory, if e.Update? then Some(e.newName) else None) == ApplyEdit(t, e)
  {
    var x := e.subCategory;
    var y := if e.Update? then e.newName else x;
    var newName := if e.Update? then Some(e.newName) else None;
    forall i | 0 <= i < |t| ensures EditAll(t[i].subCategories, x, newName) == EditList(t[i].subCategories, e) {
      ReplaceSingle(t[i].subCategories, x, y);
      RemoveSingle(t[i].subCategories, x);
    }
    if newName == Some(x) {
      forall i | 0 <= i < |t| ensures ApplyEdit(t, e)[i] == t[i] {
        var xs := t[i].subCategories;
        if x in xs {
          assert xs[IndexOf(xs, x) := x] == xs;
        }
      }
    }
  }

  /** A list holding a subcategory twice tells the two renames apart. */
  lemma RenameDiffersOnRepeats()
    ensures ApplyEdit([Entry("Car", ["Gas", "Gas"])], Update("Gas", "Fuel")) == [Entry("Car", ["Fuel", "Gas"])]
    ensures UpdatedCategories([Entry("Car", ["Gas", "Gas"])], "Gas", Some("Fuel")) == [Entry("Car", ["Fuel", "Fuel"])]
  {
    var t := [Entry("Car", ["Gas", "Gas"])];
    assert IndexOf(t[0].subCategories, "Gas") == 0;
    assert ApplyEdit(t, Update("Gas", "Fuel"))[0].subCategories == ["Fuel", "Gas"];
    assert UpdatedCategories(t, "Gas", Some("Fuel"))[0].subCategories == ["Fuel", "Fuel"];
  }

  /** The message `push` on an undefined list raises. */
  const PUSH_ON_UNDEFINED := "Cannot read properties of undefined (reading 'push')"

  /** `addSubCategory(c, s)`: s at the end of c's list, even when already there; nothing when c is missing. */
  function WithSubCategory(t: Categories, c: string, s: string): (r: Option<Categories>)
    ensures r.None? <==> c !in Names(t)
    ensures r.Some? ==> Names(r.value) == Names(t)
  {
    match IndexOfCategory(t, c)
    case None => None
    case Some(k) => Some(t[k := Entry(c, t[k].subCategories + [s])])
  }

  /**
   * The client's add appends at the end of the named list whether or not it
   * already holds the subcategory, and leaves every other list alone.
   */
  lemma AddAppends(t: Categories, c: string, s: string, i: nat)
    requires i < |t| && c in Names(t)
    ensures var r := WithSubCategory(t, c, s).value;
      && (i == IndexOfCategory(t, c).value ==> r[i].subCategories == t[i].subCategories + [s])
      && (i != IndexOfCategory(t, c).value ==> r[i] == t[i])
      && (i == IndexOfCategory(t, c).value ==> multiset(r[i].subCategories)[s] == multiset(t[i].subCategories)[s] + 1)
  {
  }

  /**
   * An add tells the two copies apart: the server keeps a list that already
   * holds the subcategory and creates a missing category; the client
   * repeats the subcategory and fails on a missing category.
   */
  lemma AddDiffers()
    ensures ApplyEdit([Entry("Car", ["Gas"])], Add("Gas", "Car")) == [Entry("Car", ["Gas"])]
    ensures WithSubCategory([Entry("Car", ["Gas"])], "Car", "Gas") == Some([Entry("Car", ["Gas", "Gas"])])
    ensures ApplyEdit([], Add("Gas", "Car")) == [Entry("Car", ["Gas"])]
    ensures WithSubCategory([], "Car", "Gas") == None
  {
    assert IndexOfCategory([Entry("Car", ["Gas"])], "Car") == Some(0);
    var t := [Entry("Car", ["Gas"])];
    assert WithSubCategory(t, "Car", "Gas") == Some(t[0 := Entry("Car", t[0].subCategories + ["Gas"])]);
    assert t[0].subCategories + ["Gas"] == ["Gas", "Gas"];
    assert t[0 := Entry("Car", ["Gas", "Gas"])] == [Entry("Car", ["Gas", "Gas"])];
  }

  /** The categories that are not spending. */
  const NON_EXPENSES: set<string> := {"Income", "Ignore", "Investment"}

  /** `categories.value[key] || []` */
  function SubCategoriesOf(t: Categories, key: string): (r: seq<string>)
    ensures key !in Names(t) ==> r == []
    ensures key in Names(t) ==> r == t[IndexOfCategory(t, key).value].subCategories
  {
    match IndexOfCategory(t, key)
    case None => []
    case Some(k) => t[k].subCategories
  }

  /** `expensesCategories`: the items whose key is not Income, Ignore or Investment, in order. */
  function Expenses(t: Categories): (r: Categories)
    ensures forall e :: e in r <==> e in t && e.category !in NON_EXPENSES
    ensures |r| <= |t|
    decreases |t|
  {
    if t == [] then []
    else
      assert t == [t[0]] + t[1..];
      (if t[0].category in NON_EXPENSES then [] else [t[0]]) + Expenses(t[1..])
  }

  /** The client's store of the taxonomy. */
  class Store {
    var categories: Categories

    constructor()
      ensures categories == []
    {
      categories := [];
    }

    /** `loadCategories`: the taxonomy is replaced as a whole. */
    method LoadCategories(data: Categories)
      modifies this
      ensures categories == data
    {
      categories := data;
    }

    /** `incomeSubCategories` */
    function IncomeSubCategories(): seq<string>
      reads this
    {
      SubCategoriesOf(categories, "Income")
    }

    /** `ignoreSubCategories` */
    function IgnoreSubCategories(): seq<string>
      reads this
    {
      SubCategoriesOf(categories, "Ignore")
    }

    /** `investmentSubCategories` */
    function InvestmentSubCategories(): seq<string>
      reads this
    {
      SubCategoriesOf(categories, "Investment")
    }

    /** `expensesCategories` */
    function ExpensesCategories(): Categories
      reads this
    {
      Expenses(categories)
    }

    /**
     * `updateCategory(oldName, newName)`: nothing when the names are equal;
     * otherwise a new object built key by key.
     */
    method UpdateCategory(oldName: string, newName: Option<string>)
      modifies this
      ensures categories == UpdatedCategories(old(categories), oldName, newName)
    {
      if newName == Some(oldName) {
        return;
      }
      var newCategories: Categories := [];
      for i := 0 to |categories|
        invariant |newCategories| == i
        invariant forall k :: 0 <= k < i ==>
          newCategories[k] == Entry(categories[k].category, EditAll(categories[k].subCategories, oldName, newName))
      {
        var key := categories[i].category;
        if newName.None? {
          newCategories := newCategories + [Entry(key, RemoveAll(categories[i].subCategories, oldName))];
          continue;
        } else {
          newCategories := newCategories + [Entry(key, ReplaceAll(categories[i].subCategories, oldName, newName.value))];
        }
      }
      categories := newCategories;
    }

    /**
     * `addSubCategory(category, subCategory)`: copy every list, push onto
     * the named one; a missing category makes `push` raise before the store
     * is assigned.
     */
    method AddSubCategory(category: string, subCategory: string) returns (error: Option<string>)
      modifies this
      ensures error.Some? ==> error.value == PUSH_ON_UNDEFINED && categories == old(categories)
      ensures error.None? <==> WithSubCategory(old(categories), category, subCategory).Some?
      ensures error.None? ==> categories == WithSubCategory(old(categories), category, subCategory).value
    {
      var newCategories: Categories := [];
      for i := 0 to |categories|
        invariant newCategories == categories[..i]
      {
        newCategories := newCategories + [Entry(categories[i].category, categories[i].subCategories)];
      }
      assert newCategories == categories;
      var found := IndexOfCategory(newCategories, category);
      if found.None? {
        return Some(PUSH_ON_UNDEFINED);
      }
      var k := found.value;
      newCategories := newCategories[k := Entry(category, newCategories[k].subCategories + [subCategory])];
      categories := newCategories;
      error := None;
    }
  }
}
