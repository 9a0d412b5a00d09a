/**
 * `default_categories` (server/categorizer_constants.py): the taxonomy the
 * categorizer starts from when no category file exists yet.
 */
module CategorizerConstants {
  import opened Taxonomy

  const DEFAULT_CATEGORIES: Categories := [
    Entry("Income", ["Work", "Cash Back Rewards", "Savings Interest", "Investment"]),
    Entry("Investment", ["Charles Schwab", "Coinbase"]),
    Entry("Home", ["Rent", "Internet"]),
    Entry("Insurance", ["State Farm", "American Family Insurance"]),
    Entry("Medical", ["Urgent Care", "Pharmacy", "Dermatologist", "ER", "Checkups"]),
    Entry("Miscellaneous", ["Amazon", "Gifts", "Restaurant", "Movies", "Taxes", "Uber"]),
    Entry("Groceries", ["Groceries"]),
    Entry("Car", ["Gas", "Oil Change", "Renewal"]),
    Entry("Ignore", ["Bank Transfer", "Credit Card Payment"])
  ]

  /** Nine categories, in this order, each with at least one subcategory. */
  lemma DefaultCategoryNames()
    ensures Names(DEFAULT_CATEGORIES) ==
      ["Income", "Investment", "Home", "Insurance", "Medical", "Miscellaneous", "Groceries", "Car", "Ignore"]
    ensures DistinctNames(DEFAULT_CATEGORIES)
    ensures forall i :: 0 <= i < |DEFAULT_CATEGORIES| ==> |DEFAULT_CATEGORIES[i].subCategories| > 0
  {
  }

  /** Twenty-seven labels, so the classifier's label ids run from 0 to 26. */
  lemma DefaultLabelCount()
    ensures |Flatten(DEFAULT_CATEGORIES)| == 27
    ensures forall l :: l in LabelToId(Flatten(DEFAULT_CATEGORIES)) ==> 0 <= LabelToId(Flatten(DEFAULT_CATEGORIES))[l] < 27
  {
    FlattenLength(DEFAULT_CATEGORIES);
    forall l | l in LabelToId(Flatten(DEFAULT_CATEGORIES))
      ensures 0 <= LabelToId(Flatten(DEFAULT_CATEGORIES))[l] < 27
    {
      LabelToIdSpec(Flatten(DEFAULT_CATEGORIES), l);
    }
  }

  /** No label is listed twice in the defaults. */
  lemma DefaultUniqueLabels()
    ensures UniqueLabels(DEFAULT_CATEGORIES)
  {
    DefaultNoSharedSubCategories();
    UniqueLabelsOf(DEFAULT_CATEGORIES);
  }

  /**
   * The default labels are distinct, so every id the classifier predicts
   * names the label at that position, whose id is that id again.
   */
  lemma DefaultIdsRoundTrip()
    ensures forall i :: 0 <= i < |Flatten(DEFAULT_CATEGORIES)| ==>
      && IdToLabel(Flatten(DEFAULT_CATEGORIES))[i] in LabelToId(Flatten(DEFAULT_CATEGORIES))
      && LabelToId(Flatten(DEFAULT_CATEGORIES))[IdToLabel(Flatten(DEFAULT_CATEGORIES))[i]] == i
  {
    var labels := Flatten(DEFAULT_CATEGORIES);
    DefaultUniqueLabels();
    forall i | 0 <= i < |labels|
      ensures IdToLabel(labels)[i] in LabelToId(labels) && LabelToId(labels)[IdToLabel(labels)[i]] == i
    {
      IdRoundTrip(labels, i);
    }
  }

  /** No name of list a is in list b. */
  predicate Disjoint(a: seq<string>, b: seq<string>) {
    forall x :: x in a ==> x !in b
  }

  /** The list of category i shares no name with any later category's list. */
  lemma DisjointFrom(i: nat)
    requires i < |DEFAULT_CATEGORIES|
    ensures forall j :: i < j < |DEFAULT_CATEGORIES| ==> Disjoint(DEFAULT_CATEGORIES[i].subCategories, DEFAULT_CATEGORIES[j].subCategories)
  {
    var listed := DEFAULT_CATEGORIES[i].subCategories;
    forall j | i < j < |DEFAULT_CATEGORIES| ensures Disjoint(listed, DEFAULT_CATEGORIES[j].subCategories) {
      var other := DEFAULT_CATEGORIES[j].subCategories;
      forall x | x in listed ensures x !in other {
      }
    }
  }

  /** No subcategory is listed by two categories, so the inverse lookup is unambiguous. */
  lemma DefaultNoSharedSubCategories()
    ensures NoSharedSubCategories(DEFAULT_CATEGORIES)
  {
    forall i, j, s | 0 <= i < j < |DEFAULT_CATEGORIES| && s in DEFAULT_CATEGORIES[i].subCategories
      ensures s !in DEFAULT_CATEGORIES[j].subCategories
    {
      DisjointFrom(i);
      assert Disjoint(DEFAULT_CATEGORIES[i].subCategories, DEFAULT_CATEGORIES[j].subCategories);
    }
  }

  /** "Gas" is a Car expense. */
  lemma GasIsCar()
    ensures CategoryOf(DEFAULT_CATEGORIES, "Gas") == "Car"
  {
    DefaultNoSharedSubCategories();
    UniqueOwner(DEFAULT_CATEGORIES, "Gas", 7);
  }

  /**
   * "Investment" is both a category and a subcategory of Income; as a
   * subcategory it is looked up as Income.
   */
  lemma InvestmentLabelIsIncome()
    ensures "Investment" in Names(DEFAULT_CATEGORIES)
    ensures CategoryOf(DEFAULT_CATEGORIES, "Investment") == "Income"
  {
    assert Names(DEFAULT_CATEGORIES)[1] == "Investment";
    DefaultNoSharedSubCategories();
    UniqueOwner(DEFAULT_CATEGORIES, "Investment", 0);
  }
}
