/**
 * The category taxonomy of server/categorizer_manager.py: a dictionary from
 * category name to its ordered list of subcategory names, kept in insertion
 * order. The classifier's labels are the subcategories; the helpers here
 * flatten them, invert them and number them, and the edits of
 * `UpdateCategoriesTask` rewrite them.
 */
module Taxonomy {
  import opened Wrappers

  /** One item of the dictionary: a category and its subcategories. */
  datatype Entry = Entry(category: string, subCategories: seq<string>)

  /** `CategoriesDict`, as its items in insertion order. */
  type Categories = seq<Entry>

  /** The keys of the dictionary, in order. */
  function Names(t: Categories): (names: seq<string>)
    ensures |names| == |t|
    ensures forall i :: 0 <= i < |t| ==> names[i] == t[i].category
  {
    seq(|t|, i requires 0 <= i < |t| => t[i].category)
  }

  /** A dictionary never holds a key twice. */
  predicate DistinctNames(t: Categories) {
    forall i, j :: 0 <= i < j < |t| ==> t[i].category != t[j].category
  }

  /** The first index from i on that holds category c. */
  function CategoryFrom(t: Categories, c: string, i: nat): (r: Option<nat>)
    requires i <= |t|
    ensures r.None? <==> forall j :: i <= j < |t| ==> t[j].category != c
    ensures r.Some? ==> i <= r.value < |t| && t[r.value].category == c
    ensures r.Some? ==> forall j :: i <= j < r.value ==> t[j].category != c
    decreases |t| - i
  {
    if i == |t| then None
    else if t[i].category == c then Some(i)
    else CategoryFrom(t, c, i + 1)
  }

  /** The index of category c, when it is a key. */
  function IndexOfCategory(t: Categories, c: string): (r: Option<nat>)
    ensures r.None? <==> c !in Names(t)
    ensures r.Some? ==> r.value < |t| && t[r.value].category == c
    ensures r.Some? ==> forall j :: 0 <= j < r.value ==> t[j].category != c
  {
    CategoryFrom(t, c, 0)
  }

  /** `get_all_sub_categories`: the lists chained in category order. */
  function Flatten(t: Categories): seq<string> {
    if t == [] then [] else t[0].subCategories + Flatten(t[1..])
  }

  /** A label is in the flattened list exactly when some category lists it. */
  lemma {:induction false} FlattenMembers(t: Categories, s: string)
    ensures s in Flatten(t) <==> exists i :: 0 <= i < |t| && s in t[i].subCategories
  {
    if t != [] {
      FlattenMembers(t[1..], s);
      if s in Flatten(t[1..]) {
        var i :| 0 <= i < |t[1..]| && s in t[1..][i].subCategories;
        assert s in t[i + 1].subCategories;
      }
      if exists i :: 0 <= i < |t| && s in t[i].subCategories {
        var i :| 0 <= i < |t| && s in t[i].subCategories;
        if i > 0 {
          assert s in t[1..][i - 1].subCategories;
        }
      }
    }
  }

  /** The flattened list is as long as all the lists together. */
  function TotalSubCategories(t: Categories): nat {
    if t == [] then 0 else |t[0].subCategories| + TotalSubCategories(t[1..])
  }

  lemma {:induction false} FlattenLength(t: Categories)
    ensures |Flatten(t)| == TotalSubCategories(t)
  {
    if t != [] {
      FlattenLength(t[1..]);
    }
  }

  /**
   * The dictionary `{value: key for key, values in items for value in
   * values}`: built item by item, so a later category overwrites an earlier
   * one that lists the same name.
   */
  function Inverse(t: Categories): map<string, string>
    decreases |t|
  {
    if t == [] then map[]
    else
      var last := t[|t| - 1];
      Inverse(t[..|t| - 1]) + map s | s in last.subCategories :: last.category
  }

  /** The text `get_category_from_subcategory` returns for an unknown name. */
  const UNKNOWN := "Unknown"

  /** `get_category_from_subcategory`, once categories are set. */
  function CategoryOf(t: Categories, s: string): string {
    if s in Inverse(t) then Inverse(t)[s] else UNKNOWN
  }

  /** Category i is the last one whose list holds s. */
  predicate LastOwner(t: Categories, s: string, i: int) {
    && 0 <= i < |t|
    && s in t[i].subCategories
    && forall j :: i < j < |t| ==> s !in t[j].subCategories
  }

  /** Some category lists s. */
  predicate Listed(t: Categories, s: string) {
    exists i :: 0 <= i < |t| && s in t[i].subCategories
  }

  /** The inverse map knows exactly the listed names. */
  lemma {:induction false} InverseKeys(t: Categories, s: string)
    ensures s in Inverse(t) <==> Listed(t, s)
    decreases |t|
  {
    if t != [] {
      var front := t[..|t| - 1];
      InverseKeys(front, s);
      if Listed(t, s) {
        var i :| 0 <= i < |t| && s in t[i].subCategories;
        if i < |t| - 1 {
          assert s in front[i].subCategories;
        }
      }
      if Listed(front, s) {
        var i :| 0 <= i < |front| && s in front[i].subCategories;
        assert s in t[i].subCategories;
      }
    }
  }

  /** The inverse map sends a name to the last category listing it. */
  lemma {:induction false} InverseValue(t: Categories, s: string, i: nat)
    requires LastOwner(t, s, i)
    ensures s in Inverse(t) && Inverse(t)[s] == t[i].category
    decreases |t|
  {
    if i < |t| - 1 {
      InverseValue(t[..|t| - 1], s, i);
    }
  }

  /** The inverse map knows exactly the listed names and sends each to its last category. */
  lemma InverseSpec(t: Categories, s: string)
    ensures s in Inverse(t) <==> exists i :: 0 <= i < |t| && s in t[i].subCategories
    ensures forall i :: LastOwner(t, s, i) ==> s in Inverse(t) && Inverse(t)[s] == t[i].category
  {
    InverseKeys(t, s);
    forall i | LastOwner(t, s, i)
      ensures s in Inverse(t) && Inverse(t)[s] == t[i].category
    {
      InverseValue(t, s, i);
    }
  }

  /**
   * `get_category_from_subcategory`: the last category listing the name, or
   * "Unknown" when none does.
   */
  lemma CategoryOfSpec(t: Categories, s: string)
    ensures (forall i :: 0 <= i < |t| ==> s !in t[i].subCategories) ==> CategoryOf(t, s) == UNKNOWN
    ensures forall i :: LastOwner(t, s, i) ==> CategoryOf(t, s) == t[i].category
  {
    InverseSpec(t, s);
  }

  /** No name is listed twice, within one category or across two. */
  predicate UniqueLabels(t: Categories) {
    forall i, j :: 0 <= i < j < |Flatten(t)| ==> Flatten(t)[i] != Flatten(t)[j]
  }

  /** No name is listed by two different categories. */
  predicate NoSharedSubCategories(t: Categories) {
    forall i, j, s :: 0 <= i < j < |t| && s in t[i].subCategories ==> s !in t[j].subCategories
  }

  /** No list repeats a name. */
  predicate ListsWithoutRepeats(t: Categories) {
    forall k, a, b :: 0 <= k < |t| && 0 <= a < b < |t[k].subCategories| ==>
      t[k].subCategories[a] != t[k].subCategories[b]
  }

  /**
   * The labels are distinct when no list repeats a name and no name is in
   * two lists: the two halves of the chained list share nothing.
   */
  lemma {:induction false} UniqueLabelsOf(t: Categories)
    requires ListsWithoutRepeats(t)
    requires NoSharedSubCategories(t)
    ensures UniqueLabels(t)
  {
    if t != [] {
      var head := t[0].subCategories;
      var rest := Flatten(t[1..]);
      assert NoSharedSubCategories(t[1..]) by {
        forall i, j, s | 0 <= i < j < |t[1..]| && s in t[1..][i].subCategories
          ensures s !in t[1..][j].subCategories
        {
          assert t[1..][i] == t[i + 1] && t[1..][j] == t[j + 1];
        }
      }
      assert ListsWithoutRepeats(t[1..]) by {
        forall k, a, b | 0 <= k < |t[1..]| && 0 <= a < b < |t[1..][k].subCategories|
          ensures t[1..][k].subCategories[a] != t[1..][k].subCategories[b]
        {
          assert t[1..][k] == t[k + 1];
        }
      }
      UniqueLabelsOf(t[1..]);
      assert Flatten(t) == head + rest;
      forall a, b | 0 <= a < b < |Flatten(t)| ensures Flatten(t)[a] != Flatten(t)[b] {
        if b < |head| {
          assert Flatten(t)[a] == head[a] && Flatten(t)[b] == head[b];
        } else if a >= |head| {
          assert Flatten(t)[a] == rest[a - |head|] && Flatten(t)[b] == rest[b - |head|];
        } else {
          var s := rest[b - |head|];
          assert Flatten(t)[a] == head[a] && Flatten(t)[b] == s;
          FlattenMembers(t[1..], s);
          var k :| 0 <= k < |t[1..]| && s in t[1..][k].subCategories;
          assert s in t[k + 1].subCategories;
        }
      }
    }
  }

  /** With no name in two categories, the inverse lookup finds the one category listing it. */
  lemma UniqueOwner(t: Categories, s: string, i: nat)
    requires NoSharedSubCategories(t)
    requires i < |t| && s in t[i].subCategories
    ensures CategoryOf(t, s) == t[i].category
  {
    assert LastOwner(t, s, i);
    CategoryOfSpec(t, s);
  }

  /**
   * `{label: i for i, label in enumerate(labels)}`: built left to right, so a
   * label listed twice keeps its last index.
   */
  function LabelToId(labels: seq<string>): map<string, int>
    decreases |labels|
  {
    if labels == [] then map[]
    else LabelToId(labels[..|labels| - 1])[labels[|labels| - 1] := |labels| - 1]
  }

  /** `{i: label for i, label in enumerate(labels)}`. */
  function IdToLabel(labels: seq<string>): map<int, string> {
    map i | 0 <= i < |labels| :: labels[i]
  }

  /** Every label has an id, and its id is the last position holding it. */
  lemma {:induction false} LabelToIdSpec(labels: seq<string>, l: string)
    ensures l in LabelToId(labels) <==> l in labels
    ensures l in labels ==>
      var k := LabelToId(labels)[l];
      && 0 <= k < |labels|
      && labels[k] == l
      && forall j :: k < j < |labels| ==> labels[j] != l
    decreases |labels|
  {
    if labels != [] {
      var front := labels[..|labels| - 1];
      LabelToIdSpec(front, l);
      assert labels == front + [labels[|labels| - 1]];
    }
  }

  /** `id_to_label[label_to_id[l]] == l` for every label, even a repeated one. */
  lemma LabelRoundTrip(labels: seq<string>, l: string)
    requires l in labels
    ensures l in LabelToId(labels)
    ensures LabelToId(labels)[l] in IdToLabel(labels)
    ensures IdToLabel(labels)[LabelToId(labels)[l]] == l
  {
    LabelToIdSpec(labels, l);
  }

  /** With distinct labels the ids are exactly the positions: `label_to_id[id_to_label[i]] == i`. */
  lemma IdRoundTrip(labels: seq<string>, i: int)
    requires forall a, b :: 0 <= a < b < |labels| ==> labels[a] != labels[b]
    requires 0 <= i < |labels|
    ensures IdToLabel(labels)[i] in LabelToId(labels)
    ensures LabelToId(labels)[IdToLabel(labels)[i]] == i
  {
    LabelToIdSpec(labels, labels[i]);
  }

  /** An edit sent by the user interface, by its "type" field. */
  datatype Edit =
    | Update(subCategory: string, newName: string)
    | Delete(subCategory: string)
    | Add(subCategory: string, category: string)
    | Other

  /** `xs.index(x)`: the first position holding x. */
  function IndexOf(xs: seq<string>, x: string): (k: nat)
    requires x in xs
    ensures k < |xs| && xs[k] == x
    ensures forall j :: 0 <= j < k ==> xs[j] != x
  {
    if xs[0] == x then 0 else 1 + IndexOf(xs[1..], x)
  }

  /** `xs[xs.index(target)] = replacement` when target is listed; otherwise xs. */
  function ReplaceFirst(xs: seq<string>, target: string, replacement: string): (r: seq<string>)
    ensures target !in xs ==> r == xs
    ensures target in xs ==> r == xs[IndexOf(xs, target) := replacement]
  {
    if xs == [] then []
    else if xs[0] == target then [replacement] + xs[1..]
    else [xs[0]] + ReplaceFirst(xs[1..], target, replacement)
  }

  /** `xs.remove(x)` when x is listed; otherwise xs. */
  function RemoveFirst(xs: seq<string>, x: string): (r: seq<string>)
    ensures x !in xs ==> r == xs
    ensures x in xs ==> r == xs[..IndexOf(xs, x)] + xs[IndexOf(xs, x) + 1..]
  {
    if xs == [] then []
    else if xs[0] == x then xs[1..]
    else
      assert x in xs[1..] ==> xs[..IndexOf(xs, x)] == [xs[0]] + xs[1..][..IndexOf(xs[1..], x)];
      [xs[0]] + RemoveFirst(xs[1..], x)
  }

  /** One category's list after one edit of the taxonomy phase. */
  function EditList(xs: seq<string>, e: Edit): seq<string> {
    match e
    case Update(s, n) => ReplaceFirst(xs, s, n)
    case Delete(s) => RemoveFirst(xs, s)
    case _ => xs
  }

  /** The list of a category after `setdefault` and the guarded append. */
  function AddTo(xs: seq<string>, s: string): seq<string> {
    if s in xs then xs else xs + [s]
  }

  /** One edit of the taxonomy phase of `UpdateCategoriesTask.doWork`. */
  function ApplyEdit(t: Categories, e: Edit): Categories {
    match e
    case Add(s, c) =>
      (match IndexOfCategory(t, c)
       case None => t + [Entry(c, [s])]
       case Some(i) => t[i := Entry(c, AddTo(t[i].subCategories, s))])
    case _ => seq(|t|, i requires 0 <= i < |t| => Entry(t[i].category, EditList(t[i].subCategories, e)))
  }

  /** The edits in the order they were sent. */
  function ApplyEdits(t: Categories, edits: seq<Edit>): Categories
    decreases |edits|
  {
    if edits == [] then t
    else ApplyEdit(ApplyEdits(t, edits[..|edits| - 1]), edits[|edits| - 1])
  }

  /**
   * A rename or a removal keeps the categories and their order, touches only
   * the lists naming the subcategory, and there only its first occurrence.
   */
  lemma RenameOrRemove(t: Categories, e: Edit, i: nat)
    requires e.Update? || e.Delete?
    requires i < |t|
    ensures Names(ApplyEdit(t, e)) == Names(t)
    ensures e.subCategory !in t[i].subCategories ==> ApplyEdit(t, e)[i] == t[i]
    ensures e.Update? ==> |ApplyEdit(t, e)[i].subCategories| == |t[i].subCategories|
    ensures e.Update? && e.subCategory in t[i].subCategories ==>
      e.newName in ApplyEdit(t, e)[i].subCategories
    ensures e.Delete? && e.subCategory in t[i].subCategories ==>
      |ApplyEdit(t, e)[i].subCategories| == |t[i].subCategories| - 1
  {
    var xs := t[i].subCategories;
    if e.Update? && e.subCategory in xs {
      assert ApplyEdit(t, e)[i].subCategories[IndexOf(xs, e.subCategory)] == e.newName;
    }
  }

  /**
   * An add makes sure the category lists the subcategory: a new category is
   * appended at the end with it alone, an existing one gains it at the end of
   * its list unless already there; nothing else changes.
   */
  lemma AddSpec(t: Categories, s: string, c: string)
    ensures var r := ApplyEdit(t, Add(s, c));
      && (c !in Names(t) ==> r == t + [Entry(c, [s])])
      && (forall i :: 0 <= i < |t| && t[i].category == c && (forall j :: 0 <= j < i ==> t[j].category != c) ==>
            && |r| == |t|
            && r[i].subCategories == (if s in t[i].subCategories then t[i].subCategories else t[i].subCategories + [s])
            && forall j :: 0 <= j < |t| && j != i ==> r[j] == t[j])
  {
  }

  /** Adding the same subcategory twice is the same as adding it once. */
  lemma AddIdempotent(t: Categories, s: string, c: string)
    ensures ApplyEdit(ApplyEdit(t, Add(s, c)), Add(s, c)) == ApplyEdit(t, Add(s, c))
  {
    var r := ApplyEdit(t, Add(s, c));
    match IndexOfCategory(t, c)
    case None =>
      assert Names(r) == Names(t) + [c];
      assert IndexOfCategory(r, c) == Some(|t|);
    case Some(i) =>
      assert Names(r) == Names(t);
      assert IndexOfCategory(r, c) == Some(i);
  }

  /** An edit of another type leaves the taxonomy as it is. */
  lemma OtherEditIgnored(t: Categories)
    ensures ApplyEdit(t, Other) == t
  {
  }

  /** Renaming or removing keeps the keys distinct, and an add keeps them distinct too. */
  lemma EditKeepsDistinctNames(t: Categories, e: Edit)
    requires DistinctNames(t)
    ensures DistinctNames(ApplyEdit(t, e))
  {
    if e.Add? {
      match IndexOfCategory(t, e.category)
      case None =>
      case Some(i) =>
    }
  }
}
