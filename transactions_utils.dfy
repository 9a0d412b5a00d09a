/**
 * The chart helpers of the client: slice functions that turn a row into a
 * named amount, the breakdown that sums the slices of the rows in a time
 * frame by name, its total, and the score card comparing three time frames.
 * Amounts are exact reals; JavaScript's floating-point rounding is not
 * modelled.
 */
module TransactionsUtils {
  import opened Wrappers
  import opened TransactionsStore

  /** A named amount of a chart. */
  datatype Slice = Slice(name: string, value: real)

  /** What a row contributes to a chart, if anything. */
  type SliceFunc = Transaction -> Option<Slice>

  /** `isWithinTimeFrame` on the row's date. */
  type TimeFrame = int -> bool

  // ---------------------------------------------------------------------
  // Slice functions
  // ---------------------------------------------------------------------

  /**
   * `createSliceFunc(category, subCategory, invertAmount)`: a null filter
   * lets every row through; a row that passes both filters is named by its
   * subcategory.
   */
  function CreateSliceFunc(numbers: NumberParser, category: Option<string>, subCategory: Option<string>, invertAmount: bool): (f: SliceFunc)
    ensures forall row :: f(row).Some? <==>
      (category.None? || GetCategory(row) == category.value) && (subCategory.None? || GetSubCategory(row) == subCategory.value)
    ensures forall row :: f(row).Some? ==> f(row).value.name == GetSubCategory(row)
    ensures forall row :: f(row).Some? ==>
      f(row).value.value == if invertAmount then -GetAmount(numbers, row) else GetAmount(numbers, row)
  {
    (row: Transaction) =>
      if (category.None? || GetCategory(row) == category.value) && (subCategory.None? || GetSubCategory(row) == subCategory.value)
      then Some(Slice(GetSubCategory(row), if invertAmount then -1.0 * GetAmount(numbers, row) else GetAmount(numbers, row)))
      else None
  }

  function InvestingSliceFunc(numbers: NumberParser): SliceFunc {
    CreateSliceFunc(numbers, Some("Investment"), None, true)
  }

  function IncomeSliceFunc(numbers: NumberParser): SliceFunc {
    CreateSliceFunc(numbers, Some("Income"), None, false)
  }

  function MiscellaneousSliceFunc(numbers: NumberParser): SliceFunc {
    CreateSliceFunc(numbers, Some("Miscellaneous"), None, true)
  }

  /** The categories that are not spending. */
  const NON_EXPENSES_CATEGORIES: set<string> := {"Investment", "Income", "Ignore"}

  /** `expensesSliceFunc`: spending, named by its category, as a positive amount for a debit. */
  function ExpensesSlice(numbers: NumberParser, row: Transaction): (b: Option<Slice>)
    ensures b.None? <==> GetCategory(row) in NON_EXPENSES_CATEGORIES
    ensures b.Some? ==> b.value == Slice(GetCategory(row), -GetAmount(numbers, row))
  {
    if GetCategory(row) in NON_EXPENSES_CATEGORIES then None
    else Some(Slice(GetCategory(row), -1.0 * GetAmount(numbers, row)))
  }

  /** A row counted as spending is never counted as income or investment. */
  lemma ExpensesExcludeIncomeAndInvesting(numbers: NumberParser, row: Transaction)
    requires ExpensesSlice(numbers, row).Some?
    ensures IncomeSliceFunc(numbers)(row).None?
    ensures InvestingSliceFunc(numbers)(row).None?
  {
  }

  // ---------------------------------------------------------------------
  // breakdown
  // ---------------------------------------------------------------------

  /** The slices of the rows in the time frame that have one, in row order. */
  function InFrameSlices(dates: DateParser, rows: seq<Transaction>, slice: SliceFunc, inFrame: TimeFrame): seq<Slice>
    decreases |rows|
  {
    if rows == [] then []
    else
      var row := rows[|rows| - 1];
      InFrameSlices(dates, rows[..|rows| - 1], slice, inFrame)
        + if inFrame(GetDate(dates, row)) && slice(row).Some? then [slice(row).value] else []
  }

  /** The slices of two tables joined are the slices of each, joined. */
  lemma {:induction false} InFrameSlicesAppend(dates: DateParser, a: seq<Transaction>, b: seq<Transaction>, slice: SliceFunc, inFrame: TimeFrame)
    ensures InFrameSlices(dates, a + b, slice, inFrame) == InFrameSlices(dates, a, slice, inFrame) + InFrameSlices(dates, b, slice, inFrame)
    decreases |b|
  {
    if b == [] {
      assert a + b == a;
    } else {
      var front := b[..|b| - 1];
      assert (a + b)[..|a + b| - 1] == a + front;
      InFrameSlicesAppend(dates, a, front, slice, inFrame);
    }
  }

  /** A row outside the time frame, or without a slice, changes nothing, wherever it is. */
  lemma IgnoredRow(dates: DateParser, a: seq<Transaction>, row: Transaction, b: seq<Transaction>, slice: SliceFunc, inFrame: TimeFrame)
    requires !inFrame(GetDate(dates, row)) || slice(row).None?
    ensures InFrameSlices(dates, a + [row] + b, slice, inFrame) == InFrameSlices(dates, a + b, slice, inFrame)
  {
    InFrameSlicesAppend(dates, a + [row], b, slice, inFrame);
    InFrameSlicesAppend(dates, a, [row], slice, inFrame);
    InFrameSlicesAppend(dates, a, b, slice, inFrame);
    assert [row][..0] == [];
  }

  /** The first entry under a name at or after position `i`. */
  function IndexFrom(data: seq<Slice>, name: string, i: nat): (r: Option<nat>)
    requires i <= |data|
    ensures r.None? <==> forall j :: i <= j < |data| ==> data[j].name != name
    ensures r.Some? ==> i <= r.value < |data| && data[r.value].name == name
    ensures r.Some? ==> forall j :: i <= j < r.value ==> data[j].name != name
    decreases |data| - i
  {
    if i == |data| then None
    else if data[i].name == name then Some(i)
    else IndexFrom(data, name, i + 1)
  }

  /** The entry of `data` under a name, as an object lookup finds it. */
  function IndexOfName(data: seq<Slice>, name: string): (r: Option<nat>)
    ensures r.None? <==> forall j :: 0 <= j < |data| ==> data[j].name != name
    ensures r.Some? ==> r.value < |data| && data[r.value].name == name
    ensures r.Some? ==> forall j :: 0 <= j < r.value ==> data[j].name != name
  {
    IndexFrom(data, name, 0)
  }

  /** One slice added into the running totals: a new name starts at 0. */
  function Accumulate(data: seq<Slice>, s: Slice): seq<Slice> {
    match IndexOfName(data, s.name)
    case None => data + [Slice(s.name, 0.0 + s.value)]
    case Some(k) => data[k := Slice(s.name, data[k].value + s.value)]
  }

  /** `Object.values(data)` after the slices went in, in order. */
  function Group(slices: seq<Slice>): seq<Slice>
    decreases |slices|
  {
    if slices == [] then []
    else Accumulate(Group(slices[..|slices| - 1]), slices[|slices| - 1])
  }

  /** The sum of the values, as `reduce((acc, value) => acc + value, 0)` forms it. */
  function Sum(slices: seq<Slice>): real
    decreases |slices|
  {
    if slices == [] then 0.0
    else Sum(slices[..|slices| - 1]) + slices[|slices| - 1].value
  }

  /** The sum of the values carrying one name. */
  function SumFor(slices: seq<Slice>, name: string): real
    decreases |slices|
  {
    if slices == [] then 0.0
    else SumFor(slices[..|slices| - 1], name) + if slices[|slices| - 1].name == name then slices[|slices| - 1].value else 0.0
  }

  /** The running total under a name; 0 before the name is seen. */
  function ValueOf(data: seq<Slice>, name: string): real {
    match IndexOfName(data, name)
    case None => 0.0
    case Some(k) => data[k].value
  }

  predicate DistinctNames(data: seq<Slice>) {
    forall i, j :: 0 <= i < j < |data| ==> data[i].name != data[j].name
  }

  /** Lookups only see the names. */
  lemma {:induction false} IndexOfSameNames(a: seq<Slice>, b: seq<Slice>, name: string)
    requires |a| == |b| && forall i :: 0 <= i < |a| ==> a[i].name == b[i].name
    ensures IndexOfName(a, name) == IndexOfName(b, name)
    decreases |a|
  {
    if a != [] && a[0].name != name {
      IndexOfSameNames(a[1..], b[1..], name);
    }
  }

  /** A lookup in a table with one more entry at the end. */
  lemma IndexOfAppend(a: seq<Slice>, x: Slice, name: string)
    ensures IndexOfName(a + [x], name) ==
      if IndexOfName(a, name).Some? then IndexOfName(a, name)
      else if x.name == name then Some(|a|) else None
  {
    var r := IndexOfName(a + [x], name);
    if IndexOfName(a, name).Some? {
      var k := IndexOfName(a, name).value;
      assert (a + [x])[k] == a[k];
      assert forall j :: 0 <= j < r.value ==> (a + [x])[j].name != name;
    } else if x.name == name {
      assert (a + [x])[|a|] == x;
    }
  }

  /** Adding a slice moves only its own name's total, and adds that name if it is new. */
  lemma AccumulateLookup(data: seq<Slice>, s: Slice, name: string)
    ensures IndexOfName(Accumulate(data, s), name).Some? <==> IndexOfName(data, name).Some? || name == s.name
    ensures ValueOf(Accumulate(data, s), name) == ValueOf(data, name) + if name == s.name then s.value else 0.0
  {
    var next := Accumulate(data, s);
    match IndexOfName(data, s.name)
    case None =>
      IndexOfAppend(data, Slice(s.name, 0.0 + s.value), name);
    case Some(k) =>
      IndexOfSameNames(next, data, name);
  }

  /** Adding a slice keeps the names distinct and adds its value to the sum. */
  lemma AccumulateDistinct(data: seq<Slice>, s: Slice)
    requires DistinctNames(data)
    ensures DistinctNames(Accumulate(data, s))
    ensures Sum(Accumulate(data, s)) == Sum(data) + s.value
  {
    var next := Accumulate(data, s);
    match IndexOfName(data, s.name)
    case None =>
      assert next[..|next| - 1] == data;
    case Some(k) =>
      SumUpdate(data, k, Slice(s.name, data[k].value + s.value));
  }

  /** Replacing one value moves the sum by the difference. */
  lemma {:induction false} SumUpdate(data: seq<Slice>, k: nat, x: Slice)
    requires k < |data|
    ensures Sum(data[k := x]) == Sum(data) - data[k].value + x.value
    decreases |data|
  {
    var n := |data|;
    if k < n - 1 {
      assert data[k := x][..n - 1] == data[..n - 1][k := x];
      SumUpdate(data[..n - 1], k, x);
    } else {
      assert data[k := x][..n - 1] == data[..n - 1];
    }
  }

  /** The grouping holds distinct names, and the values add up to the same sum. */
  lemma {:induction false} GroupDistinct(slices: seq<Slice>)
    ensures DistinctNames(Group(slices))
    ensures Sum(Group(slices)) == Sum(slices)
    decreases |slices|
  {
    if slices != [] {
      var front := slices[..|slices| - 1];
      GroupDistinct(front);
      AccumulateDistinct(Group(front), slices[|slices| - 1]);
    }
  }

  /**
   * The grouping holds a name exactly when some slice carries it, and under
   * it the sum of that name's values.
   */
  lemma {:induction false} GroupValue(slices: seq<Slice>, name: string)
    ensures IndexOfName(Group(slices), name).Some? <==> Names(slices, name)
    ensures ValueOf(Group(slices), name) == SumFor(slices, name)
    decreases |slices|
  {
    if slices != [] {
      var front := slices[..|slices| - 1];
      var s := slices[|slices| - 1];
      GroupValue(front, name);
      AccumulateLookup(Group(front), s, name);
      if exists j :: 0 <= j < |slices| && slices[j].name == name {
        var j :| 0 <= j < |slices| && slices[j].name == name;
        if j < |front| {
          assert front[j].name == name;
        }
      }
      if exists j :: 0 <= j < |front| && front[j].name == name {
        var j :| 0 <= j < |front| && front[j].name == name;
        assert slices[j].name == name;
      }
    }
  }

  /** Each entry of the grouping is the sum of its name's slices. */
  lemma GroupEntries(slices: seq<Slice>)
    ensures DistinctNames(Group(slices))
    ensures forall i :: 0 <= i < |Group(slices)| ==> Group(slices)[i].value == SumFor(slices, Group(slices)[i].name)
  {
    var g := Group(slices);
    GroupDistinct(slices);
    forall i | 0 <= i < |g| ensures g[i].value == SumFor(slices, g[i].name) {
      GroupValue(slices, g[i].name);
      assert IndexOfName(g, g[i].name) == Some(i);
    }
  }

  /** Some entry of the table carries the name. */
  predicate Names(data: seq<Slice>, name: string) {
    exists i :: 0 <= i < |data| && data[i].name == name
  }

  /** The grouping names exactly the names of the slices. */
  lemma GroupEntryNames(slices: seq<Slice>)
    ensures forall j :: 0 <= j < |slices| ==> Names(Group(slices), slices[j].name)
    ensures forall i :: 0 <= i < |Group(slices)| ==> Names(slices, Group(slices)[i].name)
  {
    forall j | 0 <= j < |slices| ensures Names(Group(slices), slices[j].name) {
      GroupValue(slices, slices[j].name);
      assert Names(slices, slices[j].name);
    }
    forall i | 0 <= i < |Group(slices)| ensures Names(slices, Group(slices)[i].name) {
      GroupValue(slices, Group(slices)[i].name);
    }
  }

  /** The object update `data[name] = data[name] || {name, value: 0}; data[name].value += value` is Accumulate. */
  lemma InPlaceAccumulate(before: seq<Slice>, s: Slice, grown: seq<Slice>, k: nat)
    requires IndexOfName(before, s.name).None? ==> grown == before + [Slice(s.name, 0.0)] && k == |before|
    requires IndexOfName(before, s.name).Some? ==> grown == before && k == IndexOfName(before, s.name).value
    ensures k < |grown| && grown[k := Slice(s.name, grown[k].value + s.value)] == Accumulate(before, s)
  {
    match IndexOfName(before, s.name)
    case None =>
      var added := Slice(s.name, 0.0 + s.value);
      assert grown[k] == Slice(s.name, 0.0);
      assert grown[k := added] == before + [added];
    case Some(m) =>
      assert grown == before && k == m;
      assert Accumulate(before, s) == before[m := Slice(s.name, before[m].value + s.value)];
  }

  /** One slice more goes into the grouping last. */
  lemma GroupSnoc(slices: seq<Slice>, s: Slice)
    ensures Group(slices + [s]) == Accumulate(Group(slices), s)
  {
    assert (slices + [s])[..|slices|] == slices;
  }

  /** One row more: its slice is added when it is in the frame and has one. */
  lemma InFrameSlicesStep(dates: DateParser, rows: seq<Transaction>, i: nat, slice: SliceFunc, inFrame: TimeFrame)
    requires i < |rows|
    ensures InFrameSlices(dates, rows[..i + 1], slice, inFrame) == InFrameSlices(dates, rows[..i], slice, inFrame)
      + if inFrame(GetDate(dates, rows[i])) && slice(rows[i]).Some? then [slice(rows[i]).value] else []
  {
    assert rows[..i + 1][..i] == rows[..i];
  }

  /**
   * The body of `breakdown` for a row with a slice: the entry under the
   * slice's name is created at 0 when missing, then the amount is added to it.
   */
  method AddSlice(data: seq<Slice>, s: Slice) returns (grown: seq<Slice>)
    ensures grown == Accumulate(data, s)
  {
    var found := IndexOfName(data, s.name);
    var k: nat;
    grown := data;
    if found.None? {
      grown := grown + [Slice(s.name, 0.0)];
      k := |grown| - 1;
    } else {
      k := found.value;
    }
    InPlaceAccumulate(data, s, grown, k);
    grown := grown[k := Slice(s.name, grown[k].value + s.value)];
  }

  /**
   * `breakdown`: the rows in the time frame that have a slice, summed by
   * slice name in the order the names first appear.
   */
  method Breakdown(dates: DateParser, transactions: seq<Transaction>, sliceFunc: SliceFunc, isWithinTimeFrame: TimeFrame)
    returns (data: seq<Slice>)
    ensures data == Group(InFrameSlices(dates, transactions, sliceFunc, isWithinTimeFrame))
  {
    data := [];
    for i := 0 to |transactions|
      invariant data == Group(InFrameSlices(dates, transactions[..i], sliceFunc, isWithinTimeFrame))
    {
      var row := transactions[i];
      ghost var seen := InFrameSlices(dates, transactions[..i], sliceFunc, isWithinTimeFrame);
      InFrameSlicesStep(dates, transactions, i, sliceFunc, isWithinTimeFrame);
      if !isWithinTimeFrame(GetDate(dates, row)) {
        assert InFrameSlices(dates, transactions[..i + 1], sliceFunc, isWithinTimeFrame) == seen;
        continue;
      }
      var slice := sliceFunc(row);
      if slice.Some? {
        data := AddSlice(data, slice.value);
        GroupSnoc(seen, slice.value);
      } else {
        assert InFrameSlices(dates, transactions[..i + 1], sliceFunc, isWithinTimeFrame) == seen;
      }
    }
    assert transactions[..|transactions|] == transactions;
  }

  /** `totalBreakdownAmount`: the sum over the breakdown, which is the sum of every slice. */
  method TotalBreakdownAmount(dates: DateParser, transactions: seq<Transaction>, sliceFunc: SliceFunc, isWithinTimeFrame: TimeFrame)
    returns (total: real)
    ensures total == TotalIn(dates, transactions, sliceFunc, isWithinTimeFrame)
  {
    var parts := Breakdown(dates, transactions, sliceFunc, isWithinTimeFrame);
    GroupDistinct(InFrameSlices(dates, transactions, sliceFunc, isWithinTimeFrame));
    total := Sum(parts);
  }

  datatype TimeFrames = TimeFrames(next: TimeFrame, previous: TimeFrame, current: TimeFrame)

  /** A score card; a percentage is undefined when its base is 0. */
  datatype ScoreCard = ScoreCard(
    previous: real, next: real, current: real,
    percentageIncreaseFromNext: Option<real>, percentageIncreaseFromPrevious: Option<real>)

  /** The change from a base to the current amount, relative to the base. */
  function Increase(current: real, base: real): (p: Option<real>)
    ensures p.None? <==> base == 0.0
    ensures p.Some? ==> p.value * base == current - base
  {
    if base == 0.0 then None else Some((current - base) / base)
  }

  /** The total of the slices of the rows in a time frame. */
  function TotalIn(dates: DateParser, transactions: seq<Transaction>, sliceFunc: SliceFunc, frame: TimeFrame): real {
    Sum(InFrameSlices(dates, transactions, sliceFunc, frame))
  }

  /** `scoreCard`: the three totals, and the current one compared with the other two. */
  method ScoreCardOf(dates: DateParser, transactions: seq<Transaction>, sliceFunc: SliceFunc, frames: TimeFrames)
    returns (card: ScoreCard)
    ensures card.previous == TotalIn(dates, transactions, sliceFunc, frames.previous)
    ensures card.current == TotalIn(dates, transactions, sliceFunc, frames.current)
    ensures card.next == TotalIn(dates, transactions, sliceFunc, frames.next)
    ensures card.percentageIncreaseFromNext == Increase(card.current, card.next)
    ensures card.percentageIncreaseFromPrevious == Increase(card.current, card.previous)
  {
    var previous := TotalBreakdownAmount(dates, transactions, sliceFunc, frames.previous);
    var current := TotalBreakdownAmount(dates, transactions, sliceFunc, frames.current);
    var next := TotalBreakdownAmount(dates, transactions, sliceFunc, frames.next);
    card := ScoreCard(previous, next, current, Increase(current, next), Increase(current, previous));
  }
}
