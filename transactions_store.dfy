/**
 * The client's copy of the ledger: a table of rows of cells in the server's
 * column order, the accessors for the columns the charts use, and the
 * earliest and latest dates of the table.
 */
module TransactionsStore {
  import opened Wrappers
  import opened MasterCsv

  /** The server's columns, by position. */
  const DATE := 0
  const TRANSACTION := 1
  const NAME := 2
  const MEMO := 3
  const AMOUNT := 4
  const CATEGORY := 5
  const SUB_CATEGORY := 6

  /** A row as the server sends it: one cell per column of the ledger. */
  type Transaction = row: seq<string> | |row| == 7 witness ["", "", "", "", "", "", ""]

  /** `new Date(text).getTime()`: how a date cell is read, in milliseconds. */
  type DateParser = string -> int

  /** `Number(text)`: how an amount cell is read. */
  type NumberParser = string -> real

  function GetDate(parse: DateParser, row: Transaction): int {
    parse(row[DATE])
  }

  function GetName(row: Transaction): string {
    row[NAME]
  }

  function GetAmount(parse: NumberParser, row: Transaction): real {
    parse(row[AMOUNT])
  }

  function GetCategory(row: Transaction): string {
    row[CATEGORY]
  }

  function GetSubCategory(row: Transaction): string {
    row[SUB_CATEGORY]
  }

  /**
   * The accessors read the columns the server writes under the matching
   * header, so a line of the ledger shows its own date, name, amount and
   * categories.
   */
  lemma AccessorsReadServerColumns(r: Row, dates: DateParser, numbers: NumberParser)
    ensures FIELDNAMES[DATE] == "Date" && FIELDNAMES[NAME] == "Name" && FIELDNAMES[AMOUNT] == "Amount"
    ensures FIELDNAMES[CATEGORY] == "Category" && FIELDNAMES[SUB_CATEGORY] == "Sub Category"
    ensures GetDate(dates, Cells(r)) == dates(r.date)
    ensures GetName(Cells(r)) == r.name
    ensures GetAmount(numbers, Cells(r)) == numbers(r.amount)
    ensures GetCategory(Cells(r)) == r.category
    ensures GetSubCategory(Cells(r)) == r.subCategory
  {
  }

  /** The dates of the rows, in row order. */
  function Dates(parse: DateParser, rows: seq<Transaction>): (ds: seq<int>)
    ensures |ds| == |rows|
    ensures forall i :: 0 <= i < |rows| ==> ds[i] == GetDate(parse, rows[i])
  {
    seq(|rows|, i requires 0 <= i < |rows| => GetDate(parse, rows[i]))
  }

  /** `Math.max(...xs)` on a non-empty list. */
  function Max(xs: seq<int>): (m: int)
    requires xs != []
    ensures m in xs
    ensures forall i :: 0 <= i < |xs| ==> xs[i] <= m
  {
    if |xs| == 1 then xs[0]
    else
      var rest := Max(xs[1..]);
      assert forall i :: 1 <= i < |xs| ==> xs[i] == xs[1..][i - 1];
      if xs[0] >= rest then xs[0] else rest
  }

  /** `Math.min(...xs)` on a non-empty list. */
  function Min(xs: seq<int>): (m: int)
    requires xs != []
    ensures m in xs
    ensures forall i :: 0 <= i < |xs| ==> m <= xs[i]
  {
    if |xs| == 1 then xs[0]
    else
      var rest := Min(xs[1..]);
      assert forall i :: 1 <= i < |xs| ==> xs[i] == xs[1..][i - 1];
      if xs[0] <= rest then xs[0] else rest
  }

  /** The store of the rows shown in the charts. */
  class Store {
    var transactions: seq<Transaction>

    constructor()
      ensures transactions == []
    {
      transactions := [];
    }

    /** `loadTransactions`: the table is replaced as a whole. */
    method LoadTransactions(data: seq<Transaction>)
      modifies this
      ensures transactions == data
    {
      transactions := data;
    }

    /** `hasData` */
    function HasData(): (b: bool)
      reads this
      ensures b <==> transactions != []
    {
      |transactions| != 0
    }

    /** `maxDate`: the latest date of the table, undefined when it is empty. */
    function MaxDate(parse: DateParser): (d: Option<int>)
      reads this
      ensures d.None? <==> !HasData()
      ensures d.Some? ==> exists i :: 0 <= i < |transactions| && d.value == GetDate(parse, transactions[i])
      ensures d.Some? ==> forall i :: 0 <= i < |transactions| ==> GetDate(parse, transactions[i]) <= d.value
    {
      if HasData() then
        var m := Max(Dates(parse, transactions));
        assert exists i :: 0 <= i < |transactions| && m == Dates(parse, transactions)[i];
        Some(m)
      else None
    }

    /** `minDate`: the earliest date of the table, undefined when it is empty. */
    function MinDate(parse: DateParser): (d: Option<int>)
      reads this
      ensures d.None? <==> !HasData()
      ensures d.Some? ==> exists i :: 0 <= i < |transactions| && d.value == GetDate(parse, transactions[i])
      ensures d.Some? ==> forall i :: 0 <= i < |transactions| ==> d.value <= GetDate(parse, transactions[i])
    {
      if HasData() then
        var m := Min(Dates(parse, transactions));
        assert exists i :: 0 <= i < |transactions| && m == Dates(parse, transactions)[i];
        Some(m)
      else None
    }

    /** The earliest date is never after the latest. */
    lemma MinNotAfterMax(parse: DateParser)
      requires HasData()
      ensures MinDate(parse).value <= MaxDate(parse).value
    {
      assert GetDate(parse, transactions[0]) in Dates(parse, transactions);
    }
  }
}
