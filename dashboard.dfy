/** The dashboard's list state: the date-range filter applied before the list
    is shown, and the update of the list after a delete request. */
module Dashboard {
  import opened Common
  import opened GroupedExpenses

  /** Milliseconds in a day. */
  const MsPerDay := 86400000

  /** `new Date("YYYY-MM-DD")` is midnight UTC of that day. A picked date is
      given as its day number counted from 1970-01-01. */
  function DayStart(day: int): int
  {
    day * MsPerDay
  }

  /** The day, counted from 1970-01-01 UTC, that a timestamp falls on. */
  function DayOf(t: int): int
  {
    t / MsPerDay
  }

  /** The filter predicate as written: an unset bound (`''`, falsy) does not
      restrict; a set bound compares the timestamp with midnight of that day. */
  predicate KeptAsWritten(start: Option<int>, end: Option<int>, x: Item)
  {
    (start.None? || x.created_at >= DayStart(start.value))
    && (end.None? || x.created_at <= DayStart(end.value))
  }

  function KeptAsWrittenBy(start: Option<int>, end: Option<int>): Item -> bool
  {
    (x: Item) => KeptAsWritten(start, end, x)
  }

  /** `filteredExpenses` as written. */
  function FilterByDate(expenses: seq<Item>, start: Option<int>, end: Option<int>): (r: seq<Item>)
    ensures forall x :: x in r <==>
              x in expenses
              && (start.None? || x.created_at >= DayStart(start.value))
              && (end.None? || x.created_at <= DayStart(end.value))
  {
    Filter(expenses, KeptAsWrittenBy(start, end))
  }

  /** The filtered list keeps the expenses in their order. */
  lemma FilteredIsSubsequence(expenses: seq<Item>, start: Option<int>, end: Option<int>)
    ensures IsSubsequence(FilterByDate(expenses, start, end), expenses)
  {
    FilterIsSubsequence(expenses, KeptAsWrittenBy(start, end));
  }

  /** With neither date set, every expense is shown. */
  lemma NoDatesKeepsAll(expenses: seq<Item>)
    ensures FilterByDate(expenses, None, None) == expenses
  {
    FilterAll(expenses, KeptAsWrittenBy(None, None));
  }

  /** An expense made at noon on the chosen end day is not shown, although the
      date picker names that day as the last one of the range. */
  lemma EndDayNoonExcluded(id: int, amount: int, day: int)
    ensures FilterByDate([Item(id, amount, DayStart(day) + MsPerDay / 2, map[])], None, Some(day)) == []
  {
    var x := Item(id, amount, DayStart(day) + MsPerDay / 2, map[]);
    assert !KeptAsWritten(None, Some(day), x);
  }

  /** The intended filter: both picked days are included whole. */
  predicate KeptByDays(start: Option<int>, end: Option<int>, x: Item)
  {
    (start.None? || x.created_at >= DayStart(start.value))
    && (end.None? || x.created_at < DayStart(end.value + 1))
  }

  function KeptByDaysBy(start: Option<int>, end: Option<int>): Item -> bool
  {
    (x: Item) => KeptByDays(start, end, x)
  }

  /** The date filter with the end day included whole. */
  function FilterByDayRange(expenses: seq<Item>, start: Option<int>, end: Option<int>): (r: seq<Item>)
    ensures forall x :: x in r <==>
              x in expenses
              && (start.None? || DayOf(x.created_at) >= start.value)
              && (end.None? || DayOf(x.created_at) <= end.value)
  {
    forall x ensures KeptByDays(start, end, x) <==>
                     (start.None? || DayOf(x.created_at) >= start.value)
                     && (end.None? || DayOf(x.created_at) <= end.value)
    {
      if start.Some? {
        DayBounds(x.created_at, start.value);
      }
      if end.Some? {
        DayBounds(x.created_at, end.value + 1);
      }
    }
    Filter(expenses, KeptByDaysBy(start, end))
  }

  /** A timestamp is at or after midnight of day `d` exactly when its day is
      `d` or later. */
  lemma DayBounds(t: int, d: int)
    ensures t >= DayStart(d) <==> DayOf(t) >= d
  {
    var q := t / MsPerDay;
    var r := t % MsPerDay;
    assert t == q * MsPerDay + r && 0 <= r < MsPerDay;
    if q >= d {
      assert q * MsPerDay >= d * MsPerDay;
    } else {
      assert q * MsPerDay <= (d - 1) * MsPerDay;
    }
  }

  /** The intended filter keeps everything the written one keeps, in the same
      order. */
  lemma DayRangeKeepsMore(expenses: seq<Item>, start: Option<int>, end: Option<int>)
    ensures IsSubsequence(FilterByDate(expenses, start, end), FilterByDayRange(expenses, start, end))
  {
    FilterStronger(expenses, KeptAsWrittenBy(start, end), KeptByDaysBy(start, end));
  }

  // ------------------------------------------------------------ delete

  function HasOtherId(id: int): Item -> bool
  {
    (x: Item) => x.id != id
  }

  /** `handleDeleteExpense`: once the delete request succeeds the list drops
      every entry with that id; when the request fails the list is kept. */
  function AfterDelete(expenses: seq<Item>, id: int, deleted: bool): (r: seq<Item>)
    ensures !deleted ==> r == expenses
    ensures deleted ==> forall x :: x in r <==> x in expenses && x.id != id
  {
    if deleted then Filter(expenses, HasOtherId(id)) else expenses
  }

  /** The other entries stay, in the same order. */
  lemma DeleteKeepsOrder(expenses: seq<Item>, id: int, deleted: bool)
    ensures IsSubsequence(AfterDelete(expenses, id, deleted), expenses)
  {
    if deleted {
      FilterIsSubsequence(expenses, HasOtherId(id));
    } else {
      FilterAll(expenses, (x: Item) => true);
      FilterIsSubsequence(expenses, (x: Item) => true);
    }
  }

  /** A successful delete removes exactly the entries with that id: the count
      of every other entry is unchanged. */
  lemma DeleteRemovesExactly(expenses: seq<Item>, id: int)
    ensures forall x: Item :: x.id != id ==> multiset(AfterDelete(expenses, id, true))[x] == multiset(expenses)[x]
    ensures forall x: Item :: x.id == id ==> multiset(AfterDelete(expenses, id, true))[x] == 0
  {
    forall x: Item ensures multiset(AfterDelete(expenses, id, true))[x] == if x.id != id then multiset(expenses)[x] else 0 {
      CountInFilter(expenses, HasOtherId(id), x);
    }
  }

  /** Deleting an id that is not in the list leaves it as it was. */
  lemma DeleteAbsentIsIdentity(expenses: seq<Item>, id: int)
    requires forall x :: x in expenses ==> x.id != id
    ensures AfterDelete(expenses, id, true) == expenses
  {
    FilterAll(expenses, HasOtherId(id));
  }
}
