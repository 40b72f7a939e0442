/** The spending-trends chart data: the month axis is the distinct months of
    all categories' entries, and each category becomes one line whose values
    are aligned on that axis. */
module SpendingTrends {
  import opened Common

  /** One point of a category's trend; `amount` is `None` when the entry has
      none (undefined or null). */
  datatype TrendEntry = TrendEntry(month: string, amount: Option<int>)

  /** A category name and its entries, in `Object.entries(trends)` order. */
  datatype CategoryTrend = CategoryTrend(category: string, entries: seq<TrendEntry>)

  /** One line of the chart; `lineLabel` is the dataset's `label`. */
  datatype Dataset = Dataset(lineLabel: string, data: seq<int>, borderColor: string)

  const Colors: seq<string> := [
    "#4e79a7", "#f28e2c", "#e15759", "#76b7b2",
    "#59a14f", "#edc948", "#b07aa1", "#ff9da7",
    "#9c755f", "#bab0ab"]

  function EntryMonth(e: TrendEntry): string { e.month }

  function MonthsOf(c: CategoryTrend): seq<string>
  {
    Map(c.entries, EntryMonth)
  }

  /** `Object.values(trends).flat().map(t => t.month)`. */
  function AllMonths(trends: seq<CategoryTrend>): seq<string>
  {
    FlatMap(trends, MonthsOf)
  }

  /** `[...new Set(..)]`: the months, each once, in order of first occurrence. */
  function Months(trends: seq<CategoryTrend>): (r: seq<string>)
    ensures NoDup(r)
    ensures forall m :: m in r <==> exists c, e :: c in trends && e in c.entries && e.month == m
  {
    AllMonthsMembers(trends);
    Dedup(AllMonths(trends))
  }

  /** The flattened months are exactly the months of the entries. */
  lemma AllMonthsMembers(trends: seq<CategoryTrend>)
    ensures forall m :: m in AllMonths(trends) <==> exists c, e :: c in trends && e in c.entries && e.month == m
  {
    forall m ensures m in AllMonths(trends) <==> exists c, e :: c in trends && e in c.entries && e.month == m {
      if m in AllMonths(trends) {
        var c :| c in trends && m in MonthsOf(c);
        MapMembers(c.entries, EntryMonth);
        var e :| e in c.entries && m == EntryMonth(e);
      }
      if exists c, e :: c in trends && e in c.entries && e.month == m {
        var c, e :| c in trends && e in c.entries && e.month == m;
        MapMembers(c.entries, EntryMonth);
        assert m in MonthsOf(c);
      }
    }
  }

  /** `entries.find(e => e.month === month)`. */
  function FindEntry(entries: seq<TrendEntry>, month: string): (r: Option<TrendEntry>)
    ensures r.None? <==> forall e :: e in entries ==> e.month != month
    ensures r.Some? ==> exists j :: 0 <= j < |entries| && entries[j] == r.value && r.value.month == month
                                    && forall i :: 0 <= i < j ==> entries[i].month != month
  {
    if |entries| == 0 then None
    else if entries[0].month == month then Some(entries[0])
    else
      var r := FindEntry(entries[1..], month);
      assert forall e :: e in entries ==> e == entries[0] || e in entries[1..];
      if r.Some? then
        var j :| 0 <= j < |entries[1..]| && entries[1..][j] == r.value && r.value.month == month
                 && forall i :: 0 <= i < j ==> entries[1..][i].month != month;
        assert entries[j + 1] == r.value;
        assert forall i :: 1 <= i < j + 1 ==> entries[i] == entries[1..][i - 1];
        r
      else r
  }

  /** `?.amount || 0`: a missing entry, a missing amount and 0 all give 0. */
  function ValueFor(entries: seq<TrendEntry>, month: string): int
  {
    match FindEntry(entries, month)
    case None => 0
    case Some(e) => e.amount.GetOr(0)
  }

  function ValuesOn(months: seq<string>, entries: seq<TrendEntry>): seq<int>
  {
    Map(months, m => ValueFor(entries, m))
  }

  /** `COLORS[index % COLORS.length]`. */
  function ColorAt(index: nat): string
  {
    Colors[index % |Colors|]
  }

  /** The chart's datasets, one per category in category order. */
  function Datasets(trends: seq<CategoryTrend>): (r: seq<Dataset>)
    ensures |r| == |trends|
    ensures forall k :: 0 <= k < |r| ==>
              r[k].lineLabel == trends[k].category && |r[k].data| == |Months(trends)|
    ensures forall k :: 0 <= k < |r| ==> r[k].borderColor == Colors[k % |Colors|]
  {
    var months := Months(trends);
    seq(|trends|, k requires 0 <= k < |trends| =>
      Dataset(trends[k].category, ValuesOn(months, trends[k].entries), ColorAt(k)))
  }

  // ------------------------------------------------------------ properties

  /** Months appear on the axis in the order they first occur when walking the
      categories and then their entries. */
  lemma MonthsInFirstOccurrenceOrder(trends: seq<CategoryTrend>, i: nat, j: nat)
    requires i < j < |Months(trends)|
    ensures FirstIndex(AllMonths(trends), Months(trends)[i]) < FirstIndex(AllMonths(trends), Months(trends)[j])
  {
    DedupFirstOccurrenceOrder(AllMonths(trends), i, j);
  }

  /** A dataset's value at month `i` is the amount of the first entry of its
      category for that month, or 0 when there is no such entry or its amount
      is missing. */
  lemma DataValue(trends: seq<CategoryTrend>, k: nat, i: nat)
    requires k < |trends| && i < |Months(trends)|
    ensures var month := Months(trends)[i];
            var entries := trends[k].entries;
            var v := Datasets(trends)[k].data[i];
            && ((forall e :: e in entries ==> e.month != month) ==> v == 0)
            && (forall j :: 0 <= j < |entries| && entries[j].month == month
                            && (forall h :: 0 <= h < j ==> entries[h].month != month) ==>
                              v == entries[j].amount.GetOr(0))
  {
    var month := Months(trends)[i];
    var entries := trends[k].entries;
    var r := FindEntry(entries, month);
    if r.Some? {
      var j0 :| 0 <= j0 < |entries| && entries[j0] == r.value && r.value.month == month
                && forall h :: 0 <= h < j0 ==> entries[h].month != month;
      forall j | 0 <= j < |entries| && entries[j].month == month
                 && (forall h :: 0 <= h < j ==> entries[h].month != month)
        ensures j == j0
      {
      }
    }
  }

  /** Datasets fewer than ten apart get different colours. */
  lemma ColorsDistinctNearby(trends: seq<CategoryTrend>, k: nat, l: nat)
    requires k < l < |trends| && l - k < |Colors|
    ensures Datasets(trends)[k].borderColor != Datasets(trends)[l].borderColor
  {
    assert NoDup(Colors);
    var a := k % |Colors|;
    var b := l % |Colors|;
    assert a != b;
  }

  /** The palette repeats: datasets exactly ten apart share a colour. */
  lemma ColorsCycle(trends: seq<CategoryTrend>, k: nat)
    requires k + |Colors| < |trends|
    ensures Datasets(trends)[k].borderColor == Datasets(trends)[k + |Colors|].borderColor
  {
    assert (k + |Colors|) % |Colors| == k % |Colors|;
  }
}
