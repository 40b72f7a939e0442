/** GET /api/users/:userId/spending: a user's spending summary (sums over the
    ledger tables, the unsettled amount owed, the top category) and the user's
    transaction list, which merges the joined query rows of one expense into a
    single entry. */
module UserRoutes {
  import opened Common
  import opened Sorting
  import opened Ledger
  import JsParseInt
  import SettlementsRoutes

  // ------------------------------------------------------------ summary sums

  function ExpenseAmount(e: Expense): int { e.amount }
  function SplitAmount(se: Split): int { se.amount }
  function SettlementAmount(sd: Settlement): int { sd.amount }

  function PaidBy(u: UserId): Expense -> bool { (e: Expense) => e.user_id == u }
  function SharedPaidBy(u: UserId): Split -> bool { (se: Split) => se.paid_by == u }
  function PaidTo(u: UserId): Settlement -> bool { (sd: Settlement) => sd.paid_to == u }

  /** `SUM(amount) FROM expenses WHERE user_id = u`, 0 when there is none. */
  function TotalPaid(t: Tables, u: UserId): (r: int)
    ensures (forall e :: e in t.expenses ==> e.user_id != u) ==> r == 0
    ensures (forall e :: e in t.expenses && e.user_id == u ==> e.amount >= 0) ==> r >= 0
  {
    SumOfFilterBounds(t.expenses, PaidBy(u), ExpenseAmount);
    SumBy(Filter(t.expenses, PaidBy(u)), ExpenseAmount)
  }

  /** `SUM(amount) FROM shared_expenses WHERE paid_by = u`. */
  function TotalSharedPaid(t: Tables, u: UserId): (r: int)
    ensures (forall se :: se in t.splits ==> se.paid_by != u) ==> r == 0
    ensures (forall se :: se in t.splits && se.paid_by == u ==> se.amount >= 0) ==> r >= 0
  {
    SumOfFilterBounds(t.splits, SharedPaidBy(u), SplitAmount);
    SumBy(Filter(t.splits, SharedPaidBy(u)), SplitAmount)
  }

  /** `SUM(amount) FROM settled_debts WHERE paid_to = u`. */
  function TotalReimbursed(t: Tables, u: UserId): (r: int)
    ensures (forall sd :: sd in t.settled ==> sd.paid_to != u) ==> r == 0
    ensures (forall sd :: sd in t.settled && sd.paid_to == u ==> sd.amount >= 0) ==> r >= 0
  {
    SumOfFilterBounds(t.settled, PaidTo(u), SettlementAmount);
    SumBy(Filter(t.settled, PaidTo(u)), SettlementAmount)
  }

  /** A split row the user owes that no settlement matches on the 4-tuple. */
  function OwesUnsettled(t: Tables, u: UserId): Split -> bool
  {
    (se: Split) => se.owed_by == u && Unsettled(se, t.settled)
  }

  /** The user's unmatched split rows; the left join yields each of them once. */
  function OwedUnsettled(t: Tables, u: UserId): seq<Split>
  {
    Filter(t.splits, OwesUnsettled(t, u))
  }

  /** The `owed but not settled` sum: 0 when every split the user owes is
      matched by a settlement. */
  function TotalOwed(t: Tables, u: UserId): (r: int)
    ensures (forall se :: se in t.splits && se.owed_by == u ==> !Unsettled(se, t.settled)) ==> r == 0
    ensures (forall se :: se in t.splits && se.owed_by == u ==> se.amount >= 0) ==> r >= 0
  {
    SumOfFilterBounds(t.splits, OwesUnsettled(t, u), SplitAmount);
    SumBy(OwedUnsettled(t, u), SplitAmount)
  }

  function SuggestionAmount(s: SettlementsRoutes.Suggestion): int { s.amount }

  function OwedBy(u: UserId): SettlementsRoutes.Suggestion -> bool
  {
    (s: SettlementsRoutes.Suggestion) => s.owed_by == u
  }

  /** When every split's users exist, the unsettled amount a user owes is the
      total of that user's rows in the settle-up suggestions. */
  lemma TotalOwedMatchesSuggestions(t: Tables, u: UserId)
    requires forall se :: se in t.splits ==> SettlementsRoutes.Listed(t.users, se)
    ensures TotalOwed(t, u) == SumBy(Filter(SettlementsRoutes.Suggestions(t), OwedBy(u)), SuggestionAmount)
  {
    SumByFilterMapFilter(t.splits, SettlementsRoutes.SuggestibleIn(t), SettlementsRoutes.SuggestionIn(t.users),
                         OwedBy(u), SuggestionAmount, OwesUnsettled(t, u), SplitAmount);
  }

  function SettledBy(x: Settlement): Split -> bool { (se: Split) => Settles(x, se) }

  /** Appending a settlement `x` lowers the unsettled amount owed by exactly
      the amounts of the owed rows `x` matches. */
  lemma RecordingLowersOwed(t: Tables, u: UserId, x: Settlement)
    ensures TotalOwed(SettlementsRoutes.WithSettlement(t, x), u)
            + SumBy(Filter(OwedUnsettled(t, u), SettledBy(x)), SplitAmount)
            == TotalOwed(t, u)
  {
    var t' := SettlementsRoutes.WithSettlement(t, x);
    forall se | se in t.splits
      ensures OwesUnsettled(t', u)(se) == (OwesUnsettled(t, u)(se) && !SettledBy(x)(se))
    {
      assert forall sd :: sd in t'.settled <==> sd in t.settled || sd == x;
    }
    SumByFilterRemove(t.splits, OwesUnsettled(t, u), SettledBy(x), OwesUnsettled(t', u), SplitAmount);
  }

  /** With non-negative split amounts, recording a settlement never raises the
      amount a user owes. */
  lemma RecordingNeverRaisesOwed(t: Tables, u: UserId, x: Settlement)
    requires forall se :: se in t.splits ==> se.amount >= 0
    ensures TotalOwed(SettlementsRoutes.WithSettlement(t, x), u) <= TotalOwed(t, u)
  {
    RecordingLowersOwed(t, u, x);
    SumByNonNegative(Filter(OwedUnsettled(t, u), SettledBy(x)), SplitAmount);
  }

  /** A recorded settlement adds its amount to the payee's reimbursed total
      and leaves every other user's total as it was. */
  lemma RecordingReimburses(t: Tables, x: Settlement, u: UserId)
    ensures TotalReimbursed(SettlementsRoutes.WithSettlement(t, x), u)
            == TotalReimbursed(t, u) + (if u == x.paid_to then x.amount else 0)
  {
    FilterConcat(t.settled, [x], PaidTo(u));
    SumByConcat(Filter(t.settled, PaidTo(u)), Filter([x], PaidTo(u)), SettlementAmount);
  }

  // ------------------------------------------------------------ top category

  /** The user has an expense joined to a category named `c`. */
  predicate HasCategory(t: Tables, u: UserId, c: string)
  {
    exists e :: e in t.expenses && e.user_id == u && e.category == Some(c)
  }

  /** `SUM(e.amount)` of the user's expenses in category `c`. */
  function CategoryTotal(t: Tables, u: UserId, c: string): int
  {
    SumBy(Filter(t.expenses, (e: Expense) => e.user_id == u && e.category == Some(c)), ExpenseAmount)
  }

  function CategoryName(e: Expense): string
  {
    e.category.GetOr("")
  }

  /** The user's category names (`GROUP BY c.name`), in order of first use. */
  function CategoryNames(t: Tables, u: UserId): (r: seq<string>)
    ensures forall c :: c in r <==> HasCategory(t, u, c)
  {
    var mine := Filter(t.expenses, (e: Expense) => e.user_id == u && e.category.Some?);
    MapMembers(mine, CategoryName);
    Dedup(Map(mine, CategoryName))
  }

  /** A name with the largest total; the first such name on ties. */
  function MaxByTotal(cs: seq<string>, total: string -> int): (r: string)
    requires |cs| > 0
    ensures r in cs
    ensures forall c :: c in cs ==> total(c) <= total(r)
  {
    if |cs| == 1 then cs[0]
    else
      var m := MaxByTotal(cs[1..], total);
      assert forall c :: c in cs ==> c == cs[0] || c in cs[1..];
      if total(cs[0]) >= total(m) then cs[0] else m
  }

  /** `ORDER BY total DESC LIMIT 1` then `rows[0]?.name || null`: a category with
      maximal total, or None when the user has no categorised expense or the
      chosen name is the empty string (falsy). */
  function TopCategory(t: Tables, u: UserId): (r: Option<string>)
    ensures r.Some? ==> r.value != "" && HasCategory(t, u, r.value)
    ensures r.Some? ==> forall c :: HasCategory(t, u, c) ==> CategoryTotal(t, u, c) <= CategoryTotal(t, u, r.value)
    ensures r.None? ==> (forall c :: !HasCategory(t, u, c))
                        || (HasCategory(t, u, "")
                            && forall c :: HasCategory(t, u, c) ==> CategoryTotal(t, u, c) <= CategoryTotal(t, u, ""))
  {
    var cs := CategoryNames(t, u);
    if |cs| == 0 then None
    else
      var m := MaxByTotal(cs, c => CategoryTotal(t, u, c));
      if m == "" then None else Some(m)
  }

  // ------------------------------------------------------------ shared_with

  function OwerName(users: seq<User>, se: Split): string
  {
    NameOf(users, se.owed_by).GetOr("")
  }

  function OwerNameIn(users: seq<User>): Split -> string
  {
    (se: Split) => OwerName(users, se)
  }

  /** A split of expense `eid` whose ower has a user row (the inner join). */
  function NamedOwerOf(users: seq<User>, eid: ExpenseId): Split -> bool
  {
    (se: Split) => se.expense_id == eid && NameOf(users, se.owed_by).Some?
  }

  /** Names of the owers of expense `eid` whose user rows exist. */
  function OwerNames(t: Tables, eid: ExpenseId): seq<string>
  {
    Map(Filter(t.splits, NamedOwerOf(t.users, eid)), OwerNameIn(t.users))
  }

  function SplitExpenseIds(splits: seq<Split>): set<ExpenseId>
  {
    set se | se in splits :: se.expense_id
  }

  /** `ARRAY_AGG(DISTINCT u.name) .. GROUP BY se.expense_id`, keyed by expense id.
      Postgres orders each aggregated array by name; the model keeps first-use order. */
  function SharedWithMap(t: Tables): (r: map<ExpenseId, seq<string>>)
    ensures forall eid :: eid in r <==>
              exists se :: se in t.splits && se.expense_id == eid && NameOf(t.users, se.owed_by).Some?
    ensures forall eid :: eid in r ==> NoDup(r[eid]) && |r[eid]| > 0
  {
    var r := map eid | eid in SplitExpenseIds(t.splits) && |OwerNames(t, eid)| > 0 :: Dedup(OwerNames(t, eid));
    assert forall eid :: eid in r <==>
             exists se :: se in t.splits && se.expense_id == eid && NameOf(t.users, se.owed_by).Some? by {
      forall eid ensures eid in r <==>
               exists se :: se in t.splits && se.expense_id == eid && NameOf(t.users, se.owed_by).Some? {
        OwerNamesNonEmpty(t, eid);
      }
    }
    assert forall eid :: eid in r ==> |r[eid]| > 0 by {
      forall eid | eid in r ensures |r[eid]| > 0 {
        assert OwerNames(t, eid)[0] in r[eid];
      }
    }
    r
  }

  /** An expense has ower names exactly when one of its splits has an ower
      with a user row. */
  lemma OwerNamesNonEmpty(t: Tables, eid: ExpenseId)
    ensures |OwerNames(t, eid)| > 0 <==>
              exists se :: se in t.splits && se.expense_id == eid && NameOf(t.users, se.owed_by).Some?
    ensures |OwerNames(t, eid)| > 0 ==> eid in SplitExpenseIds(t.splits)
  {
    var mine := Filter(t.splits, NamedOwerOf(t.users, eid));
    if |mine| > 0 {
      assert mine[0] in mine;
    }
    if exists se :: se in t.splits && se.expense_id == eid && NameOf(t.users, se.owed_by).Some? {
      var se :| se in t.splits && se.expense_id == eid && NameOf(t.users, se.owed_by).Some?;
      assert se in mine;
    }
  }

  /** `sharedWithMap[id] || []`. */
  function SharedOf(sw: map<ExpenseId, seq<string>>, id: ExpenseId): seq<string>
  {
    if id in sw then sw[id] else []
  }

  // ------------------------------------------------------------ transaction rows

  datatype TxnKind = Shared | Personal

  /** A row of the transactions query. */
  datatype TxnRow = TxnRow(
    id: ExpenseId,
    amount: int,
    description: string,
    category: Option<string>,
    created_at: int,
    kind: TxnKind,
    paid_by: Option<UserId>,
    owed_by: Option<UserId>,
    settled: bool)

  function RowId(r: TxnRow): ExpenseId { r.id }
  function RowCreatedAt(r: TxnRow): int { r.created_at }

  function RowFor(e: Expense, se: Option<Split>, settled: bool): (r: TxnRow)
    ensures r.id == e.id && r.created_at == e.created_at && r.settled == settled
  {
    TxnRow(e.id, e.amount, e.description, e.category, e.created_at,
           if se.Some? then Shared else Personal,
           if se.Some? then Some(se.value.paid_by) else None,
           if se.Some? then Some(se.value.owed_by) else None,
           settled)
  }

  /** `LEFT JOIN settled_debts` on the 4-tuple: one settled row per matching
      settlement, or a single unsettled row when none matches. */
  function SplitRows(settled: seq<Settlement>, e: Expense, se: Split): (r: seq<TxnRow>)
    ensures |r| == SplitRowCount(settled)(se) && |r| > 0
    ensures forall row :: row in r ==> row == RowFor(e, Some(se), !Unsettled(se, settled))
    ensures forall row :: row in r ==> row.id == e.id && (row.settled <==> !Unsettled(se, settled))
  {
    var n := MatchCount(settled, se);
    if n == 0 then [RowFor(e, Some(se), false)]
    else seq(n, _ => RowFor(e, Some(se), true))
  }

  /** One row per matching settlement, or one unsettled row when none matches. */
  function SplitRowCount(settled: seq<Settlement>): Split -> int
  {
    (se: Split) => if MatchCount(settled, se) == 0 then 1 else MatchCount(settled, se)
  }

  function SplitRowsIn(settled: seq<Settlement>, e: Expense): Split -> seq<TxnRow>
  {
    (se: Split) => SplitRows(settled, e, se)
  }

  /** `WHERE e.user_id = u OR se.owed_by = u OR se.paid_by = u`. */
  predicate Involves(e: Expense, se: Split, u: UserId)
  {
    e.user_id == u || se.owed_by == u || se.paid_by == u
  }

  /** The split rows of `e` that the WHERE clause keeps for `u`. */
  function IncludedSplits(t: Tables, u: UserId, e: Expense): (r: seq<Split>)
    ensures forall se :: se in r <==>
              se in t.splits && se.expense_id == e.id && (e.user_id == u || se.owed_by == u || se.paid_by == u)
  {
    Filter(t.splits, (se: Split) => se.expense_id == e.id && Involves(e, se, u))
  }

  /** The rows one expense contributes to the transactions query. Without split
      rows the left join gives one personal row, kept when the user paid it. */
  function ExpenseRows(t: Tables, u: UserId, e: Expense): (r: seq<TxnRow>)
    ensures forall row :: row in r ==> row.id == e.id
    ensures |r| > 0 <==>
              (e.user_id == u && !SettlementsRoutes.HasSplits(t.splits, e.id))
              || exists se :: se in IncludedSplits(t, u, e)
    ensures !SettlementsRoutes.HasSplits(t.splits, e.id) ==> forall row :: row in r ==> row == RowFor(e, None, false)
    ensures SettlementsRoutes.HasSplits(t.splits, e.id) ==>
              forall row :: row in r ==>
                exists se :: se in IncludedSplits(t, u, e) && row == RowFor(e, Some(se), !Unsettled(se, t.settled))
    ensures SettlementsRoutes.HasSplits(t.splits, e.id) ==>
              forall se {:trigger JoinedRow(t.settled, e, se)} ::
                se in IncludedSplits(t, u, e) ==> JoinedRow(t.settled, e, se) in r
    ensures SettlementsRoutes.HasSplits(t.splits, e.id) ==>
              |r| == SumBy(IncludedSplits(t, u, e), SplitRowCount(t.settled))
  {
    if !SettlementsRoutes.HasSplits(t.splits, e.id) then
      assert forall se :: se !in IncludedSplits(t, u, e);
      if e.user_id == u then [RowFor(e, None, false)] else []
    else
      var r := FlatMap(IncludedSplits(t, u, e), SplitRowsIn(t.settled, e));
      SharedExpenseRows(t.settled, e, IncludedSplits(t, u, e), r);
      r
  }

  /** The row the left join gives for a split of `e`. */
  function JoinedRow(settled: seq<Settlement>, e: Expense, se: Split): TxnRow
  {
    RowFor(e, Some(se), !Unsettled(se, settled))
  }

  /** The rows of a shared expense: one group per included split, sized by
      its matches. */
  lemma SharedExpenseRows(settled: seq<Settlement>, e: Expense, inc: seq<Split>, r: seq<TxnRow>)
    requires r == FlatMap(inc, SplitRowsIn(settled, e))
    ensures |r| > 0 <==> exists se :: se in inc
    ensures forall row :: row in r ==>
              exists se :: se in inc && row == RowFor(e, Some(se), !Unsettled(se, settled))
    ensures forall se {:trigger JoinedRow(settled, e, se)} :: se in inc ==> JoinedRow(settled, e, se) in r
    ensures |r| == SumBy(inc, SplitRowCount(settled))
  {
    forall se | se in inc ensures JoinedRow(settled, e, se) in r {
      var rows := SplitRowsIn(settled, e)(se);
      assert rows[0] in rows;
    }
    if |r| > 0 {
      assert r[0] in r;
    }
    FlatMapLength(inc, SplitRowsIn(settled, e));
    SumByAgree(inc, LengthOf(SplitRowsIn(settled, e)), SplitRowCount(settled));
  }

  function ExpenseRowsIn(t: Tables, u: UserId): Expense -> seq<TxnRow>
  {
    (e: Expense) => ExpenseRows(t, u, e)
  }

  /** The transactions query: the user's rows, `ORDER BY e.created_at DESC`. */
  function TransactionRows(t: Tables, u: UserId): (r: seq<TxnRow>)
    ensures SortedDesc(r, RowCreatedAt)
    ensures forall row :: row in r <==> exists e :: e in t.expenses && row in ExpenseRows(t, u, e)
    ensures multiset(r) == multiset(FlatMap(t.expenses, ExpenseRowsIn(t, u)))
  {
    var all := FlatMap(t.expenses, ExpenseRowsIn(t, u));
    var r := SortDesc(all, RowCreatedAt);
    SameElements(r, all);
    r
  }

  // ------------------------------------------------------------ merging rows

  /** An entry of the `transactions` list in the response. */
  datatype Transaction = Transaction(
    id: ExpenseId,
    amount: int,
    description: string,
    category: Option<string>,
    created_at: int,
    kind: TxnKind,
    paid_by: Option<UserId>,
    owed_by: Option<UserId>,
    shared_with: seq<string>,
    settled_flags: seq<bool>,
    settled: bool)

  /** The expense id of each row, in row order. */
  function RowIds(rows: seq<TxnRow>): (r: seq<ExpenseId>)
    ensures |r| == |rows|
    ensures forall i :: 0 <= i < |rows| ==> r[i] == rows[i].id
  {
    Map(rows, RowId)
  }

  /** The distinct expense ids of the rows in order of first appearance. */
  function MergedIds(rows: seq<TxnRow>): seq<ExpenseId>
  {
    Dedup(RowIds(rows))
  }

  /** The first row of expense `id`, which the loop spreads into its entry. */
  function FirstRowOf(rows: seq<TxnRow>, id: ExpenseId): (r: TxnRow)
    requires id in RowIds(rows)
    ensures r in rows && r.id == id
    ensures exists j :: 0 <= j < |rows| && rows[j] == r && forall h :: 0 <= h < j ==> rows[h].id != id
  {
    var j := FirstIndex(RowIds(rows), id);
    assert forall h :: 0 <= h < j ==> RowIds(rows)[h] in RowIds(rows)[..j];
    rows[j]
  }

  function RowSettled(r: TxnRow): bool { r.settled }

  function HasId(id: ExpenseId): TxnRow -> bool { (r: TxnRow) => r.id == id }

  /** The `settled` values of the rows of `id`, in row order. */
  function FlagsOf(rows: seq<TxnRow>, id: ExpenseId): seq<bool>
  {
    Map(Filter(rows, HasId(id)), RowSettled)
  }

  predicate AllTrue(flags: seq<bool>)
  {
    forall i :: 0 <= i < |flags| ==> flags[i]
  }

  predicate AllRowsSettled(rows: seq<TxnRow>, id: ExpenseId)
  {
    forall r :: r in rows && r.id == id ==> r.settled
  }

  /** One expense's accumulator in `expenseMap`: its first row, the names
      collected so far and the `settled` value of each of its rows. */
  datatype Acc = Acc(first: TxnRow, shared: seq<string>, flags: seq<bool>)

  /** The accumulator the loop holds for `id` once it has seen `rows`. */
  function AccOf(rows: seq<TxnRow>, sw: map<ExpenseId, seq<string>>, id: ExpenseId): Acc
    requires id in RowIds(rows)
  {
    Acc(FirstRowOf(rows, id), Dedup(SharedOf(sw, id)), FlagsOf(rows, id))
  }

  /** The response entry built from an accumulator: `settled` is
      `settled_flags.every(Boolean)`. */
  function EntryOf(a: Acc): Transaction
  {
    Transaction(a.first.id, a.first.amount, a.first.description, a.first.category, a.first.created_at,
                a.first.kind, a.first.paid_by, a.first.owed_by, a.shared, a.flags, AllTrue(a.flags))
  }

  /** The merged list: one entry per distinct expense id, in order of first
      appearance, carrying its first row's fields, the distinct owers' names and
      whether every row of the expense was settled. */
  function Merged(rows: seq<TxnRow>, sw: map<ExpenseId, seq<string>>): (r: seq<Transaction>)
    ensures |r| == |MergedIds(rows)|
    ensures forall i :: 0 <= i < |r| ==> r[i] == EntryOf(AccOf(rows, sw, MergedIds(rows)[i]))
  {
    var ids := MergedIds(rows);
    seq(|ids|, i requires 0 <= i < |ids| => EntryOf(AccOf(rows, sw, ids[i])))
  }

  /** Adds `names` one by one to the insertion-ordered set `s`. */
  method AddNames(s: seq<string>, names: seq<string>) returns (r: seq<string>)
    ensures r == AddAll(s, names)
  {
    r := s;
    var k := 0;
    while k < |names|
      invariant 0 <= k <= |names|
      invariant r == AddAll(s, names[..k])
    {
      AddAllStep(s, names[..k], names[k]);
      assert names[..k + 1] == names[..k] + [names[k]];
      r := SetAdd(r, names[k]);
      k := k + 1;
    }
    assert names[..k] == names;
  }

  /** Every accumulator in `m` is the one the rows seen so far determine. */
  ghost predicate AccsMatch(m: map<ExpenseId, Acc>, seen: seq<TxnRow>, sw: map<ExpenseId, seq<string>>)
  {
    forall id :: id in m ==> id in RowIds(seen) && m[id] == AccOf(seen, sw, id)
  }

  /** What the loop holds after the first `k` rows: `order` lists the ids
      seen, in order of first appearance, and `m` maps each of them to its
      accumulator. */
  ghost predicate MergeInv(rows: seq<TxnRow>, sw: map<ExpenseId, seq<string>>, k: nat, m: map<ExpenseId, Acc>, order: seq<ExpenseId>)
    requires k <= |rows|
  {
    && order == MergedIds(rows[..k])
    && (forall id :: id in m <==> id in order)
    && AccsMatch(m, rows[..k], sw)
  }

  /** The de-duplicating loop over the query rows and the final `map` that
      turns each accumulator into a response entry. */
  method MergeTransactions(rows: seq<TxnRow>, sw: map<ExpenseId, seq<string>>) returns (txns: seq<Transaction>)
    ensures txns == Merged(rows, sw)
  {
    var expenseMap: map<ExpenseId, Acc> := map[];
    var order: seq<ExpenseId> := [];
    var k := 0;
    while k < |rows|
      invariant 0 <= k <= |rows|
      invariant MergeInv(rows, sw, k, expenseMap, order)
    {
      var txn := rows[k];
      var id := txn.id;
      if id !in expenseMap {
        var names := AddNames([], SharedOf(sw, id));
        NewIdStep(rows, sw, k, expenseMap, order, names);
        expenseMap := expenseMap[id := Acc(txn, names, [txn.settled])];
        order := order + [id];
      } else {
        var existing := expenseMap[id];
        var names := AddNames(existing.shared, SharedOf(sw, id));
        SeenIdStep(rows, sw, k, expenseMap, order, names);
        expenseMap := expenseMap[id := existing.(shared := names, flags := existing.flags + [txn.settled])];
      }
      k := k + 1;
    }
    assert rows[..k] == rows;
    FinalEntries(rows, sw, expenseMap, order);
    txns := Entries(order, expenseMap);
  }

  /** `Object.values(expenseMap).map(..)`: the entry of each accumulator, in
      the order the ids were first inserted. */
  function Entries(order: seq<ExpenseId>, m: map<ExpenseId, Acc>): (r: seq<Transaction>)
    requires forall i :: 0 <= i < |order| ==> order[i] in m
    ensures |r| == |order|
    ensures forall i :: 0 <= i < |order| ==> r[i] == EntryOf(m[order[i]])
  {
    seq(|order|, i requires 0 <= i < |order| => EntryOf(m[order[i]]))
  }

  /** The loop step for a row whose id has not been seen. */
  lemma NewIdStep(rows: seq<TxnRow>, sw: map<ExpenseId, seq<string>>, k: nat, m: map<ExpenseId, Acc>,
                  order: seq<ExpenseId>, names: seq<string>)
    requires k < |rows| && MergeInv(rows, sw, k, m, order)
    requires rows[k].id !in m && names == AddAll([], SharedOf(sw, rows[k].id))
    ensures MergeInv(rows, sw, k + 1, m[rows[k].id := Acc(rows[k], names, [rows[k].settled])], order + [rows[k].id])
  {
    RowIdsStep(rows, k);
    NewAccStep(m, rows, k, sw);
  }

  /** The loop step for a row whose id has been seen: the names are already
      all present, and the row's flag is appended. */
  lemma SeenIdStep(rows: seq<TxnRow>, sw: map<ExpenseId, seq<string>>, k: nat, m: map<ExpenseId, Acc>,
                   order: seq<ExpenseId>, names: seq<string>)
    requires k < |rows| && MergeInv(rows, sw, k, m, order)
    requires rows[k].id in m && names == AddAll(m[rows[k].id].shared, SharedOf(sw, rows[k].id))
    ensures MergeInv(rows, sw, k + 1,
                     m[rows[k].id := m[rows[k].id].(shared := names, flags := m[rows[k].id].flags + [rows[k].settled])],
                     order)
  {
    RowIdsStep(rows, k);
    AddAllPresent(m[rows[k].id].shared, SharedOf(sw, rows[k].id));
    SeenAccStep(m, rows, k, sw);
  }

  /** After the loop, the accumulators listed in `order` give the merged entries. */
  lemma FinalEntries(rows: seq<TxnRow>, sw: map<ExpenseId, seq<string>>, m: map<ExpenseId, Acc>, order: seq<ExpenseId>)
    requires order == MergedIds(rows)
    requires forall id :: id in m <==> id in order
    requires AccsMatch(m, rows, sw)
    ensures forall i :: 0 <= i < |order| ==> order[i] in m
    ensures Entries(order, m) == Merged(rows, sw)
  {
    forall i | 0 <= i < |order| ensures order[i] in m {
      assert order[i] in order;
    }
    var es := Entries(order, m);
    forall i | 0 <= i < |order| ensures es[i] == Merged(rows, sw)[i] {
      assert order[i] in order;
    }
  }

  lemma RowIdsStep(rows: seq<TxnRow>, k: nat)
    requires k < |rows|
    ensures RowIds(rows[..k + 1]) == RowIds(rows[..k]) + [rows[k].id]
    ensures MergedIds(rows[..k + 1]) == SetAdd(MergedIds(rows[..k]), rows[k].id)
  {
    assert RowIds(rows[..k + 1]) == RowIds(rows[..k]) + [rows[k].id];
    AddAllStep([], RowIds(rows[..k]), rows[k].id);
  }

  /** Taking row `k` does not change the first row of an id already seen. */
  lemma FirstRowKept(rows: seq<TxnRow>, k: nat, id: ExpenseId)
    requires k < |rows| && id in RowIds(rows[..k])
    ensures id in RowIds(rows[..k + 1])
    ensures FirstRowOf(rows[..k + 1], id) == FirstRowOf(rows[..k], id)
  {
    RowIdsStep(rows, k);
    var after := RowIds(rows[..k + 1]);
    assert after[..k] == RowIds(rows[..k]);
    FirstIndexPrefix(after, k, id);
  }

  /** Taking row `k` appends its flag to the flags of its id only. */
  lemma FlagsStep(rows: seq<TxnRow>, k: nat, id: ExpenseId)
    requires k < |rows|
    ensures FlagsOf(rows[..k + 1], id) == FlagsOf(rows[..k], id) + (if rows[k].id == id then [rows[k].settled] else [])
  {
    assert rows[..k + 1] == rows[..k] + [rows[k]];
    FilterConcat(rows[..k], [rows[k]], HasId(id));
    var before := Filter(rows[..k], HasId(id));
    if rows[k].id == id {
      assert Filter([rows[k]], HasId(id)) == [rows[k]];
      assert Map(before + [rows[k]], RowSettled) == Map(before, RowSettled) + [rows[k].settled];
    } else {
      assert Filter([rows[k]], HasId(id)) == [];
      assert before + [] == before;
    }
  }

  /** An id not seen before has no flags yet. */
  lemma NoFlagsUnseen(rows: seq<TxnRow>, id: ExpenseId)
    requires id !in RowIds(rows)
    ensures FlagsOf(rows, id) == []
  {
    forall r | r in rows ensures !HasId(id)(r) {
      var j :| 0 <= j < |rows| && rows[j] == r;
      assert RowIds(rows)[j] == r.id;
    }
    FilterNone(rows, HasId(id));
  }

  /** The accumulator of the id row `k` introduces. */
  lemma NewAccValue(rows: seq<TxnRow>, k: nat, sw: map<ExpenseId, seq<string>>)
    requires k < |rows| && rows[k].id !in RowIds(rows[..k])
    ensures rows[k].id in RowIds(rows[..k + 1])
    ensures AccOf(rows[..k + 1], sw, rows[k].id) == Acc(rows[k], Dedup(SharedOf(sw, rows[k].id)), [rows[k].settled])
  {
    var id := rows[k].id;
    RowIdsStep(rows, k);
    var after := RowIds(rows[..k + 1]);
    assert after[k] == id && after[..k] == RowIds(rows[..k]);
    FirstIndexUnique(after, id, k);
    FlagsStep(rows, k, id);
    NoFlagsUnseen(rows[..k], id);
  }

  /** Row `k` leaves the accumulator of every other seen id as it was. */
  lemma OtherAccKept(rows: seq<TxnRow>, k: nat, sw: map<ExpenseId, seq<string>>, id: ExpenseId)
    requires k < |rows| && id in RowIds(rows[..k]) && id != rows[k].id
    ensures id in RowIds(rows[..k + 1])
    ensures AccOf(rows[..k + 1], sw, id) == AccOf(rows[..k], sw, id)
  {
    FirstRowKept(rows, k, id);
    FlagsStep(rows, k, id);
  }

  /** Row `k` appends its flag to the accumulator of its own, already seen id. */
  lemma SeenAccValue(rows: seq<TxnRow>, k: nat, sw: map<ExpenseId, seq<string>>)
    requires k < |rows| && rows[k].id in RowIds(rows[..k])
    ensures rows[k].id in RowIds(rows[..k + 1])
    ensures AccOf(rows[..k + 1], sw, rows[k].id) ==
            AccOf(rows[..k], sw, rows[k].id).(flags := AccOf(rows[..k], sw, rows[k].id).flags + [rows[k].settled])
  {
    FirstRowKept(rows, k, rows[k].id);
    FlagsStep(rows, k, rows[k].id);
  }

  /** The loop step for a row whose id the map does not hold yet. */
  lemma NewAccStep(m: map<ExpenseId, Acc>, rows: seq<TxnRow>, k: nat, sw: map<ExpenseId, seq<string>>)
    requires k < |rows| && AccsMatch(m, rows[..k], sw)
    requires rows[k].id !in RowIds(rows[..k])
    ensures AccsMatch(m[rows[k].id := Acc(rows[k], Dedup(SharedOf(sw, rows[k].id)), [rows[k].settled])], rows[..k + 1], sw)
  {
    var id := rows[k].id;
    var m' := m[id := Acc(rows[k], Dedup(SharedOf(sw, id)), [rows[k].settled])];
    forall other | other in m' ensures other in RowIds(rows[..k + 1]) && m'[other] == AccOf(rows[..k + 1], sw, other) {
      if other == id {
        NewAccValue(rows, k, sw);
      } else {
        OtherAccKept(rows, k, sw, other);
      }
    }
  }

  /** The loop step for a row whose id the map already holds. */
  lemma SeenAccStep(m: map<ExpenseId, Acc>, rows: seq<TxnRow>, k: nat, sw: map<ExpenseId, seq<string>>)
    requires k < |rows| && AccsMatch(m, rows[..k], sw)
    requires rows[k].id in m
    ensures AccsMatch(m[rows[k].id := m[rows[k].id].(flags := m[rows[k].id].flags + [rows[k].settled])], rows[..k + 1], sw)
  {
    SeenAccValue(rows, k, sw);
    forall other | other in m && other != rows[k].id
      ensures other in RowIds(rows[..k + 1]) && m[other] == AccOf(rows[..k + 1], sw, other)
    {
      OtherAccKept(rows, k, sw, other);
    }
  }

  // ------------------------------------------------------------ properties of the merge

  /** Exactly one entry per distinct expense id of the rows. */
  lemma MergedOnePerExpense(rows: seq<TxnRow>, sw: map<ExpenseId, seq<string>>)
    ensures forall i, j :: 0 <= i < j < |Merged(rows, sw)| ==> Merged(rows, sw)[i].id != Merged(rows, sw)[j].id
    ensures forall r :: r in rows ==> exists i :: 0 <= i < |Merged(rows, sw)| && Merged(rows, sw)[i].id == r.id
    ensures forall i :: 0 <= i < |Merged(rows, sw)| ==> exists r :: r in rows && r.id == Merged(rows, sw)[i].id
  {
    var ids := MergedIds(rows);
    var m := Merged(rows, sw);
    MapMembers(rows, RowId);
    assert forall i :: 0 <= i < |m| ==> m[i].id == ids[i];
    forall r | r in rows ensures exists i :: 0 <= i < |m| && m[i].id == r.id {
      assert r.id in ids;
      var i :| 0 <= i < |ids| && ids[i] == r.id;
      assert m[i].id == r.id;
    }
  }

  /** Rows sorted newest first give entries sorted newest first. */
  lemma MergedNewestFirst(rows: seq<TxnRow>, sw: map<ExpenseId, seq<string>>)
    requires SortedDesc(rows, RowCreatedAt)
    ensures forall i, j :: 0 <= i < j < |Merged(rows, sw)| ==>
              Merged(rows, sw)[i].created_at >= Merged(rows, sw)[j].created_at
  {
    var ids := MergedIds(rows);
    var m := Merged(rows, sw);
    forall i, j | 0 <= i < j < |m| ensures m[i].created_at >= m[j].created_at {
      DedupFirstOccurrenceOrder(Map(rows, RowId), i, j);
    }
  }

  /** An entry is settled exactly when every row of its expense was settled. */
  lemma MergedSettledIff(rows: seq<TxnRow>, sw: map<ExpenseId, seq<string>>, i: nat)
    requires i < |Merged(rows, sw)|
    ensures Merged(rows, sw)[i].settled <==> AllRowsSettled(rows, Merged(rows, sw)[i].id)
  {
    var id := MergedIds(rows)[i];
    var flags := FlagsOf(rows, id);
    var mine := Filter(rows, (r: TxnRow) => r.id == id);
    if AllTrue(flags) {
      forall r | r in rows && r.id == id ensures r.settled {
        assert r in mine;
        var k :| 0 <= k < |mine| && mine[k] == r;
        assert flags[k] == r.settled;
      }
    }
    if AllRowsSettled(rows, id) {
      forall k | 0 <= k < |flags| ensures flags[k] {
        assert mine[k] in mine;
      }
    }
  }

  /** `shared_with` lists the expense's owers' names once each. */
  lemma MergedSharedWith(rows: seq<TxnRow>, sw: map<ExpenseId, seq<string>>, i: nat)
    requires i < |Merged(rows, sw)|
    ensures NoDup(Merged(rows, sw)[i].shared_with)
    ensures forall n :: n in Merged(rows, sw)[i].shared_with <==> n in SharedOf(sw, Merged(rows, sw)[i].id)
  {
  }

  /** The shared-with list of an expense holds exactly the names of its owers. */
  lemma SharedWithNames(t: Tables, eid: ExpenseId)
    ensures forall n :: n in SharedOf(SharedWithMap(t), eid) <==>
              exists se :: se in t.splits && se.expense_id == eid && NameOf(t.users, se.owed_by) == Some(n)
  {
    SharedOfIsDedup(t, eid);
    OwerNamesMembers(t, eid);
  }

  /** The entry of expense `eid` is its distinct ower names, and no entry is
      the empty list. */
  lemma SharedOfIsDedup(t: Tables, eid: ExpenseId)
    ensures SharedOf(SharedWithMap(t), eid) == Dedup(OwerNames(t, eid))
  {
    var mine := Filter(t.splits, NamedOwerOf(t.users, eid));
    if |mine| > 0 {
      assert mine[0] in mine;
      assert eid in SplitExpenseIds(t.splits);
    } else {
      assert Dedup(OwerNames(t, eid)) == [];
    }
  }

  lemma OwerNamesMembers(t: Tables, eid: ExpenseId)
    ensures forall n :: n in OwerNames(t, eid) <==>
              exists se :: se in t.splits && se.expense_id == eid && NameOf(t.users, se.owed_by) == Some(n)
  {
    MapMembers(Filter(t.splits, NamedOwerOf(t.users, eid)), OwerNameIn(t.users));
  }

  // ------------------------------------------------------------ the settled flag of an entry

  predicate UniqueExpenseIds(expenses: seq<Expense>)
  {
    forall a, b :: a in expenses && b in expenses && a.id == b.id ==> a == b
  }

  /** The rows of expense `e` in the transactions query are exactly its own rows. */
  lemma RowsOfExpense(t: Tables, u: UserId, e: Expense)
    requires e in t.expenses && UniqueExpenseIds(t.expenses)
    ensures forall r :: r in TransactionRows(t, u) && r.id == e.id <==> r in ExpenseRows(t, u, e)
  {
    forall r | r in TransactionRows(t, u) && r.id == e.id ensures r in ExpenseRows(t, u, e) {
      var e' :| e' in t.expenses && r in ExpenseRows(t, u, e');
    }
  }

  /** Every row of `e` is settled exactly when `e` has split rows and each of
      its splits that involves the user has a matching settlement. An expense
      without split rows is never settled. */
  lemma ExpenseRowsSettled(t: Tables, u: UserId, e: Expense)
    requires |ExpenseRows(t, u, e)| > 0
    ensures (forall r :: r in ExpenseRows(t, u, e) ==> r.settled) <==>
              SettlementsRoutes.HasSplits(t.splits, e.id)
              && forall se :: se in IncludedSplits(t, u, e) ==> !Unsettled(se, t.settled)
  {
    var rs := ExpenseRows(t, u, e);
    if SettlementsRoutes.HasSplits(t.splits, e.id) {
      var inc := IncludedSplits(t, u, e);
      if forall r :: r in rs ==> r.settled {
        forall se | se in inc ensures !Unsettled(se, t.settled) {
          var sr := SplitRows(t.settled, e, se);
          assert sr[0] in sr && sr[0] in rs;
        }
      }
    } else {
      assert rs[0] in rs;
    }
  }

  /** The expense has split rows and each of them that the query includes
      for the user has a settlement matching its 4-tuple. */
  predicate SplitsAllMatched(t: Tables, u: UserId, e: Expense)
  {
    && SettlementsRoutes.HasSplits(t.splits, e.id)
    && forall se :: se in IncludedSplits(t, u, e) ==> !Unsettled(se, t.settled)
  }

  /** The rows of `e` in the transactions query are all settled exactly when
      its splits are all matched. */
  lemma AllRowsOfExpenseSettled(t: Tables, u: UserId, e: Expense)
    requires e in t.expenses && UniqueExpenseIds(t.expenses)
    requires e.id in RowIds(TransactionRows(t, u))
    ensures AllRowsSettled(TransactionRows(t, u), e.id) <==> SplitsAllMatched(t, u, e)
  {
    var rows := TransactionRows(t, u);
    RowsOfExpense(t, u, e);
    var j :| 0 <= j < |rows| && RowIds(rows)[j] == e.id;
    assert rows[j] in ExpenseRows(t, u, e);
    ExpenseRowsSettled(t, u, e);
  }

  /** An entry of the spending response is settled exactly when its expense has
      split rows and each split row the query includes for the user has a
      settlement matching its 4-tuple. */
  lemma SpendingEntrySettled(t: Tables, u: UserId, e: Expense, i: nat)
    requires e in t.expenses && UniqueExpenseIds(t.expenses)
    requires i < |Merged(TransactionRows(t, u), SharedWithMap(t))|
    requires Merged(TransactionRows(t, u), SharedWithMap(t))[i].id == e.id
    ensures Merged(TransactionRows(t, u), SharedWithMap(t))[i].settled <==> SplitsAllMatched(t, u, e)
  {
    var rows := TransactionRows(t, u);
    MergedSettledIff(rows, SharedWithMap(t), i);
    assert MergedIds(rows)[i] == e.id;
    assert e.id in MergedIds(rows);
    AllRowsOfExpenseSettled(t, u, e);
  }

  // ------------------------------------------------------------ the handler

  datatype SpendingReport = SpendingReport(
    total_paid: int,
    total_shared_paid: int,
    total_reimbursed: int,
    total_owed: int,
    net_spent: int,
    top_category: Option<string>,
    transactions: seq<Transaction>)

  datatype SpendingResponse =
    | Spending(report: SpendingReport)     // 200
    | InvalidUserId(error: string)         // 400
    | SpendingFailed(error: string)        // 500

  const InvalidUserIdError := "Invalid user ID"
  const SpendingFailedError := "Failed to calculate user spending"

  /** GET /api/users/:userId/spending over a snapshot of the tables; `dbFails`
      stands for a failing connection or query, which the handler turns into
      a 500. */
  method GetSpending(t: Tables, userIdParam: string, dbFails: bool) returns (resp: SpendingResponse)
    ensures JsParseInt.ParseInt(userIdParam).None? <==> resp == InvalidUserId(InvalidUserIdError)
    ensures resp == SpendingFailed(SpendingFailedError) <==> JsParseInt.ParseInt(userIdParam).Some? && dbFails
    ensures resp.Spending? <==> JsParseInt.ParseInt(userIdParam).Some? && !dbFails
    ensures resp.Spending? ==>
      var u := JsParseInt.ParseInt(userIdParam).value;
      && resp.report.total_paid == TotalPaid(t, u)
      && resp.report.total_shared_paid == TotalSharedPaid(t, u)
      && resp.report.total_reimbursed == TotalReimbursed(t, u)
      && resp.report.total_owed == TotalOwed(t, u)
      && resp.report.net_spent == resp.report.total_paid - resp.report.total_reimbursed
      && resp.report.top_category == TopCategory(t, u)
      && resp.report.transactions == Merged(TransactionRows(t, u), SharedWithMap(t))
  {
    var parsed := JsParseInt.ParseInt(userIdParam);
    if parsed.None? {
      return InvalidUserId(InvalidUserIdError);
    }
    if dbFails {
      return SpendingFailed(SpendingFailedError);
    }
    var u := parsed.value;
    var totalPaid := TotalPaid(t, u);
    var totalReimbursed := TotalReimbursed(t, u);
    var transactions := MergeTransactions(TransactionRows(t, u), SharedWithMap(t));
    resp := Spending(SpendingReport(
      totalPaid,
      TotalSharedPaid(t, u),
      totalReimbursed,
      TotalOwed(t, u),
      totalPaid - totalReimbursed,
      TopCategory(t, u),
      transactions));
  }
}
