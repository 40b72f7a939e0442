/** The ledger tables the backend routes query: `users`, `expenses`,
    `shared_expenses` (one split row per ower of a shared expense) and
    `settled_debts` (append-only settlement records). Each table is a sequence of
    rows. Amounts are exact integers in the smallest currency unit (Postgres
    `numeric` is exact); timestamps are integers. */
module Ledger {
  import opened Common

  type UserId = int
  type ExpenseId = int

  datatype User = User(id: UserId, name: string)

  /** A row of `expenses` joined with its category's name (`None` when the
      expense has no category or the category row is missing). */
  datatype Expense = Expense(
    id: ExpenseId,
    user_id: UserId,
    category: Option<string>,
    description: string,
    amount: int,
    created_at: int)

  /** A row of `shared_expenses`: `owed_by` owes `paid_by` `amount` for `expense_id`. */
  datatype Split = Split(
    id: int,
    expense_id: ExpenseId,
    paid_by: UserId,
    owed_by: UserId,
    amount: int)

  /** A row of `settled_debts`. `expense_id` is nullable in the table. */
  datatype Settlement = Settlement(
    id: int,
    expense_id: Option<ExpenseId>,
    owed_by: UserId,
    paid_to: UserId,
    amount: int,
    settled_at: int)

  datatype Tables = Tables(
    users: seq<User>,
    expenses: seq<Expense>,
    splits: seq<Split>,
    settled: seq<Settlement>)

  /** The join condition used by every query that pairs a split with a
      settlement: equal expense, same ower, payee = the split's payer, equal
      amount. A settlement with a NULL expense_id matches no split. */
  predicate Settles(sd: Settlement, se: Split)
  {
    && sd.expense_id == Some(se.expense_id)
    && sd.owed_by == se.owed_by
    && sd.paid_to == se.paid_by
    && sd.amount == se.amount
  }

  function MatchesSplit(se: Split): Settlement -> bool
  {
    (sd: Settlement) => Settles(sd, se)
  }

  /** The number of settlement rows the 4-tuple join pairs with the split. */
  function MatchCount(settled: seq<Settlement>, se: Split): (n: nat)
    ensures n == 0 <==> Unsettled(se, settled)
  {
    var m := Filter(settled, MatchesSplit(se));
    assert |m| > 0 ==> m[0] in m;
    |m|
  }

  /** No settlement row matches the split (`LEFT JOIN .. WHERE sd.id IS NULL`). */
  predicate Unsettled(se: Split, settled: seq<Settlement>)
  {
    forall sd :: sd in settled ==> !Settles(sd, se)
  }

  /** The name joined in by `JOIN users u ON .. = u.id`; `users.id` is the
      table's primary key, so there is at most one match. */
  function NameOf(users: seq<User>, id: UserId): (r: Option<string>)
    ensures r.Some? <==> exists u :: u in users && u.id == id
    ensures r.Some? ==> User(id, r.value) in users
  {
    if |users| == 0 then None
    else if users[0].id == id then Some(users[0].name)
    else
      assert forall u :: u in users[1..] ==> u in users;
      NameOf(users[1..], id)
  }
}
