/** The settlement routes (`/api/settlements`): recording a settlement (POST /),
    listing settlements (GET /), settle-up suggestions (GET /suggestions) and the
    ids of fully settled expenses (GET /fully-settled). The POST appends one row
    to `settled_debts`; the three GETs are read-only queries over the tables. */
module SettlementsRoutes {
  import opened Common
  import opened Sorting
  import opened Ledger

  // ------------------------------------------------------------ POST /

  /** The JSON body of the POST. `None` is a field that is absent (or null). */
  datatype PostBody = PostBody(
    owed_by: Option<int>,
    paid_to: Option<int>,
    amount: Option<int>,
    expense_id: Option<int>)

  /** JavaScript truthiness of a numeric body field: absent and 0 are falsy. */
  predicate Truthy(f: Option<int>)
  {
    f.Some? && f.value != 0
  }

  /** The guard of the handler: all four fields present and non-zero. */
  predicate IsComplete(b: PostBody)
  {
    Truthy(b.owed_by) && Truthy(b.paid_to) && Truthy(b.amount) && Truthy(b.expense_id)
  }

  datatype PostResponse =
    | Created(row: Settlement)        // 201 with the inserted row
    | BadRequest(error: string)       // 400
    | ServerError(error: string)      // 500

  const MissingFieldsError := "owed_by, paid_to, amount, and expense_id are required."
  const InsertFailedError := "Internal server error"

  /** The row `INSERT .. RETURNING *` produces for a complete body. */
  function InsertedRow(id: int, b: PostBody, now: int): (row: Settlement)
    requires IsComplete(b)
    ensures row.expense_id == b.expense_id && row.expense_id.Some?
    ensures row.owed_by == b.owed_by.value && row.paid_to == b.paid_to.value
    ensures row.amount == b.amount.value && row.amount != 0
  {
    Settlement(id, b.expense_id, b.owed_by.value, b.paid_to.value, b.amount.value, now)
  }

  /** How the INSERT ends. A failure after `nextval` has drawn the row's id
      (a constraint violation, say) still uses up that id, since a sequence
      value is never handed back; a failure before it (a lost connection)
      does not. */
  datatype InsertAttempt = Stored | FailsBeforeId | FailsAfterId

  /** The `settled_debts` table: append-only rows with ids from a serial sequence. */
  class SettledDebtsTable {
    var rows: seq<Settlement>
    var nextId: int

    ghost predicate Valid()
      reads this
    {
      && nextId >= 1
      && (forall i :: 0 <= i < |rows| ==> 1 <= rows[i].id < nextId)
      && (forall i, j :: 0 <= i < j < |rows| ==> rows[i].id < rows[j].id)
    }

    constructor ()
      ensures Valid() && rows == [] && nextId == 1
    {
      rows := [];
      nextId := 1;
    }

    /** POST /api/settlements. `now` is the database clock that fills
        `settled_at`; `attempt` says how the INSERT ends. */
    method Post(body: PostBody, now: int, attempt: InsertAttempt) returns (resp: PostResponse)
      requires Valid()
      modifies this
      ensures Valid()
      ensures !IsComplete(body) ==>
        resp == BadRequest(MissingFieldsError) && rows == old(rows) && nextId == old(nextId)
      ensures IsComplete(body) && attempt == FailsBeforeId ==>
        resp == ServerError(InsertFailedError) && rows == old(rows) && nextId == old(nextId)
      ensures IsComplete(body) && attempt == FailsAfterId ==>
        resp == ServerError(InsertFailedError) && rows == old(rows) && nextId == old(nextId) + 1
      ensures IsComplete(body) && attempt == Stored ==>
        && resp == Created(InsertedRow(old(nextId), body, now))
        && rows == old(rows) + [resp.row]
        && nextId == old(nextId) + 1
    {
      if !IsComplete(body) {
        return BadRequest(MissingFieldsError);
      }
      if attempt == FailsBeforeId {
        return ServerError(InsertFailedError);
      }
      var id := nextId;
      nextId := nextId + 1;
      if attempt == FailsAfterId {
        return ServerError(InsertFailedError);
      }
      var row := InsertedRow(id, body, now);
      rows := rows + [row];
      resp := Created(row);
    }
  }

  /** Zero is rejected like a missing amount; a negative amount passes the guard. */
  lemma AmountGuard(b: PostBody, a: int)
    requires Truthy(b.owed_by) && Truthy(b.paid_to) && Truthy(b.expense_id)
    ensures !IsComplete(b.(amount := Some(0)))
    ensures !IsComplete(b.(amount := None))
    ensures a < 0 ==> IsComplete(b.(amount := Some(a)))
  {
  }

  // ------------------------------------------------------------ GET /

  datatype SettlementView = SettlementView(
    expense_id: Option<ExpenseId>,
    owed_by: UserId,
    paid_to: UserId,
    amount: int,
    settled_at: int,
    owed_by_name: string,
    paid_to_name: string)

  /** Both inner joins with `users` find a row. */
  predicate PartiesExist(users: seq<User>, sd: Settlement)
  {
    NameOf(users, sd.owed_by).Some? && NameOf(users, sd.paid_to).Some?
  }

  function ViewOf(users: seq<User>, sd: Settlement): SettlementView
  {
    SettlementView(sd.expense_id, sd.owed_by, sd.paid_to, sd.amount, sd.settled_at,
                   NameOf(users, sd.owed_by).GetOr(""), NameOf(users, sd.paid_to).GetOr(""))
  }

  function SettledAt(v: SettlementView): int { v.settled_at }

  function PartiesExistIn(users: seq<User>): Settlement -> bool
  {
    (sd: Settlement) => PartiesExist(users, sd)
  }

  function ViewIn(users: seq<User>): Settlement -> SettlementView
  {
    (sd: Settlement) => ViewOf(users, sd)
  }

  /** GET /api/settlements: every settlement whose two users exist, newest first. */
  function ListSettlements(t: Tables): (r: seq<SettlementView>)
    ensures SortedDesc(r, SettledAt)
    ensures forall v :: v in r <==>
              exists sd :: sd in t.settled && PartiesExist(t.users, sd) && v == ViewOf(t.users, sd)
    ensures |r| == |Filter(t.settled, PartiesExistIn(t.users))|
    ensures multiset(r) == multiset(Map(Filter(t.settled, PartiesExistIn(t.users)), ViewIn(t.users)))
  {
    var kept := Filter(t.settled, PartiesExistIn(t.users));
    var joined := Map(kept, ViewIn(t.users));
    var r := SortDesc(joined, SettledAt);
    JoinedViews(t, kept, joined);
    SameElements(r, joined);
    r
  }

  /** The joined rows are the views of the settlements whose users exist. */
  lemma JoinedViews(t: Tables, kept: seq<Settlement>, joined: seq<SettlementView>)
    requires kept == Filter(t.settled, PartiesExistIn(t.users)) && joined == Map(kept, ViewIn(t.users))
    ensures forall v :: v in joined <==>
              exists sd :: sd in t.settled && PartiesExist(t.users, sd) && v == ViewOf(t.users, sd)
  {
    MapMembers(kept, ViewIn(t.users));
  }

  // ------------------------------------------------------------ GET /suggestions

  /** A row of the suggestions query: the split's four values and both names. */
  datatype Suggestion = Suggestion(
    expense_id: ExpenseId,
    owed_by: UserId,
    paid_to: UserId,
    amount: int,
    owed_by_name: string,
    paid_to_name: string)

  /** Both inner joins with `users` find a row for the split. */
  predicate Listed(users: seq<User>, se: Split)
  {
    NameOf(users, se.owed_by).Some? && NameOf(users, se.paid_by).Some?
  }

  function SuggestionOf(users: seq<User>, se: Split): Suggestion
  {
    Suggestion(se.expense_id, se.owed_by, se.paid_by, se.amount,
               NameOf(users, se.owed_by).GetOr(""), NameOf(users, se.paid_by).GetOr(""))
  }

  /** A split the query reports: its users exist and no settlement matches it. */
  predicate Suggestible(t: Tables, se: Split)
  {
    Listed(t.users, se) && Unsettled(se, t.settled)
  }

  function SuggestibleIn(t: Tables): Split -> bool
  {
    (se: Split) => Suggestible(t, se)
  }

  function SuggestionIn(users: seq<User>): Split -> Suggestion
  {
    (se: Split) => SuggestionOf(users, se)
  }

  /** GET /api/settlements/suggestions: the anti-join of `shared_expenses` with
      `settled_debts` on the 4-tuple, one row per unmatched split. The query has
      no ORDER BY; the model lists rows in table order. */
  function Suggestions(t: Tables): (r: seq<Suggestion>)
    ensures |r| == |Filter(t.splits, SuggestibleIn(t))| <= |t.splits|
    ensures forall s :: s in r ==>
              exists se :: se in t.splits && Suggestible(t, se) && s == SuggestionOf(t.users, se)
    ensures multiset(r) == multiset(Map(Filter(t.splits, SuggestibleIn(t)), SuggestionIn(t.users)))
  {
    var kept := Filter(t.splits, SuggestibleIn(t));
    var r := Map(kept, SuggestionIn(t.users));
    assert forall k :: 0 <= k < |r| ==> kept[k] in kept && r[k] == SuggestionOf(t.users, kept[k]);
    r
  }

  /** Two splits with the same suggestion row are matched by the same settlements. */
  lemma SameRowSameMatches(users: seq<User>, a: Split, b: Split, sd: Settlement)
    requires SuggestionOf(users, a) == SuggestionOf(users, b)
    ensures Settles(sd, a) <==> Settles(sd, b)
  {
  }

  /** A listed split is suggested exactly when no settlement matches its 4-tuple. */
  lemma SuggestedIff(t: Tables, se: Split)
    requires se in t.splits && Listed(t.users, se)
    ensures SuggestionOf(t.users, se) in Suggestions(t) <==> Unsettled(se, t.settled)
  {
    var kept := Filter(t.splits, SuggestibleIn(t));
    var r := Suggestions(t);
    if Unsettled(se, t.settled) {
      assert se in kept;
      var k :| 0 <= k < |kept| && kept[k] == se;
      assert r[k] == SuggestionOf(t.users, se);
    }
    if SuggestionOf(t.users, se) in r {
      var other :| other in t.splits && Suggestible(t, other) && SuggestionOf(t.users, se) == SuggestionOf(t.users, other);
      forall sd | sd in t.settled ensures !Settles(sd, se) {
        SameRowSameMatches(t.users, se, other, sd);
      }
    }
  }

  /** The tables after a settlement row `x` is appended. */
  function WithSettlement(t: Tables, x: Settlement): Tables
  {
    t.(settled := t.settled + [x])
  }

  /** Recording any settlement never adds a suggestion: the new suggestions are
      the old ones with some rows dropped, in the same order. */
  lemma {:induction false} RecordingNeverAddsSuggestions(t: Tables, x: Settlement)
    ensures IsSubsequence(Suggestions(WithSettlement(t, x)), Suggestions(t))
  {
    var t' := WithSettlement(t, x);
    assert forall se :: Suggestible(t', se) ==> Suggestible(t, se);
    FilterStronger(t.splits, SuggestibleIn(t'), SuggestibleIn(t));
    MapSubsequence(Filter(t.splits, SuggestibleIn(t')),
                   Filter(t.splits, SuggestibleIn(t)),
                   SuggestionIn(t.users));
  }

  /** Posting a suggestion's own four values removes that suggestion from the
      next GET /suggestions. */
  lemma PostingSuggestionRemovesIt(t: Tables, s: Suggestion, id: int, now: int)
    requires s in Suggestions(t)
    requires IsComplete(PostBody(Some(s.owed_by), Some(s.paid_to), Some(s.amount), Some(s.expense_id)))
    ensures s !in Suggestions(WithSettlement(t, InsertedRow(id,
              PostBody(Some(s.owed_by), Some(s.paid_to), Some(s.amount), Some(s.expense_id)), now)))
  {
    var row := InsertedRow(id, PostBody(Some(s.owed_by), Some(s.paid_to), Some(s.amount), Some(s.expense_id)), now);
    var se :| se in t.splits && Suggestible(t, se) && s == SuggestionOf(t.users, se);
    var t' := WithSettlement(t, row);
    assert row in t'.settled && Settles(row, se);
    SuggestedIff(t', se);
  }

  /** A settlement that differs from a split only in its amount (a rounded value,
      say) leaves the split's suggestion exactly as it was. */
  lemma AmountMismatchKeepsSuggestion(t: Tables, se: Split, x: Settlement)
    requires se in t.splits && Listed(t.users, se)
    requires x.expense_id == Some(se.expense_id) && x.owed_by == se.owed_by && x.paid_to == se.paid_by
    requires x.amount != se.amount
    ensures SuggestionOf(t.users, se) in Suggestions(WithSettlement(t, x))
            <==> SuggestionOf(t.users, se) in Suggestions(t)
  {
    var t' := WithSettlement(t, x);
    SuggestedIff(t, se);
    SuggestedIff(t', se);
    assert Unsettled(se, t'.settled) <==> Unsettled(se, t.settled);
  }

  // ------------------------------------------------------------ GET /fully-settled

  function OfExpense(e: ExpenseId): Split -> bool
  {
    (se: Split) => se.expense_id == e
  }

  function CarriesExpense(e: ExpenseId): Settlement -> bool
  {
    (sd: Settlement) => sd.expense_id == Some(e)
  }

  /** `COUNT(*)` of the split rows of `e`. */
  function SplitCount(splits: seq<Split>, e: ExpenseId): nat
  {
    |Filter(splits, OfExpense(e))|
  }

  /** `SELECT COUNT(*) FROM settled_debts WHERE expense_id = e`; NULL never equals. */
  function SettlementCount(settled: seq<Settlement>, e: ExpenseId): nat
  {
    |Filter(settled, CarriesExpense(e))|
  }

  lemma SplitCountPositive(splits: seq<Split>, e: ExpenseId)
    ensures SplitCount(splits, e) >= 1 <==> exists se :: se in splits && se.expense_id == e
  {
    var f := Filter(splits, OfExpense(e));
    if |f| >= 1 {
      assert f[0] in f;
    }
  }

  /** GET /api/settlements/fully-settled, as written: the expenses with split rows
      whose split count equals the number of settlements carrying their id —
      a count comparison, not a per-split match. */
  function FullySettled(t: Tables): (r: set<ExpenseId>)
    ensures forall e :: e in r <==>
              SplitCount(t.splits, e) >= 1 && SplitCount(t.splits, e) == SettlementCount(t.settled, e)
  {
    var r := set se | se in t.splits && SplitCount(t.splits, se.expense_id) == SettlementCount(t.settled, se.expense_id)
                    :: se.expense_id;
    forall e ensures e in r <==> SplitCount(t.splits, e) >= 1 && SplitCount(t.splits, e) == SettlementCount(t.settled, e) {
      SplitCountPositive(t.splits, e);
    }
    r
  }

  /** Under the count rule one more settlement for a fully settled expense
      makes it not fully settled again. */
  lemma {:induction false} ExtraSettlementUnsettles(t: Tables, x: Settlement, e: ExpenseId)
    requires e in FullySettled(t) && x.expense_id == Some(e)
    ensures e !in FullySettled(WithSettlement(t, x))
  {
    FilterConcat(t.settled, [x], CarriesExpense(e));
  }

  /** The intended rule (every split of the expense has a matching settlement),
      with at least one split, as the spending route's `settled` flag uses it. */
  function FullySettledByMatch(t: Tables): (r: set<ExpenseId>)
    ensures forall e :: e in r <==> HasSplits(t.splits, e) && AllMatched(t, e)
  {
    set se | se in t.splits && AllMatched(t, se.expense_id) :: se.expense_id
  }

  predicate HasSplits(splits: seq<Split>, e: ExpenseId)
  {
    exists se :: se in splits && se.expense_id == e
  }

  /** Every split row of `e` has a settlement matching its 4-tuple. */
  predicate AllMatched(t: Tables, e: ExpenseId)
  {
    forall se :: se in t.splits && se.expense_id == e ==> !Unsettled(se, t.settled)
  }

  /** With the matching rule an expense moves only forward: recording a
      settlement never makes a fully settled expense unsettled. */
  lemma ByMatchOnlyMovesForward(t: Tables, x: Settlement)
    ensures FullySettledByMatch(t) <= FullySettledByMatch(WithSettlement(t, x))
  {
    var t' := WithSettlement(t, x);
    forall e | e in FullySettledByMatch(t) ensures e in FullySettledByMatch(t') {
      forall se | se in t.splits && se.expense_id == e ensures !Unsettled(se, t'.settled) {
        var sd :| sd in t.settled && Settles(sd, se);
        assert sd in t'.settled;
      }
      assert AllMatched(t', e);
    }
  }

  /** With the matching rule, an expense whose users all exist is fully settled
      exactly when it has splits and none of them is suggested. */
  lemma ByMatchIffNoSuggestion(t: Tables, e: ExpenseId)
    requires forall se :: se in t.splits && se.expense_id == e ==> Listed(t.users, se)
    ensures e in FullySettledByMatch(t) <==>
              HasSplits(t.splits, e) && forall s :: s in Suggestions(t) ==> s.expense_id != e
  {
    if e in FullySettledByMatch(t) {
      SettledHasNoSuggestion(t, e);
    }
    if HasSplits(t.splits, e) && forall s :: s in Suggestions(t) ==> s.expense_id != e {
      NoSuggestionMeansMatched(t, e);
    }
  }

  lemma SettledHasNoSuggestion(t: Tables, e: ExpenseId)
    requires AllMatched(t, e)
    ensures forall s :: s in Suggestions(t) ==> s.expense_id != e
  {
    forall s | s in Suggestions(t) ensures s.expense_id != e {
      var se :| se in t.splits && Suggestible(t, se) && s == SuggestionOf(t.users, se);
    }
  }

  lemma NoSuggestionMeansMatched(t: Tables, e: ExpenseId)
    requires forall se :: se in t.splits && se.expense_id == e ==> Listed(t.users, se)
    requires forall s :: s in Suggestions(t) ==> s.expense_id != e
    ensures AllMatched(t, e)
  {
    forall se | se in t.splits && se.expense_id == e ensures !Unsettled(se, t.settled) {
      SuggestedIff(t, se);
    }
  }

  // Two splits of expense 1: user 2 owes user 1 10, user 3 owes user 1 10.
  const ExampleUsers := [User(1, "A"), User(2, "B"), User(3, "C")]
  const SplitB := Split(10, 1, 1, 2, 10)
  const SplitC := Split(11, 1, 1, 3, 10)
  const SettleB := Settlement(100, Some(1), 2, 1, 10, 0)
  const SettleB2 := Settlement(101, Some(1), 2, 1, 10, 1)
  const SettleC := Settlement(102, Some(1), 3, 1, 10, 2)

  /** Settling only B's share leaves the expense open under both rules;
      settling C's share too closes it under both. */
  lemma SettlingEachShareClosesExpense()
    ensures 1 !in FullySettled(Tables(ExampleUsers, [], [SplitB, SplitC], [SettleB]))
    ensures 1 !in FullySettledByMatch(Tables(ExampleUsers, [], [SplitB, SplitC], [SettleB]))
    ensures 1 in FullySettled(Tables(ExampleUsers, [], [SplitB, SplitC], [SettleB, SettleC]))
    ensures 1 in FullySettledByMatch(Tables(ExampleUsers, [], [SplitB, SplitC], [SettleB, SettleC]))
  {
    var one := Tables(ExampleUsers, [], [SplitB, SplitC], [SettleB]);
    var both := Tables(ExampleUsers, [], [SplitB, SplitC], [SettleB, SettleC]);
    FilterAll(one.splits, OfExpense(1));
    FilterAll(one.settled, CarriesExpense(1));
    FilterAll(both.settled, CarriesExpense(1));
    assert SplitC in one.splits && Unsettled(SplitC, one.settled);
    assert !AllMatched(one, 1);
    assert SettleB in both.settled && Settles(SettleB, SplitB);
    assert SettleC in both.settled && Settles(SettleC, SplitC);
    assert HasSplits(both.splits, 1);
    assert AllMatched(both, 1);
  }

  /** The count rule reports the expense fully settled after B's share was
      recorded twice, while C's split is still suggested and unmatched. */
  lemma CountRuleDoubleSettlement()
    ensures 1 in FullySettled(Tables(ExampleUsers, [], [SplitB, SplitC], [SettleB, SettleB2]))
    ensures SuggestionOf(ExampleUsers, SplitC)
              in Suggestions(Tables(ExampleUsers, [], [SplitB, SplitC], [SettleB, SettleB2]))
    ensures 1 !in FullySettledByMatch(Tables(ExampleUsers, [], [SplitB, SplitC], [SettleB, SettleB2]))
  {
    var t := Tables(ExampleUsers, [], [SplitB, SplitC], [SettleB, SettleB2]);
    FilterAll(t.splits, OfExpense(1));
    FilterAll(t.settled, CarriesExpense(1));
    assert Unsettled(SplitC, t.settled);
    assert !AllMatched(t, 1);
    assert Listed(ExampleUsers, SplitC);
    SuggestedIff(t, SplitC);
  }
}
