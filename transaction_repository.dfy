/** The transaction table's filter, order and sum queries, as pure functions. */
module TransactionRepository {
  import opened Wrappers
  import opened Domain
  import opened Entities
  import AccountRepository

  /** The transaction touches the account as source or as destination. */
  predicate Involves(t: Transaction, accountId: AccountId)
  {
    t.fromAccount == Some(accountId) || t.toAccount == Some(accountId)
  }

  /** `BETWEEN :startDate AND :endDate`: inclusive at both ends. */
  predicate InRange(t: Transaction, start: Instant, end: Instant)
  {
    start <= t.transactionDate <= end
  }

  /** `findByAccount` / `findByAccountId`: the transactions from or to the account, listed in table order (the query has no ORDER BY). */
  function FindByAccountId(txs: seq<Transaction>, accountId: AccountId): (r: seq<Transaction>)
    ensures forall t :: t in r <==> t in txs && Involves(t, accountId)
    ensures |r| <= |txs|
  {
    if |txs| == 0 then []
    else
      var last := txs[|txs| - 1];
      assert txs == txs[..|txs| - 1] + [last];
      FindByAccountId(txs[..|txs| - 1], accountId) + (if Involves(last, accountId) then [last] else [])
  }

  /** `findByDateRange`. */
  function FindByDateRange(txs: seq<Transaction>, start: Instant, end: Instant): (r: seq<Transaction>)
    ensures forall t :: t in r <==> t in txs && InRange(t, start, end)
    ensures |r| <= |txs|
  {
    if |txs| == 0 then []
    else
      var last := txs[|txs| - 1];
      assert txs == txs[..|txs| - 1] + [last];
      FindByDateRange(txs[..|txs| - 1], start, end) + (if InRange(last, start, end) then [last] else [])
  }

  /** The path `t.fromAccount.user.id = :userId` for one side: the referenced account exists and is the user's. */
  predicate SideOwnedBy(accounts: seq<Account>, side: Option<AccountId>, userId: UserId)
  {
    side.Some? &&
    match AccountRepository.FindById(accounts, side.value)
    case Some(i) => accounts[i].user == userId
    case None => false
  }

  /** Either side of the transaction belongs to the user. */
  predicate InvolvesUser(accounts: seq<Account>, t: Transaction, userId: UserId)
  {
    SideOwnedBy(accounts, t.fromAccount, userId) || SideOwnedBy(accounts, t.toAccount, userId)
  }

  /** The WHERE clause of `findByUserIdAndDateRange`, in table order. */
  function UserTransactionsInRange(txs: seq<Transaction>, accounts: seq<Account>, userId: UserId,
                                   start: Instant, end: Instant): (r: seq<Transaction>)
    ensures forall t :: t in r <==> t in txs && InvolvesUser(accounts, t, userId) && InRange(t, start, end)
  {
    if |txs| == 0 then []
    else
      var last := txs[|txs| - 1];
      assert txs == txs[..|txs| - 1] + [last];
      UserTransactionsInRange(txs[..|txs| - 1], accounts, userId, start, end)
        + (if InvolvesUser(accounts, last, userId) && InRange(last, start, end) then [last] else [])
  }

  /** The WHERE clause of `findRecentByUserId`, in table order. */
  function UserTransactions(txs: seq<Transaction>, accounts: seq<Account>, userId: UserId): (r: seq<Transaction>)
    ensures forall t :: t in r <==> t in txs && InvolvesUser(accounts, t, userId)
  {
    if |txs| == 0 then []
    else
      var last := txs[|txs| - 1];
      assert txs == txs[..|txs| - 1] + [last];
      UserTransactions(txs[..|txs| - 1], accounts, userId)
        + (if InvolvesUser(accounts, last, userId) then [last] else [])
  }

  /** `ORDER BY t.transactionDate DESC`. */
  ghost predicate SortedByDateDesc(s: seq<Transaction>)
  {
    forall i, j :: 0 <= i < j < |s| ==> s[i].transactionDate >= s[j].transactionDate
  }

  /** Puts `t` into a list already in descending date order. */
  function InsertByDateDesc(t: Transaction, s: seq<Transaction>): (r: seq<Transaction>)
    requires SortedByDateDesc(s)
    ensures SortedByDateDesc(r)
    ensures multiset(r) == multiset(s) + multiset{t}
    ensures |r| == |s| + 1
  {
    if |s| == 0 then [t]
    else if t.transactionDate >= s[0].transactionDate then [t] + s
    else
      var rest := InsertByDateDesc(t, s[1..]);
      assert s == [s[0]] + s[1..];
      HeadIsLatest(s, t, rest);
      ConsSorted(s[0], rest);
      [s[0]] + rest
  }

  /** Everything inserted behind the head of a sorted list is no later than the head. */
  lemma HeadIsLatest(s: seq<Transaction>, t: Transaction, rest: seq<Transaction>)
    requires SortedByDateDesc(s) && |s| > 0 && t.transactionDate < s[0].transactionDate
    requires multiset(rest) == multiset(s[1..]) + multiset{t}
    ensures forall k :: 0 <= k < |rest| ==> s[0].transactionDate >= rest[k].transactionDate
  {
    forall k | 0 <= k < |rest| ensures s[0].transactionDate >= rest[k].transactionDate {
      assert rest[k] in multiset(rest);
      if rest[k] != t {
        assert rest[k] in multiset(s[1..]);
        var j :| 0 <= j < |s[1..]| && s[1..][j] == rest[k];
        assert s[j + 1] == rest[k];
      }
    }
  }

  /** A sorted list stays sorted with a no-earlier element in front. */
  lemma ConsSorted(x: Transaction, rest: seq<Transaction>)
    requires SortedByDateDesc(rest)
    requires forall k :: 0 <= k < |rest| ==> x.transactionDate >= rest[k].transactionDate
    ensures SortedByDateDesc([x] + rest)
  {
    var r := [x] + rest;
    forall i, j | 0 <= i < j < |r| ensures r[i].transactionDate >= r[j].transactionDate {
      if i == 0 {
        assert r[j] == rest[j - 1];
      } else {
        assert r[i] == rest[i - 1] && r[j] == rest[j - 1];
      }
    }
  }

  /** Orders a list by descending transaction date (ties in an unspecified order in SQL). */
  function SortByDateDesc(s: seq<Transaction>): (r: seq<Transaction>)
    ensures SortedByDateDesc(r)
    ensures multiset(r) == multiset(s)
    ensures |r| == |s|
  {
    if |s| == 0 then []
    else
      assert s == s[..|s| - 1] + [s[|s| - 1]];
      InsertByDateDesc(s[|s| - 1], SortByDateDesc(s[..|s| - 1]))
  }

  /**
   * `findByUserIdAndDateRange`: the transactions with a side owned by the user and a
   * date in the inclusive range, newest first.
   */
  function FindByUserIdAndDateRange(txs: seq<Transaction>, accounts: seq<Account>, userId: UserId,
                                    start: Instant, end: Instant): (r: seq<Transaction>)
    ensures SortedByDateDesc(r)
    ensures multiset(r) == multiset(UserTransactionsInRange(txs, accounts, userId, start, end))
    ensures forall t :: t in r <==> t in txs && InvolvesUser(accounts, t, userId) && InRange(t, start, end)
  {
    var r := SortByDateDesc(UserTransactionsInRange(txs, accounts, userId, start, end));
    assert forall t :: t in r <==> t in multiset(r);
    r
  }

  /** `findRecentByUserId` without its page: the user's transactions, newest first. */
  function FindRecentByUserId(txs: seq<Transaction>, accounts: seq<Account>, userId: UserId): (r: seq<Transaction>)
    ensures SortedByDateDesc(r)
    ensures multiset(r) == multiset(UserTransactions(txs, accounts, userId))
    ensures forall t :: t in r <==> t in txs && InvolvesUser(accounts, t, userId)
  {
    var r := SortByDateDesc(UserTransactions(txs, accounts, userId));
    assert forall t :: t in r <==> t in multiset(r);
    r
  }

  /** The WHERE clause of `sumExpensesByCategoryAndDateRange`. */
  predicate CategoryExpenseInRange(t: Transaction, categoryId: CategoryId, start: Instant, end: Instant)
  {
    t.category == Some(categoryId) && t.transactionType == EXPENSE && InRange(t, start, end)
  }

  /**
   * `sumExpensesByCategoryAndDateRange`: COALESCE(SUM(amount), 0) over the EXPENSE
   * transactions of the category dated within the inclusive range.
   */
  function SumExpensesByCategoryAndDateRange(txs: seq<Transaction>, categoryId: CategoryId,
                                             start: Instant, end: Instant): (total: Cents)
    ensures total >= 0
    ensures (forall i :: 0 <= i < |txs| ==> !CategoryExpenseInRange(txs[i], categoryId, start, end)) ==> total == 0
    ensures (exists i :: 0 <= i < |txs| && CategoryExpenseInRange(txs[i], categoryId, start, end)) ==> total >= 1
  {
    if |txs| == 0 then 0
    else
      var last := txs[|txs| - 1];
      var init := txs[..|txs| - 1];
      assert forall i :: 0 <= i < |init| ==> init[i] == txs[i];
      SumExpensesByCategoryAndDateRange(init, categoryId, start, end)
        + (if CategoryExpenseInRange(last, categoryId, start, end) then last.amount else 0)
  }

  /** The rows `sumExpensesByCategoryAndDateRange` adds up: the category's EXPENSE rows in the range, in table order. */
  function CategoryExpensesInRange(txs: seq<Transaction>, categoryId: CategoryId,
                                   start: Instant, end: Instant): (r: seq<Transaction>)
    ensures forall t :: t in r <==> t in txs && CategoryExpenseInRange(t, categoryId, start, end)
  {
    if |txs| == 0 then []
    else
      var last := txs[|txs| - 1];
      assert txs == txs[..|txs| - 1] + [last];
      CategoryExpensesInRange(txs[..|txs| - 1], categoryId, start, end)
        + (if CategoryExpenseInRange(last, categoryId, start, end) then [last] else [])
  }

  /** `SUM(t.amount)` over a list of rows, taken from the front. */
  function SumAmounts(ts: seq<Transaction>): int
  {
    if |ts| == 0 then 0 else ts[0].amount + SumAmounts(ts[1..])
  }

  lemma {:induction false} SumAmountsConcat(a: seq<Transaction>, b: seq<Transaction>)
    ensures SumAmounts(a + b) == SumAmounts(a) + SumAmounts(b)
    decreases |a|
  {
    if |a| == 0 {
      assert a + b == b;
    } else {
      assert (a + b)[1..] == a[1..] + b;
      SumAmountsConcat(a[1..], b);
    }
  }

  /** The query's value is the sum of the amounts of exactly the matching rows. */
  lemma {:induction false} SumExpensesIsSumOfMatching(txs: seq<Transaction>, categoryId: CategoryId,
                                                      start: Instant, end: Instant)
    ensures SumExpensesByCategoryAndDateRange(txs, categoryId, start, end)
            == SumAmounts(CategoryExpensesInRange(txs, categoryId, start, end))
    decreases |txs|
  {
    if |txs| > 0 {
      var last := txs[|txs| - 1];
      var init := txs[..|txs| - 1];
      var mine := if CategoryExpenseInRange(last, categoryId, start, end) then [last] else [];
      SumExpensesIsSumOfMatching(init, categoryId, start, end);
      SumAmountsConcat(CategoryExpensesInRange(init, categoryId, start, end), mine);
      assert SumAmounts(mine) == (if CategoryExpenseInRange(last, categoryId, start, end) then last.amount else 0);
    }
  }

  /** The query is additive over a table split in two. */
  lemma {:induction false} SumExpensesConcat(a: seq<Transaction>, b: seq<Transaction>, categoryId: CategoryId,
                                             start: Instant, end: Instant)
    ensures SumExpensesByCategoryAndDateRange(a + b, categoryId, start, end)
            == SumExpensesByCategoryAndDateRange(a, categoryId, start, end)
               + SumExpensesByCategoryAndDateRange(b, categoryId, start, end)
    decreases |b|
  {
    if |b| == 0 {
      assert a + b == a;
    } else {
      var last := b[|b| - 1];
      assert (a + b)[..|a + b| - 1] == a + b[..|b| - 1];
      assert (a + b)[|a + b| - 1] == last;
      SumExpensesConcat(a, b[..|b| - 1], categoryId, start, end);
    }
  }

  /** The account listing is additive over a table split in two, the first part's rows first. */
  lemma {:induction false} FindByAccountIdConcat(a: seq<Transaction>, b: seq<Transaction>, accountId: AccountId)
    ensures FindByAccountId(a + b, accountId) == FindByAccountId(a, accountId) + FindByAccountId(b, accountId)
    decreases |b|
  {
    if |b| == 0 {
      assert a + b == a;
    } else {
      var last := b[|b| - 1];
      assert (a + b)[..|a + b| - 1] == a + b[..|b| - 1];
      assert (a + b)[|a + b| - 1] == last;
      FindByAccountIdConcat(a, b[..|b| - 1], accountId);
    }
  }
}
