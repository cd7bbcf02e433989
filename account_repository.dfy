/** The account table's queries, as pure functions over the table's rows. */
module AccountRepository {
  import opened Wrappers
  import opened Domain
  import opened Entities
  import opened Tables

  /** `findById`: the position of the account with that id. */
  function FindById(accounts: seq<Account>, id: AccountId): Option<nat>
  {
    IndexOf(accounts, AccountKey, id)
  }

  /** `findByUserId`: the accounts whose owner is `userId`, listed in table order (SQL leaves the order open). */
  function FindByUserId(accounts: seq<Account>, userId: UserId): (r: seq<Account>)
    ensures forall a :: a in r <==> a in accounts && a.user == userId
    ensures |r| <= |accounts|
  {
    if |accounts| == 0 then []
    else
      var last := accounts[|accounts| - 1];
      assert accounts == accounts[..|accounts| - 1] + [last];
      FindByUserId(accounts[..|accounts| - 1], userId) + (if last.user == userId then [last] else [])
  }

  /** `findByUserIdAndIsActiveTrue`: that user's accounts whose isActive is true (not false, not null). */
  function FindByUserIdAndIsActiveTrue(accounts: seq<Account>, userId: UserId): (r: seq<Account>)
    ensures forall a :: a in r <==> a in accounts && a.user == userId && IsTrue(a.isActive)
    ensures |r| <= |accounts|
  {
    if |accounts| == 0 then []
    else
      var last := accounts[|accounts| - 1];
      assert accounts == accounts[..|accounts| - 1] + [last];
      FindByUserIdAndIsActiveTrue(accounts[..|accounts| - 1], userId)
        + (if last.user == userId && IsTrue(last.isActive) then [last] else [])
  }

  /** `findByUserIdAndAccountType`: that user's accounts of type `t`. */
  function FindByUserIdAndAccountType(accounts: seq<Account>, userId: UserId, t: AccountType): (r: seq<Account>)
    ensures forall a :: a in r <==> a in accounts && a.user == userId && a.accountType == t
    ensures |r| <= |accounts|
  {
    if |accounts| == 0 then []
    else
      var last := accounts[|accounts| - 1];
      assert accounts == accounts[..|accounts| - 1] + [last];
      FindByUserIdAndAccountType(accounts[..|accounts| - 1], userId, t)
        + (if last.user == userId && last.accountType == t then [last] else [])
  }

  /** The sum of the balances of a list of accounts. */
  function SumBalances(s: seq<Account>): Cents
  {
    if |s| == 0 then 0 else SumBalances(s[..|s| - 1]) + s[|s| - 1].balance
  }

  lemma {:induction false} SumBalancesAppend(a: seq<Account>, b: seq<Account>)
    ensures SumBalances(a + b) == SumBalances(a) + SumBalances(b)
    decreases |b|
  {
    if |b| > 0 {
      assert (a + b)[..|a + b| - 1] == a + b[..|b| - 1];
      SumBalancesAppend(a, b[..|b| - 1]);
    } else {
      assert a + b == a;
    }
  }

  /** Changing one balance moves the sum by exactly that change. */
  lemma {:induction false} SumBalancesSet(s: seq<Account>, i: nat, b: Cents)
    requires i < |s|
    ensures SumBalances(s[i := s[i].(balance := b)]) == SumBalances(s) - s[i].balance + b
  {
    var t := s[i := s[i].(balance := b)];
    if i < |s| - 1 {
      assert t[..|t| - 1] == s[..|s| - 1][i := s[i].(balance := b)];
      SumBalancesSet(s[..|s| - 1], i, b);
    } else {
      assert t[..|t| - 1] == s[..|s| - 1];
    }
  }

  /**
   * `getTotalBalanceByUserId`: SUM(balance) over the user's active accounts,
   * COALESCEd to 0 when there is none.
   */
  function GetTotalBalanceByUserId(accounts: seq<Account>, userId: UserId): Cents
  {
    if |accounts| == 0 then 0
    else
      var last := accounts[|accounts| - 1];
      GetTotalBalanceByUserId(accounts[..|accounts| - 1], userId)
        + (if last.user == userId && IsTrue(last.isActive) then last.balance else 0)
  }

  /** COALESCE: a user with no active account has total 0. */
  lemma {:induction false} TotalBalanceWithoutActiveAccounts(accounts: seq<Account>, userId: UserId)
    requires forall a :: a in accounts ==> a.user != userId || !IsTrue(a.isActive)
    ensures GetTotalBalanceByUserId(accounts, userId) == 0
  {
    if |accounts| > 0 {
      assert accounts == accounts[..|accounts| - 1] + [accounts[|accounts| - 1]];
      TotalBalanceWithoutActiveAccounts(accounts[..|accounts| - 1], userId);
    }
  }

  /** The total equals the sum over exactly the accounts `findByUserIdAndIsActiveTrue` lists. */
  lemma {:induction false} TotalBalanceIsSumOfActive(accounts: seq<Account>, userId: UserId)
    ensures GetTotalBalanceByUserId(accounts, userId) == SumBalances(FindByUserIdAndIsActiveTrue(accounts, userId))
  {
    if |accounts| > 0 {
      var init := accounts[..|accounts| - 1];
      var last := accounts[|accounts| - 1];
      TotalBalanceIsSumOfActive(init, userId);
      SumBalancesAppend(FindByUserIdAndIsActiveTrue(init, userId),
                        if last.user == userId && IsTrue(last.isActive) then [last] else []);
    }
  }

  /**
   * Changing one balance moves the user's active total by that change when the
   * account is the user's and active, and leaves it alone otherwise.
   */
  lemma {:induction false} TotalBalanceSet(s: seq<Account>, i: nat, b: Cents, userId: UserId)
    requires i < |s|
    ensures GetTotalBalanceByUserId(s[i := s[i].(balance := b)], userId)
            == GetTotalBalanceByUserId(s, userId)
               + (if s[i].user == userId && IsTrue(s[i].isActive) then b - s[i].balance else 0)
  {
    var t := s[i := s[i].(balance := b)];
    var n := |s| - 1;
    var last := t[n];
    assert GetTotalBalanceByUserId(t, userId)
           == GetTotalBalanceByUserId(t[..n], userId)
              + (if last.user == userId && IsTrue(last.isActive) then last.balance else 0);
    if i < n {
      assert t[..n] == s[..n][i := s[i].(balance := b)];
      TotalBalanceSet(s[..n], i, b, userId);
    } else {
      assert t[..n] == s[..n];
    }
  }

  /**
   * Deactivating an account that holds nothing leaves the user's active total
   * unchanged, whoever owns it.
   */
  lemma {:induction false} TotalBalanceDeactivateEmpty(s: seq<Account>, i: nat, userId: UserId)
    requires i < |s| && s[i].balance == 0
    ensures GetTotalBalanceByUserId(s[i := s[i].(isActive := Some(false))], userId)
            == GetTotalBalanceByUserId(s, userId)
  {
    var t := s[i := s[i].(isActive := Some(false))];
    var n := |s| - 1;
    var last := t[n];
    assert GetTotalBalanceByUserId(t, userId)
           == GetTotalBalanceByUserId(t[..n], userId)
              + (if last.user == userId && IsTrue(last.isActive) then last.balance else 0);
    if i < n {
      assert t[..n] == s[..n][i := s[i].(isActive := Some(false))];
      TotalBalanceDeactivateEmpty(s[..n], i, userId);
    } else {
      assert t[..n] == s[..n];
    }
  }

  /** `existsByAccountNumber`. */
  function ExistsByAccountNumber(accounts: seq<Account>, number: string): (r: bool)
    ensures r <==> exists i :: 0 <= i < |accounts| && accounts[i].accountNumber == number
  {
    if |accounts| == 0 then false
    else accounts[|accounts| - 1].accountNumber == number
         || ExistsByAccountNumber(accounts[..|accounts| - 1], number)
  }

  /** Account numbers are unique (the column's unique constraint). */
  ghost predicate AccountNumbersUnique(accounts: seq<Account>)
  {
    forall i, j :: 0 <= i < j < |accounts| ==> accounts[i].accountNumber != accounts[j].accountNumber
  }
}
