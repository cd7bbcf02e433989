/**
 * Accounts: creation with a unique 8-digit account number, the per-currency
 * balance summary, the low-level balance write, soft deactivation and the
 * ownership guard.
 */
module AccountService {
  import opened Wrappers
  import opened Domain
  import opened Entities
  import opened Tables
  import opened Store
  import opened AccountRepository

  // ---------------------------------------------------------------------------
  // Account numbers: String.format("%08d", n) for 0 <= n < 10^8.
  // ---------------------------------------------------------------------------

  /** The number of candidates `generateAccountNumber` draws at most. */
  const MaxAttempts: nat := 10

  /** `(int) (Math.random() * 100000000)` lies in [0, AccountNumberSpace). */
  const AccountNumberSpace: nat := 100000000

  function Pow10(k: nat): (p: nat)
    ensures p >= 1
  {
    if k == 0 then 1 else 10 * Pow10(k - 1)
  }

  predicate IsDigit(c: char)
  {
    '0' <= c <= '9'
  }

  predicate AllDigits(s: string)
  {
    forall k :: 0 <= k < |s| ==> IsDigit(s[k])
  }

  function DigitChar(d: nat): (c: char)
    requires d < 10
    ensures IsDigit(c) && c as int - '0' as int == d
  {
    ('0' as int + d) as char
  }

  /** The last `width` decimal digits of `n`, most significant first, padded with '0'. */
  function ZeroPad(n: nat, width: nat): (s: string)
    ensures |s| == width && AllDigits(s)
  {
    if width == 0 then [] else ZeroPad(n / 10, width - 1) + [DigitChar(n % 10)]
  }

  /** The value of a string of decimal digits. */
  function ParseDigits(s: string): nat
    requires AllDigits(s)
  {
    if |s| == 0 then 0 else ParseDigits(s[..|s| - 1]) * 10 + (s[|s| - 1] as int - '0' as int)
  }

  /** `String.format("%08d", n)`. */
  function Pad8(n: nat): (s: string)
    requires n < AccountNumberSpace
    ensures |s| == 8 && AllDigits(s)
  {
    ZeroPad(n, 8)
  }

  /** Padding loses nothing: a number below 10^width is read back from its padded form. */
  lemma {:induction false} ParseZeroPad(n: nat, width: nat)
    requires n < Pow10(width)
    ensures ParseDigits(ZeroPad(n, width)) == n
  {
    if width > 0 {
      assert n / 10 < Pow10(width - 1);
      ParseZeroPad(n / 10, width - 1);
      assert ZeroPad(n, width)[..width - 1] == ZeroPad(n / 10, width - 1);
    }
  }

  /** Different draws give different account numbers. */
  lemma Pad8Injective(m: nat, n: nat)
    requires m < AccountNumberSpace && n < AccountNumberSpace
    ensures Pad8(m) == Pad8(n) <==> m == n
  {
    assert Pow10(8) == AccountNumberSpace;
    ParseZeroPad(m, 8);
    ParseZeroPad(n, 8);
  }

  predicate ValidDraws(draws: seq<int>)
  {
    |draws| >= MaxAttempts && forall k :: 0 <= k < |draws| ==> 0 <= draws[k] < AccountNumberSpace
  }

  /**
   * `generateAccountNumber`, with `Math.random` supplied as `draws`. The counter is
   * tested before the collision check, so only the first MaxAttempts - 1 candidates
   * are ever tried against the table.
   */
  method GenerateAccountNumber(accounts: seq<Account>, draws: seq<int>) returns (r: Result<string, Error>)
    requires ValidDraws(draws)
    ensures r.Success? ==>
              && |r.value| == 8 && AllDigits(r.value)
              && !ExistsByAccountNumber(accounts, r.value)
              && exists k :: 0 <= k < MaxAttempts - 1 && r.value == Pad8(draws[k])
                             && forall m :: 0 <= m < k ==> ExistsByAccountNumber(accounts, Pad8(draws[m]))
    ensures r.Failure? ==>
              && r.error == AccountNumberGenerationFailed
              && forall m :: 0 <= m < MaxAttempts - 1 ==> ExistsByAccountNumber(accounts, Pad8(draws[m]))
  {
    var attempts := 0;
    while true
      invariant 0 <= attempts < MaxAttempts
      invariant forall m :: 0 <= m < attempts ==> ExistsByAccountNumber(accounts, Pad8(draws[m]))
      decreases MaxAttempts - attempts
    {
      var accountNumber := Pad8(draws[attempts]);
      attempts := attempts + 1;
      if attempts >= MaxAttempts {
        return Failure(AccountNumberGenerationFailed);
      }
      if !ExistsByAccountNumber(accounts, accountNumber) {
        return Success(accountNumber);
      }
    }
  }

  // ---------------------------------------------------------------------------
  // createAccount
  // ---------------------------------------------------------------------------

  /** True when the caller gave no account number (null or empty), so one is generated. */
  predicate NeedsGeneratedNumber(draft: AccountDraft)
  {
    draft.accountNumber.None? || draft.accountNumber.value == ""
  }

  /** The row `createAccount` saves: the draft, with the documented defaults filled in. */
  function NewAccount(draft: AccountDraft, id: AccountId, number: string, owner: User): (a: Account)
    ensures draft.currency.None? ==> a.currency == owner.defaultCurrency
    ensures draft.currency.Some? ==> a.currency == draft.currency.value
    ensures a.balance == draft.balance.GetOr(0)
    ensures draft.isActive.None? ==> a.isActive == Some(true)
    ensures draft.isActive.Some? ==> a.isActive == draft.isActive
    ensures a.id == id && a.user == owner.id && a.accountNumber == number
    ensures a.accountName == draft.accountName && a.accountType == draft.accountType && a.bankName == draft.bankName
  {
    Account(id, draft.accountName, draft.accountType,
            if draft.currency.None? then owner.defaultCurrency else draft.currency.value,
            if draft.balance.None? then 0 else draft.balance.value,
            number, draft.bankName,
            if draft.isActive.None? then Some(true) else draft.isActive,
            owner.id)
  }

  method CreateAccount(db: Db, userId: UserId, draft: AccountDraft, draws: seq<int>) returns (r: Result<Account, Error>)
    requires db.Valid() && ValidDraws(draws)
    modifies db`accounts, db`nextAccountId
    ensures db.Valid()
    ensures var owner := IndexOf(db.users, UserKey, userId);
            && (owner.None? ==> r == Failure(UserNotFound))
            && (owner.Some? && !NeedsGeneratedNumber(draft) ==>
                  (r.Success? <==> !ExistsByAccountNumber(old(db.accounts), draft.accountNumber.value))
                  && (r.Failure? ==> r.error == AccountNumberExists)
                  && (r.Success? ==> r.value.accountNumber == draft.accountNumber.value))
            && (owner.Some? && NeedsGeneratedNumber(draft) ==>
                  (r.Failure? ==> r.error == AccountNumberGenerationFailed)
                  && (r.Success? ==> exists k :: 0 <= k < MaxAttempts - 1 && r.value.accountNumber == Pad8(draws[k])))
            && (r.Success? ==>
                  && owner.Some?
                  && r.value == NewAccount(draft, old(db.nextAccountId), r.value.accountNumber, db.users[owner.value])
                  && !ExistsByAccountNumber(old(db.accounts), r.value.accountNumber)
                  && db.accounts == old(db.accounts) + [r.value]
                  && db.nextAccountId == old(db.nextAccountId) + 1)
    ensures r.Failure? ==> db.accounts == old(db.accounts) && db.nextAccountId == old(db.nextAccountId)
  {
    var found := IndexOf(db.users, UserKey, userId);
    if found.None? {
      return Failure(UserNotFound);
    }
    var user := db.users[found.value];
    var chosen := ChooseAccountNumber(db.accounts, draft, draws);
    if chosen.Failure? {
      return Failure(chosen.error);
    }
    var accountNumber := chosen.value;
    var saved := NewAccount(draft, db.nextAccountId, accountNumber, user);
    AppendKeepsAccountsValid(db.accounts, db.nextAccountId, saved);
    db.accounts := db.accounts + [saved];
    db.nextAccountId := db.nextAccountId + 1;
    return Success(saved);
  }

  /** The account-number step of `createAccount`: the supplied number if unused, else a generated one. */
  method ChooseAccountNumber(accounts: seq<Account>, draft: AccountDraft, draws: seq<int>) returns (r: Result<string, Error>)
    requires ValidDraws(draws)
    ensures r.Success? ==> !ExistsByAccountNumber(accounts, r.value)
    ensures !NeedsGeneratedNumber(draft) ==>
              && (r.Success? <==> !ExistsByAccountNumber(accounts, draft.accountNumber.value))
              && (r.Failure? ==> r.error == AccountNumberExists)
              && (r.Success? ==> r.value == draft.accountNumber.value)
    ensures NeedsGeneratedNumber(draft) ==>
              && (r.Failure? ==> r.error == AccountNumberGenerationFailed)
              && (r.Success? ==> exists k :: 0 <= k < MaxAttempts - 1 && r.value == Pad8(draws[k]))
  {
    if draft.accountNumber.None? || draft.accountNumber.value == "" {
      r := GenerateAccountNumber(accounts, draws);
    } else if ExistsByAccountNumber(accounts, draft.accountNumber.value) {
      r := Failure(AccountNumberExists);
    } else {
      r := Success(draft.accountNumber.value);
    }
  }

  /** Appending a row with the next id and an unused number keeps the account table's invariant. */
  lemma AppendKeepsAccountsValid(accounts: seq<Account>, next: int, row: Account)
    requires AccountsValid(accounts, next) && row.id == next
    requires !ExistsByAccountNumber(accounts, row.accountNumber)
    ensures AccountsValid(accounts + [row], next + 1)
  {
    AppendFresh(accounts, AccountKey, next, row);
    var t := accounts + [row];
    forall i, j | 0 <= i < j < |t| ensures t[i].accountNumber != t[j].accountNumber {
      if j == |accounts| {
        assert t[i] == accounts[i];
      } else {
        assert t[i] == accounts[i] && t[j] == accounts[j];
      }
    }
  }

  // ---------------------------------------------------------------------------
  // getTotalBalancesByCurrency
  // ---------------------------------------------------------------------------

  /** Sum of the balances of the accounts of `s` held in currency `c`. */
  function CurrencyTotal(s: seq<Account>, c: Currency): Cents
  {
    if |s| == 0 then 0
    else CurrencyTotal(s[..|s| - 1], c) + (if s[|s| - 1].currency == c then s[|s| - 1].balance else 0)
  }

  /** The currencies the accounts of `s` are held in. */
  function CurrenciesOf(s: seq<Account>): set<Currency>
  {
    if |s| == 0 then {} else CurrenciesOf(s[..|s| - 1]) + {s[|s| - 1].currency}
  }

  lemma {:induction false} CurrenciesOfMembership(s: seq<Account>, c: Currency)
    ensures c in CurrenciesOf(s) <==> exists a :: a in s && a.currency == c
  {
    if |s| > 0 {
      assert s == s[..|s| - 1] + [s[|s| - 1]];
      CurrenciesOfMembership(s[..|s| - 1], c);
    }
  }

  /** `totals` holds, for exactly the currencies of `s`, the sum of their balances. */
  ghost predicate Tallies(totals: map<Currency, Cents>, s: seq<Account>)
  {
    totals.Keys == CurrenciesOf(s) && forall c :: c in totals ==> totals[c] == CurrencyTotal(s, c)
  }

  /** One iteration of the summary loop: add the account's balance to its currency's entry. */
  lemma TallyStep(totals: map<Currency, Cents>, s: seq<Account>, a: Account, t: seq<Account>, v: Cents)
    requires Tallies(totals, s) && t == s + [a]
    requires v == (if a.currency in totals then totals[a.currency] else 0) + a.balance
    ensures Tallies(totals[a.currency := v], t)
  {
    assert t[..|t| - 1] == s;
    assert CurrenciesOf(t) == CurrenciesOf(s) + {a.currency};
    forall c ensures CurrencyTotal(t, c) == CurrencyTotal(s, c) + (if a.currency == c then a.balance else 0) {
    }
    if a.currency !in totals {
      assert CurrencyTotal(s, a.currency) == 0 by {
        NoCurrencyNoTotal(s, a.currency);
      }
    }
  }

  lemma {:induction false} NoCurrencyNoTotal(s: seq<Account>, c: Currency)
    requires c !in CurrenciesOf(s)
    ensures CurrencyTotal(s, c) == 0
  {
    if |s| > 0 {
      NoCurrencyNoTotal(s[..|s| - 1], c);
    }
  }

  /**
   * `getTotalBalancesByCurrency`: one entry per currency the user's active accounts
   * use, holding the sum of those accounts' balances; no entry for any other currency.
   */
  method GetTotalBalancesByCurrency(accounts: seq<Account>, userId: UserId) returns (totals: map<Currency, Cents>)
    ensures forall c :: c in totals <==> exists a :: a in accounts && a.user == userId && IsTrue(a.isActive) && a.currency == c
    ensures forall c :: c in totals ==> totals[c] == CurrencyTotal(FindByUserIdAndIsActiveTrue(accounts, userId), c)
  {
    var active := FindByUserIdAndIsActiveTrue(accounts, userId);
    totals := map[];
    var k := 0;
    while k < |active|
      invariant 0 <= k <= |active|
      invariant Tallies(totals, active[..k])
    {
      var account := active[k];
      var currentTotal := if account.currency in totals then totals[account.currency] else 0;
      var newTotal := currentTotal + account.balance;
      assert active[..k + 1] == active[..k] + [account];
      TallyStep(totals, active[..k], account, active[..k + 1], newTotal);
      totals := totals[account.currency := newTotal];
      k := k + 1;
    }
    assert active[..k] == active;
    SummaryMeaning(totals, accounts, userId);
  }

  lemma SummaryMeaning(totals: map<Currency, Cents>, accounts: seq<Account>, userId: UserId)
    requires Tallies(totals, FindByUserIdAndIsActiveTrue(accounts, userId))
    ensures forall c :: c in totals <==> exists a :: a in accounts && a.user == userId && IsTrue(a.isActive) && a.currency == c
    ensures forall c :: c in totals ==> totals[c] == CurrencyTotal(FindByUserIdAndIsActiveTrue(accounts, userId), c)
  {
    forall c ensures c in totals <==> exists a :: a in accounts && a.user == userId && IsTrue(a.isActive) && a.currency == c {
      CurrenciesOfMembership(FindByUserIdAndIsActiveTrue(accounts, userId), c);
    }
  }

  /** The per-currency totals of a list add up to the sum of all its balances. */
  lemma {:induction false} CurrencyTotalsAddUp(s: seq<Account>)
    ensures CurrencyTotal(s, USD) + CurrencyTotal(s, INR) + CurrencyTotal(s, EUR) + CurrencyTotal(s, GBP)
            + CurrencyTotal(s, JPY) + CurrencyTotal(s, CAD) + CurrencyTotal(s, AUD) + CurrencyTotal(s, CHF)
            == SumBalances(s)
  {
    if |s| > 0 {
      CurrencyTotalsAddUp(s[..|s| - 1]);
    }
  }

  /**
   * The summary and `getTotalBalanceByUserId` agree: the summary's totals, over
   * every currency, add up to the single (currency-blind) user total.
   */
  lemma SummaryAddsUpToUserTotal(accounts: seq<Account>, userId: UserId)
    ensures var active := FindByUserIdAndIsActiveTrue(accounts, userId);
            CurrencyTotal(active, USD) + CurrencyTotal(active, INR) + CurrencyTotal(active, EUR)
            + CurrencyTotal(active, GBP) + CurrencyTotal(active, JPY) + CurrencyTotal(active, CAD)
            + CurrencyTotal(active, AUD) + CurrencyTotal(active, CHF)
            == GetTotalBalanceByUserId(accounts, userId)
  {
    CurrencyTotalsAddUp(FindByUserIdAndIsActiveTrue(accounts, userId));
    TotalBalanceIsSumOfActive(accounts, userId);
  }

  // ---------------------------------------------------------------------------
  // updateBalance, deactivateAccount, verifyAccountOwnership
  // ---------------------------------------------------------------------------

  /** `updateBalance` on the table's value: a negative balance is refused unless the account is a credit card. */
  function BalanceUpdate(accounts: seq<Account>, accountId: AccountId, newBalance: Cents): (r: Result<seq<Account>, Error>)
    ensures FindById(accounts, accountId).None? <==> r == Failure(UnknownAccount)
    ensures r.Success? ==> |r.value| == |accounts|
  {
    match FindById(accounts, accountId)
    case None => Failure(UnknownAccount)
    case Some(i) =>
      if newBalance < 0 && accounts[i].accountType != CREDIT_CARD then Failure(NegativeBalance)
      else Success(accounts[i := accounts[i].(balance := newBalance)])
  }

  /** The balance write succeeds exactly when the account exists and the value is allowed, and it changes only that balance. */
  lemma BalanceUpdateOutcome(accounts: seq<Account>, i: nat, newBalance: Cents)
    requires UniqueIds(accounts, AccountKey) && i < |accounts|
    ensures var r := BalanceUpdate(accounts, accounts[i].id, newBalance);
            && (r.Success? <==> newBalance >= 0 || accounts[i].accountType == CREDIT_CARD)
            && (r.Failure? ==> r.error == NegativeBalance)
            && (r.Success? ==> r.value[i].balance == newBalance
                               && SumBalances(r.value) == SumBalances(accounts) - accounts[i].balance + newBalance
                               && forall k :: 0 <= k < |accounts| && k != i ==> r.value[k] == accounts[k])
  {
    IndexOfUnique(accounts, AccountKey, i);
    SumBalancesSet(accounts, i, newBalance);
  }

  /** Non-credit-card accounts stay non-negative through a balance write. */
  lemma BalanceUpdateKeepsNonCreditNonNegative(accounts: seq<Account>, accountId: AccountId, newBalance: Cents)
    requires forall k :: 0 <= k < |accounts| && accounts[k].accountType != CREDIT_CARD ==> accounts[k].balance >= 0
    requires BalanceUpdate(accounts, accountId, newBalance).Success?
    ensures var after := BalanceUpdate(accounts, accountId, newBalance).value;
            forall k :: 0 <= k < |after| && after[k].accountType != CREDIT_CARD ==> after[k].balance >= 0
  {
  }

  method UpdateBalance(db: Db, accountId: AccountId, newBalance: Cents) returns (r: Result<Account, Error>)
    requires db.Valid()
    modifies db`accounts
    ensures db.Valid()
    ensures var p := BalanceUpdate(old(db.accounts), accountId, newBalance);
            && (r.Success? <==> p.Success?)
            && (r.Failure? ==> r.error == p.error && db.accounts == old(db.accounts))
            && (r.Success? ==> db.accounts == p.value
                               && r.value == old(db.accounts)[FindById(old(db.accounts), accountId).value].(balance := newBalance))
  {
    var found := FindById(db.accounts, accountId);
    if found.None? {
      return Failure(UnknownAccount);
    }
    var account := db.accounts[found.value];
    if newBalance < 0 && account.accountType != CREDIT_CARD {
      return Failure(NegativeBalance);
    }
    var saved := account.(balance := newBalance);
    ReplaceSameId(db.accounts, AccountKey, db.nextAccountId, found.value, saved);
    db.accounts := db.accounts[found.value := saved];
    return Success(saved);
  }

  /** `deactivateAccount` on the table's value: only an account holding exactly zero may be deactivated. */
  function Deactivation(accounts: seq<Account>, accountId: AccountId): (r: Result<seq<Account>, Error>)
    ensures FindById(accounts, accountId).None? <==> r == Failure(UnknownAccount)
    ensures r.Success? ==> |r.value| == |accounts|
  {
    match FindById(accounts, accountId)
    case None => Failure(UnknownAccount)
    case Some(i) =>
      if accounts[i].balance != 0 then Failure(NonZeroBalance)
      else Success(accounts[i := accounts[i].(isActive := Some(false))])
  }

  /**
   * Deactivation succeeds exactly on a zero balance; it then turns only that account
   * inactive, so it leaves the active listing while the owner's total stays the same.
   */
  lemma DeactivationOutcome(accounts: seq<Account>, i: nat)
    requires UniqueIds(accounts, AccountKey) && i < |accounts|
    ensures var r := Deactivation(accounts, accounts[i].id);
            && (r.Success? <==> accounts[i].balance == 0)
            && (r.Failure? ==> r.error == NonZeroBalance)
            && (r.Success? ==>
                  && r.value[i] == accounts[i].(isActive := Some(false))
                  && (forall k :: 0 <= k < |accounts| && k != i ==> r.value[k] == accounts[k])
                  && r.value[i] !in FindByUserIdAndIsActiveTrue(r.value, accounts[i].user)
                  && GetTotalBalanceByUserId(r.value, accounts[i].user) == GetTotalBalanceByUserId(accounts, accounts[i].user))
  {
    IndexOfUnique(accounts, AccountKey, i);
    if accounts[i].balance == 0 {
      TotalBalanceDeactivateEmpty(accounts, i, accounts[i].user);
    }
  }

  method DeactivateAccount(db: Db, accountId: AccountId) returns (o: Outcome<Error>)
    requires db.Valid()
    modifies db`accounts
    ensures db.Valid()
    ensures var p := Deactivation(old(db.accounts), accountId);
            && (o.Pass? <==> p.Success?)
            && (o.Fail? ==> o.error == p.error && db.accounts == old(db.accounts))
            && (o.Pass? ==> db.accounts == p.value)
  {
    var found := FindById(db.accounts, accountId);
    if found.None? {
      return Fail(UnknownAccount);
    }
    var account := db.accounts[found.value];
    if account.balance != 0 {
      return Fail(NonZeroBalance);
    }
    var saved := account.(isActive := Some(false));
    ReplaceSameId(db.accounts, AccountKey, db.nextAccountId, found.value, saved);
    db.accounts := db.accounts[found.value := saved];
    return Pass;
  }

  /** `verifyAccountOwnership`: false for an unknown account, else whether its owner is `userId`. */
  function VerifyAccountOwnership(accounts: seq<Account>, accountId: AccountId, userId: UserId): (r: bool)
    ensures r ==> exists k :: 0 <= k < |accounts| && accounts[k].id == accountId && accounts[k].user == userId
    ensures UniqueIds(accounts, AccountKey) ==>
              (r <==> exists k :: 0 <= k < |accounts| && accounts[k].id == accountId && accounts[k].user == userId)
  {
    match FindById(accounts, accountId)
    case None => false
    case Some(i) => accounts[i].user == userId
  }
}
