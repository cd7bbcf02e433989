/**
 * The posting engine. `Posting` states, on the account table's value, what one
 * posting does; the methods below perform it step by step on the store the way
 * the service does (every check first, then the balance writes, then the save)
 * and are proved to agree with it. The lemmas state what a posting promises.
 */
module TransactionService {
  import opened Wrappers
  import opened Domain
  import opened Entities
  import opened Tables
  import opened Store
  import AccountRepository
  import TransactionRepository

  /** `validateAccountActive`: passes only when isActive is TRUE; false and null both fail. */
  function ValidateAccountActive(a: Account, side: Side): (o: Outcome<Error>)
    ensures o.Pass? <==> a.isActive == Some(true)
    ensures o.Fail? ==> o.error == AccountInactive(side)
  {
    if IsTrue(a.isActive) then Pass else Fail(AccountInactive(side))
  }

  /** `validateCurrencyMatch`. */
  function ValidateCurrencyMatch(txnCurrency: Currency, accountCurrency: Currency, side: Side): (o: Outcome<Error>)
    ensures o.Pass? <==> txnCurrency == accountCurrency
    ensures o.Fail? ==> o.error == CurrencyMismatch(side)
  {
    if txnCurrency == accountCurrency then Pass else Fail(CurrencyMismatch(side))
  }

  /** `account.setBalance(b)` followed by `accountRepository.save(account)`. */
  function SetBalance(accounts: seq<Account>, i: nat, b: Cents): seq<Account>
    requires i < |accounts|
  {
    accounts[i := accounts[i].(balance := b)]
  }

  /** processIncome on the table's value. */
  function PostIncome(accounts: seq<Account>, d: TransactionDraft): Result<seq<Account>, Error>
  {
    if d.toAccount.None? then Failure(MissingAccount(Destination))
    else
      match AccountRepository.FindById(accounts, d.toAccount.value)
      case None => Failure(AccountNotFound(Destination))
      case Some(i) =>
        if !IsTrue(accounts[i].isActive) then Failure(AccountInactive(Destination))
        else if d.currency != accounts[i].currency then Failure(CurrencyMismatch(Destination))
        else Success(SetBalance(accounts, i, accounts[i].balance + d.amount))
  }

  /** processExpense on the table's value; the funds check is skipped for "CREDIT" types. */
  function PostExpense(accounts: seq<Account>, d: TransactionDraft): Result<seq<Account>, Error>
  {
    if d.fromAccount.None? then Failure(MissingAccount(Source))
    else
      match AccountRepository.FindById(accounts, d.fromAccount.value)
      case None => Failure(AccountNotFound(Source))
      case Some(i) =>
        if !IsTrue(accounts[i].isActive) then Failure(AccountInactive(Source))
        else if d.currency != accounts[i].currency then Failure(CurrencyMismatch(Source))
        else if !IsCreditByName(accounts[i].accountType) && accounts[i].balance < d.amount then Failure(InsufficientFunds)
        else Success(SetBalance(accounts, i, accounts[i].balance - d.amount))
  }

  /** processTransfer on the table's value; the funds check applies to every type. */
  function PostTransfer(accounts: seq<Account>, d: TransactionDraft): Result<seq<Account>, Error>
  {
    if d.fromAccount.None? || d.toAccount.None? then Failure(MissingTransferAccounts)
    else if d.fromAccount.value == d.toAccount.value then Failure(SameAccountTransfer)
    else
      match AccountRepository.FindById(accounts, d.fromAccount.value)
      case None => Failure(AccountNotFound(Source))
      case Some(i) =>
        match AccountRepository.FindById(accounts, d.toAccount.value)
        case None => Failure(AccountNotFound(Destination))
        case Some(j) =>
          if !IsTrue(accounts[i].isActive) then Failure(AccountInactive(Source))
          else if !IsTrue(accounts[j].isActive) then Failure(AccountInactive(Destination))
          else if d.currency != accounts[i].currency then Failure(CurrencyMismatch(Source))
          else if d.currency != accounts[j].currency then Failure(CurrencyMismatch(Destination))
          else if accounts[i].currency != accounts[j].currency then Failure(CrossCurrencyTransfer)
          else if accounts[i].balance < d.amount then Failure(InsufficientFunds)
          else Success(SetBalance(SetBalance(accounts, i, accounts[i].balance - d.amount),
                                  j, accounts[j].balance + d.amount))
  }

  /** What `createTransaction` does to the account table: the new table, or the first failed check. */
  function Posting(accounts: seq<Account>, d: TransactionDraft): (r: Result<seq<Account>, Error>)
    ensures d.transactionType.None? ==> r == Failure(TransactionTypeRequired)
    ensures r.Success? ==> |r.value| == |accounts|
  {
    match d.transactionType
    case None => Failure(TransactionTypeRequired)
    case Some(INCOME) => PostIncome(accounts, d)
    case Some(EXPENSE) => PostExpense(accounts, d)
    case Some(TRANSFER) => PostTransfer(accounts, d)
  }

  /** The row `createTransaction` saves: the draft, with "now" as its date only when it had none. */
  function Record(d: TransactionDraft, id: TransactionId, now: Instant): (t: Transaction)
    requires d.transactionType.Some?
    ensures d.transactionDate.Some? ==> t.transactionDate == d.transactionDate.value
    ensures d.transactionDate.None? ==> t.transactionDate == now
    ensures t.id == id && t.amount == d.amount && t.currency == d.currency
    ensures Some(t.transactionType) == d.transactionType
    ensures t.fromAccount == d.fromAccount && t.toAccount == d.toAccount && t.category == d.category
  {
    Transaction(id, d.amount, d.currency, d.transactionType.value, d.description,
                d.transactionDate.GetOr(now), d.fromAccount, d.toAccount, d.category)
  }

  // ---------------------------------------------------------------------------
  // The service, step by step on the store.
  // ---------------------------------------------------------------------------

  /** `processIncome`: checks, then one balance write. */
  method ProcessIncome(db: Db, d: TransactionDraft) returns (o: Outcome<Error>)
    modifies db`accounts
    ensures var p := PostIncome(old(db.accounts), d);
            && (o.Pass? <==> p.Success?)
            && (o.Fail? ==> o.error == p.error && db.accounts == old(db.accounts))
            && (o.Pass? ==> db.accounts == p.value)
  {
    if d.toAccount.None? {
      return Fail(MissingAccount(Destination));
    }
    var found := AccountRepository.FindById(db.accounts, d.toAccount.value);
    if found.None? {
      return Fail(AccountNotFound(Destination));
    }
    var toAccount := db.accounts[found.value];
    o := ValidateAccountActive(toAccount, Destination);
    if o.Fail? {
      return;
    }
    o := ValidateCurrencyMatch(d.currency, toAccount.currency, Destination);
    if o.Fail? {
      return;
    }
    var oldBalance := toAccount.balance;
    var newBalance := oldBalance + d.amount;
    db.accounts := db.accounts[found.value := toAccount.(balance := newBalance)];
  }

  /** `processExpense`: checks, then one balance write. */
  method ProcessExpense(db: Db, d: TransactionDraft) returns (o: Outcome<Error>)
    modifies db`accounts
    ensures var p := PostExpense(old(db.accounts), d);
            && (o.Pass? <==> p.Success?)
            && (o.Fail? ==> o.error == p.error && db.accounts == old(db.accounts))
            && (o.Pass? ==> db.accounts == p.value)
  {
    if d.fromAccount.None? {
      return Fail(MissingAccount(Source));
    }
    var found := AccountRepository.FindById(db.accounts, d.fromAccount.value);
    if found.None? {
      return Fail(AccountNotFound(Source));
    }
    var fromAccount := db.accounts[found.value];
    o := ValidateAccountActive(fromAccount, Source);
    if o.Fail? {
      return;
    }
    o := ValidateCurrencyMatch(d.currency, fromAccount.currency, Source);
    if o.Fail? {
      return;
    }
    if !IsCreditByName(fromAccount.accountType) {
      if fromAccount.balance < d.amount {
        return Fail(InsufficientFunds);
      }
    }
    var oldBalance := fromAccount.balance;
    var newBalance := oldBalance - d.amount;
    db.accounts := db.accounts[found.value := fromAccount.(balance := newBalance)];
  }

  /** `processTransfer`: every check, then the debit and the credit. */
  method ProcessTransfer(db: Db, d: TransactionDraft) returns (o: Outcome<Error>)
    modifies db`accounts
    ensures var p := PostTransfer(old(db.accounts), d);
            && (o.Pass? <==> p.Success?)
            && (o.Fail? ==> o.error == p.error && db.accounts == old(db.accounts))
            && (o.Pass? ==> db.accounts == p.value)
  {
    if d.fromAccount.None? || d.toAccount.None? {
      return Fail(MissingTransferAccounts);
    }
    if d.fromAccount.value == d.toAccount.value {
      return Fail(SameAccountTransfer);
    }
    var fromIx := AccountRepository.FindById(db.accounts, d.fromAccount.value);
    if fromIx.None? {
      return Fail(AccountNotFound(Source));
    }
    var toIx := AccountRepository.FindById(db.accounts, d.toAccount.value);
    if toIx.None? {
      return Fail(AccountNotFound(Destination));
    }
    var fromAccount := db.accounts[fromIx.value];
    var toAccount := db.accounts[toIx.value];
    o := ValidateAccountActive(fromAccount, Source);
    if o.Fail? {
      return;
    }
    o := ValidateAccountActive(toAccount, Destination);
    if o.Fail? {
      return;
    }
    o := ValidateCurrencyMatch(d.currency, fromAccount.currency, Source);
    if o.Fail? {
      return;
    }
    o := ValidateCurrencyMatch(d.currency, toAccount.currency, Destination);
    if o.Fail? {
      return;
    }
    if fromAccount.currency != toAccount.currency {
      return Fail(CrossCurrencyTransfer);
    }
    if fromAccount.balance < d.amount {
      return Fail(InsufficientFunds);
    }
    var fromNew := fromAccount.balance - d.amount;
    var toNew := toAccount.balance + d.amount;
    db.accounts := db.accounts[fromIx.value := fromAccount.(balance := fromNew)];
    db.accounts := db.accounts[toIx.value := db.accounts[toIx.value].(balance := toNew)];
  }

  /** The switch of `createTransaction`: the posting its type selects, on the store. */
  method Dispatch(db: Db, d: TransactionDraft) returns (o: Outcome<Error>)
    requires d.transactionType.Some?
    modifies db`accounts
    ensures var p := Posting(old(db.accounts), d);
            && (o.Pass? <==> p.Success?)
            && (o.Fail? ==> o.error == p.error && db.accounts == old(db.accounts))
            && (o.Pass? ==> db.accounts == p.value)
  {
    match d.transactionType.value {
      case INCOME => o := ProcessIncome(db, d);
      case EXPENSE => o := ProcessExpense(db, d);
      case TRANSFER => o := ProcessTransfer(db, d);
    }
  }

  /**
   * `createTransaction`: rejects a missing type, dispatches, defaults the date,
   * and appends exactly one row. A rejected posting leaves every table as it was.
   */
  method CreateTransaction(db: Db, d: TransactionDraft, now: Instant) returns (r: Result<Transaction, Error>)
    requires db.Valid()
    modifies db`accounts, db`transactions, db`nextTransactionId
    ensures db.Valid()
    ensures var p := Posting(old(db.accounts), d);
            && (r.Success? <==> p.Success?)
            && (r.Failure? ==> r.error == p.error
                               && db.accounts == old(db.accounts)
                               && db.transactions == old(db.transactions)
                               && db.nextTransactionId == old(db.nextTransactionId))
            && (r.Success? ==> d.transactionType.Some?
                               && db.accounts == p.value
                               && r.value == Record(d, old(db.nextTransactionId), now)
                               && db.transactions == old(db.transactions) + [r.value]
                               && db.nextTransactionId == old(db.nextTransactionId) + 1)
  {
    if d.transactionType.None? {
      return Failure(TransactionTypeRequired);
    }
    var o := Dispatch(db, d);
    if o.Fail? {
      return Failure(o.error);
    }
    PostingKeepsKeys(old(db.accounts), d);
    AccountsValidKept(old(db.accounts), db.accounts, db.nextAccountId);
    var date := if d.transactionDate.None? then now else d.transactionDate.value;
    var saved := Transaction(db.nextTransactionId, d.amount, d.currency, d.transactionType.value,
                             d.description, date, d.fromAccount, d.toAccount, d.category);
    AppendFresh(db.transactions, TransactionKey, db.nextTransactionId, saved);
    db.transactions := db.transactions + [saved];
    db.nextTransactionId := db.nextTransactionId + 1;
    return Success(saved);
  }

  // ---------------------------------------------------------------------------
  // What a posting promises.
  // ---------------------------------------------------------------------------

  /** Two tables with the same rows except, possibly, for the balances. */
  ghost predicate SameExceptBalances(before: seq<Account>, after: seq<Account>)
  {
    |before| == |after| && forall k :: 0 <= k < |before| ==> after[k] == before[k].(balance := after[k].balance)
  }

  /** The row at `k` changed only if its account is one the draft names on the side its type uses. */
  ghost predicate TouchedOnly(before: seq<Account>, after: seq<Account>, d: TransactionDraft)
    requires |before| == |after|
  {
    forall k :: 0 <= k < |before| && after[k] != before[k] ==>
      match d.transactionType
      case Some(INCOME) => d.toAccount == Some(before[k].id)
      case Some(EXPENSE) => d.fromAccount == Some(before[k].id)
      case Some(TRANSFER) => d.fromAccount == Some(before[k].id) || d.toAccount == Some(before[k].id)
      case None => false
  }

  /** A posting changes balances only, so every table invariant on accounts survives it. */
  lemma PostingKeepsKeys(accounts: seq<Account>, d: TransactionDraft)
    requires Posting(accounts, d).Success?
    ensures SameExceptBalances(accounts, Posting(accounts, d).value)
  {
    match d.transactionType.value
    case INCOME =>
      var i := AccountRepository.FindById(accounts, d.toAccount.value).value;
      assert Posting(accounts, d).value == SetBalance(accounts, i, accounts[i].balance + d.amount);
    case EXPENSE =>
      var i := AccountRepository.FindById(accounts, d.fromAccount.value).value;
      assert Posting(accounts, d).value == SetBalance(accounts, i, accounts[i].balance - d.amount);
    case TRANSFER =>
      var i := AccountRepository.FindById(accounts, d.fromAccount.value).value;
      var j := AccountRepository.FindById(accounts, d.toAccount.value).value;
      var mid := SetBalance(accounts, i, accounts[i].balance - d.amount);
      assert Posting(accounts, d).value == SetBalance(mid, j, accounts[j].balance + d.amount);
      assert SameExceptBalances(accounts, mid);
  }

  lemma AccountsValidKept(before: seq<Account>, after: seq<Account>, next: int)
    requires AccountsValid(before, next) && SameExceptBalances(before, after)
    ensures AccountsValid(after, next)
  {
    assert forall k :: 0 <= k < |after| ==> (after[k].id == before[k].id && after[k].accountNumber == before[k].accountNumber);
  }

  /**
   * The net change of the sum of all balances that posting `amount` with this
   * type makes; a saved row has its type, a draft may lack one.
   */
  function NetChange(transactionType: Option<TransactionType>, amount: Amount): int
  {
    match transactionType
    case Some(INCOME) => amount
    case Some(EXPENSE) => -(amount as int)
    case _ => 0
  }

  /**
   * No drift: a successful posting moves the sum of all balances by exactly +amount
   * (income), -amount (expense) or 0 (transfer).
   */
  lemma PostingConservation(accounts: seq<Account>, d: TransactionDraft)
    requires Posting(accounts, d).Success?
    ensures AccountRepository.SumBalances(Posting(accounts, d).value)
            == AccountRepository.SumBalances(accounts) + NetChange(d.transactionType, d.amount)
  {
    match d.transactionType.value
    case INCOME =>
      var i := AccountRepository.FindById(accounts, d.toAccount.value).value;
      var b := accounts[i].balance + d.amount;
      assert Posting(accounts, d).value == SetBalance(accounts, i, b);
      AccountRepository.SumBalancesSet(accounts, i, b);
    case EXPENSE =>
      var i := AccountRepository.FindById(accounts, d.fromAccount.value).value;
      var b := accounts[i].balance - d.amount;
      assert Posting(accounts, d).value == SetBalance(accounts, i, b);
      AccountRepository.SumBalancesSet(accounts, i, b);
    case TRANSFER =>
      var i := AccountRepository.FindById(accounts, d.fromAccount.value).value;
      var j := AccountRepository.FindById(accounts, d.toAccount.value).value;
      var mid := SetBalance(accounts, i, accounts[i].balance - d.amount);
      assert Posting(accounts, d).value == SetBalance(mid, j, accounts[j].balance + d.amount);
      AccountRepository.SumBalancesSet(accounts, i, accounts[i].balance - d.amount);
      AccountRepository.SumBalancesSet(mid, j, accounts[j].balance + d.amount);
  }

  /** A successful posting changes no row except the accounts its type names. */
  lemma PostingTouchesOnlyNamedAccounts(accounts: seq<Account>, d: TransactionDraft)
    requires Posting(accounts, d).Success?
    ensures |Posting(accounts, d).value| == |accounts|
    ensures TouchedOnly(accounts, Posting(accounts, d).value, d)
  {
  }

  /** INCOME into the account at `i`: succeeds exactly when it is active and in the draft's currency, and then credits it. */
  lemma IncomeOutcome(accounts: seq<Account>, d: TransactionDraft, i: nat)
    requires UniqueIds(accounts, AccountKey) && i < |accounts|
    requires d.transactionType == Some(INCOME) && d.toAccount == Some(accounts[i].id)
    ensures !IsTrue(accounts[i].isActive) ==> Posting(accounts, d) == Failure(AccountInactive(Destination))
    ensures IsTrue(accounts[i].isActive) && d.currency != accounts[i].currency
            ==> Posting(accounts, d) == Failure(CurrencyMismatch(Destination))
    ensures Posting(accounts, d).Success? <==> IsTrue(accounts[i].isActive) && d.currency == accounts[i].currency
    ensures Posting(accounts, d).Success? ==>
              var after := Posting(accounts, d).value;
              && after[i].balance == accounts[i].balance + d.amount
              && SameExceptBalances(accounts, after)
              && forall k :: 0 <= k < |accounts| && k != i ==> after[k] == accounts[k]
  {
    IndexOfUnique(accounts, AccountKey, i);
  }

  /** INCOME without a destination, or naming an unknown one, fails before anything changes. */
  lemma IncomeMissingDestination(accounts: seq<Account>, d: TransactionDraft)
    requires d.transactionType == Some(INCOME)
    ensures d.toAccount.None? ==> Posting(accounts, d) == Failure(MissingAccount(Destination))
    ensures d.toAccount.Some? && (forall k :: 0 <= k < |accounts| ==> accounts[k].id != d.toAccount.value)
            ==> Posting(accounts, d) == Failure(AccountNotFound(Destination))
  {
  }

  /** EXPENSE without a source, or naming an unknown one, fails before anything changes. */
  lemma ExpenseMissingSource(accounts: seq<Account>, d: TransactionDraft)
    requires d.transactionType == Some(EXPENSE)
    ensures d.fromAccount.None? ==> Posting(accounts, d) == Failure(MissingAccount(Source))
    ensures d.fromAccount.Some? && (forall k :: 0 <= k < |accounts| ==> accounts[k].id != d.fromAccount.value)
            ==> Posting(accounts, d) == Failure(AccountNotFound(Source))
  {
  }

  /**
   * EXPENSE from the account at `i`: succeeds exactly when it is active, in the draft's
   * currency and, unless its type name contains "CREDIT", holds at least the amount;
   * then it is debited by the amount.
   */
  lemma ExpenseOutcome(accounts: seq<Account>, d: TransactionDraft, i: nat)
    requires UniqueIds(accounts, AccountKey) && i < |accounts|
    requires d.transactionType == Some(EXPENSE) && d.fromAccount == Some(accounts[i].id)
    ensures Posting(accounts, d).Success? <==>
              && IsTrue(accounts[i].isActive)
              && d.currency == accounts[i].currency
              && (IsCreditByName(accounts[i].accountType) || accounts[i].balance >= d.amount)
    ensures IsTrue(accounts[i].isActive) && d.currency == accounts[i].currency
            && !IsCreditByName(accounts[i].accountType) && accounts[i].balance < d.amount
            ==> Posting(accounts, d) == Failure(InsufficientFunds)
    ensures Posting(accounts, d).Success? ==>
              var after := Posting(accounts, d).value;
              && after[i].balance == accounts[i].balance - d.amount
              && SameExceptBalances(accounts, after)
              && forall k :: 0 <= k < |accounts| && k != i ==> after[k] == accounts[k]
  {
    IndexOfUnique(accounts, AccountKey, i);
  }

  /** Spending a non-credit account's whole balance is allowed and leaves exactly zero. */
  lemma ExpenseOfWholeBalance(accounts: seq<Account>, d: TransactionDraft, i: nat)
    requires UniqueIds(accounts, AccountKey) && i < |accounts|
    requires d.transactionType == Some(EXPENSE) && d.fromAccount == Some(accounts[i].id)
    requires IsTrue(accounts[i].isActive) && d.currency == accounts[i].currency
    requires accounts[i].balance == d.amount
    ensures Posting(accounts, d).Success? && Posting(accounts, d).value[i].balance == 0
  {
    ExpenseOutcome(accounts, d, i);
  }

  /** A credit card may be spent below zero. */
  lemma CreditCardMayGoNegative(accounts: seq<Account>, d: TransactionDraft, i: nat)
    requires UniqueIds(accounts, AccountKey) && i < |accounts|
    requires d.transactionType == Some(EXPENSE) && d.fromAccount == Some(accounts[i].id)
    requires IsTrue(accounts[i].isActive) && d.currency == accounts[i].currency
    requires accounts[i].accountType == CREDIT_CARD && accounts[i].balance < d.amount
    ensures Posting(accounts, d).Success? && Posting(accounts, d).value[i].balance < 0
  {
    CreditTestsAgree(CREDIT_CARD);
    ExpenseOutcome(accounts, d, i);
  }

  /**
   * TRANSFER from the account at `i` to the account at `j`: succeeds exactly when both
   * are active, both are in the draft's currency and the source holds at least the
   * amount (credit accounts included); then it debits one, credits the other by the
   * same amount, and their combined balance is unchanged.
   */
  lemma TransferOutcome(accounts: seq<Account>, d: TransactionDraft, i: nat, j: nat)
    requires UniqueIds(accounts, AccountKey) && i < |accounts| && j < |accounts| && i != j
    requires d.transactionType == Some(TRANSFER)
    requires d.fromAccount == Some(accounts[i].id) && d.toAccount == Some(accounts[j].id)
    ensures Posting(accounts, d).Success? <==>
              && IsTrue(accounts[i].isActive) && IsTrue(accounts[j].isActive)
              && d.currency == accounts[i].currency && d.currency == accounts[j].currency
              && accounts[i].balance >= d.amount
    ensures Posting(accounts, d).Success? ==>
              var after := Posting(accounts, d).value;
              && after[i].balance == accounts[i].balance - d.amount
              && after[j].balance == accounts[j].balance + d.amount
              && after[i].balance + after[j].balance == accounts[i].balance + accounts[j].balance
              && SameExceptBalances(accounts, after)
              && forall k :: 0 <= k < |accounts| && k != i && k != j ==> after[k] == accounts[k]
  {
    IndexOfUnique(accounts, AccountKey, i);
    IndexOfUnique(accounts, AccountKey, j);
  }

  /** A transfer naming the same account twice is refused, before either account is even looked up. */
  lemma TransferToSelfRejected(accounts: seq<Account>, d: TransactionDraft)
    requires d.transactionType == Some(TRANSFER) && d.fromAccount.Some? && d.fromAccount == d.toAccount
    ensures Posting(accounts, d) == Failure(SameAccountTransfer)
  {
  }

  /** A transfer naming an unknown account is refused, the source being looked up first. */
  lemma TransferUnknownAccountRejected(accounts: seq<Account>, d: TransactionDraft)
    requires d.transactionType == Some(TRANSFER) && d.fromAccount.Some? && d.toAccount.Some?
    requires d.fromAccount != d.toAccount
    ensures (forall k :: 0 <= k < |accounts| ==> accounts[k].id != d.fromAccount.value)
            ==> Posting(accounts, d) == Failure(AccountNotFound(Source))
    ensures (exists k :: 0 <= k < |accounts| && accounts[k].id == d.fromAccount.value)
            && (forall k :: 0 <= k < |accounts| ==> accounts[k].id != d.toAccount.value)
            ==> Posting(accounts, d) == Failure(AccountNotFound(Destination))
  {
  }

  /** A transfer missing either side is refused. */
  lemma TransferMissingSideRejected(accounts: seq<Account>, d: TransactionDraft)
    requires d.transactionType == Some(TRANSFER) && (d.fromAccount.None? || d.toAccount.None?)
    ensures Posting(accounts, d) == Failure(MissingTransferAccounts)
  {
  }

  /** A transfer between accounts of different currencies fails whatever the amount and balances. */
  lemma CrossCurrencyTransferRejected(accounts: seq<Account>, d: TransactionDraft, i: nat, j: nat)
    requires UniqueIds(accounts, AccountKey) && i < |accounts| && j < |accounts|
    requires d.transactionType == Some(TRANSFER)
    requires d.fromAccount == Some(accounts[i].id) && d.toAccount == Some(accounts[j].id)
    requires accounts[i].currency != accounts[j].currency
    ensures Posting(accounts, d).Failure?
  {
    if i != j {
      TransferOutcome(accounts, d, i, j);
    }
  }

  /** Non-credit accounts never hold a negative balance (credit cards may). */
  ghost predicate NonCreditNonNegative(accounts: seq<Account>)
  {
    forall k :: 0 <= k < |accounts| && !IsCreditCard(accounts[k].accountType) ==> accounts[k].balance >= 0
  }

  /** Posting keeps every non-credit balance non-negative. */
  lemma PostingKeepsNonCreditNonNegative(accounts: seq<Account>, d: TransactionDraft)
    requires NonCreditNonNegative(accounts) && Posting(accounts, d).Success?
    ensures NonCreditNonNegative(Posting(accounts, d).value)
  {
    match d.transactionType.value
    case INCOME =>
      var i := AccountRepository.FindById(accounts, d.toAccount.value).value;
      var b := accounts[i].balance + d.amount;
      assert Posting(accounts, d).value == SetBalance(accounts, i, b);
      SetBalanceKeepsNonCreditNonNegative(accounts, i, b);
    case EXPENSE =>
      var i := AccountRepository.FindById(accounts, d.fromAccount.value).value;
      var b := accounts[i].balance - d.amount;
      assert Posting(accounts, d).value == SetBalance(accounts, i, b);
      CreditTestsAgree(accounts[i].accountType);
      SetBalanceKeepsNonCreditNonNegative(accounts, i, b);
    case TRANSFER =>
      var i := AccountRepository.FindById(accounts, d.fromAccount.value).value;
      var j := AccountRepository.FindById(accounts, d.toAccount.value).value;
      var mid := SetBalance(accounts, i, accounts[i].balance - d.amount);
      assert Posting(accounts, d).value == SetBalance(mid, j, accounts[j].balance + d.amount);
      SetBalanceKeepsNonCreditNonNegative(accounts, i, accounts[i].balance - d.amount);
      SetBalanceKeepsNonCreditNonNegative(mid, j, accounts[j].balance + d.amount);
  }

  /** Writing a non-negative balance, or any balance of a credit card, keeps the invariant. */
  lemma SetBalanceKeepsNonCreditNonNegative(accounts: seq<Account>, i: nat, b: Cents)
    requires NonCreditNonNegative(accounts) && i < |accounts|
    requires b >= 0 || IsCreditCard(accounts[i].accountType)
    ensures NonCreditNonNegative(SetBalance(accounts, i, b))
  {
  }

  /** A successful transfer between the accounts at `i` and `j`: both active, one debit, one credit. */
  lemma TransferValue(accounts: seq<Account>, d: TransactionDraft, i: nat, j: nat)
    requires UniqueIds(accounts, AccountKey) && i < |accounts| && j < |accounts| && i != j
    requires d.transactionType == Some(TRANSFER)
    requires d.fromAccount == Some(accounts[i].id) && d.toAccount == Some(accounts[j].id)
    requires Posting(accounts, d).Success?
    ensures IsTrue(accounts[i].isActive) && IsTrue(accounts[j].isActive)
    ensures Posting(accounts, d).value
            == SetBalance(SetBalance(accounts, i, accounts[i].balance - d.amount), j, accounts[j].balance + d.amount)
  {
    IndexOfUnique(accounts, AccountKey, i);
    IndexOfUnique(accounts, AccountKey, j);
    assert Posting(accounts, d) == PostTransfer(accounts, d);
  }

  /** A transfer between two accounts of one user leaves that user's total unchanged. */
  lemma TransferKeepsOwnerTotal(accounts: seq<Account>, d: TransactionDraft, i: nat, j: nat, userId: UserId)
    requires UniqueIds(accounts, AccountKey) && i < |accounts| && j < |accounts| && i != j
    requires d.transactionType == Some(TRANSFER)
    requires d.fromAccount == Some(accounts[i].id) && d.toAccount == Some(accounts[j].id)
    requires accounts[i].user == userId && accounts[j].user == userId
    requires Posting(accounts, d).Success?
    ensures AccountRepository.GetTotalBalanceByUserId(Posting(accounts, d).value, userId)
            == AccountRepository.GetTotalBalanceByUserId(accounts, userId)
  {
    TransferValue(accounts, d, i, j);
    MoveKeepsOwnerTotal(accounts, i, j, d.amount, userId);
  }

  /** Moving money between two active accounts of one user leaves that user's total unchanged. */
  lemma MoveKeepsOwnerTotal(accounts: seq<Account>, i: nat, j: nat, amount: Cents, userId: UserId)
    requires i < |accounts| && j < |accounts| && i != j
    requires accounts[i].user == userId && accounts[j].user == userId
    requires IsTrue(accounts[i].isActive) && IsTrue(accounts[j].isActive)
    ensures AccountRepository.GetTotalBalanceByUserId(
              SetBalance(SetBalance(accounts, i, accounts[i].balance - amount), j, accounts[j].balance + amount), userId)
            == AccountRepository.GetTotalBalanceByUserId(accounts, userId)
  {
    var mid := SetBalance(accounts, i, accounts[i].balance - amount);
    AccountRepository.TotalBalanceSet(accounts, i, accounts[i].balance - amount, userId);
    AccountRepository.TotalBalanceSet(mid, j, accounts[j].balance + amount, userId);
  }

  /** Income into an active account of a user raises that user's total by exactly the amount. */
  lemma IncomeRaisesOwnerTotal(accounts: seq<Account>, d: TransactionDraft, i: nat, userId: UserId)
    requires UniqueIds(accounts, AccountKey) && i < |accounts| && accounts[i].user == userId
    requires d.transactionType == Some(INCOME) && d.toAccount == Some(accounts[i].id)
    requires Posting(accounts, d).Success?
    ensures AccountRepository.GetTotalBalanceByUserId(Posting(accounts, d).value, userId)
            == AccountRepository.GetTotalBalanceByUserId(accounts, userId) + d.amount
  {
    IndexOfUnique(accounts, AccountKey, i);
    var b := accounts[i].balance + d.amount;
    assert IsTrue(accounts[i].isActive);
    assert Posting(accounts, d).value == SetBalance(accounts, i, b);
    AccountRepository.TotalBalanceSet(accounts, i, b, userId);
  }

  /**
   * The row `createTransaction` appends (its `Record`, the next id, the table grown by one)
   * raises a category's expense report by its amount exactly when it is an EXPENSE of that
   * category dated within the range, and leaves the report unchanged otherwise.
   */
  lemma RecordedExpenseSum(txs: seq<Transaction>, d: TransactionDraft, id: TransactionId, now: Instant,
                           categoryId: CategoryId, start: Instant, end: Instant)
    requires d.transactionType.Some?
    ensures var date := d.transactionDate.GetOr(now);
            TransactionRepository.SumExpensesByCategoryAndDateRange(txs + [Record(d, id, now)], categoryId, start, end)
            == TransactionRepository.SumExpensesByCategoryAndDateRange(txs, categoryId, start, end)
               + (if d.transactionType == Some(EXPENSE) && d.category == Some(categoryId) && start <= date <= end
                  then d.amount else 0)
  {
    var t := Record(d, id, now);
    TransactionRepository.SumExpensesConcat(txs, [t], categoryId, start, end);
    assert [t][..0] == [];
  }

  /**
   * The row `createTransaction` appends joins, at the end, the account listing of exactly
   * the draft's source and destination accounts; every other listing is unchanged.
   */
  lemma RecordedInAccountListings(txs: seq<Transaction>, d: TransactionDraft, id: TransactionId, now: Instant,
                                  accountId: AccountId)
    requires d.transactionType.Some?
    ensures TransactionRepository.FindByAccountId(txs + [Record(d, id, now)], accountId)
            == TransactionRepository.FindByAccountId(txs, accountId)
               + (if d.fromAccount == Some(accountId) || d.toAccount == Some(accountId) then [Record(d, id, now)] else [])
  {
    var t := Record(d, id, now);
    TransactionRepository.FindByAccountIdConcat(txs, [t], accountId);
    assert [t][..0] == [];
  }
}
