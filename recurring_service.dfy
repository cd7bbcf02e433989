/**
 * Recurring rules: creation, the scheduler run that posts every due rule and
 * reschedules it, and the edits. `RunRule` and `RunBatch` state on values what one
 * rule's run and a whole scheduler run do; the methods are proved equal to them.
 */
module RecurringService {
  import opened Wrappers
  import opened Domain
  import opened Dates
  import opened Frequency
  import opened Entities
  import opened Tables
  import opened Store
  import AccountRepository
  import RecurringTransactionRepository
  import TransactionService
  import AccountService

  // ---------------------------------------------------------------------------
  // createRecurringTransaction
  // ---------------------------------------------------------------------------

  /** What every stored rule satisfies: its next run is never before its start. */
  ghost predicate RuleWellFormed(r: RecurringTransaction)
  {
    OnOrBefore(r.startDate, r.nextRunDate)
  }

  /** A past start date is moved to today. */
  function ClampedStart(start: CalendarDate, today: CalendarDate): CalendarDate
  {
    if Before(start, today) then today else start
  }

  /** `createRecurringTransaction` on the tables' values: the row it saves, or the first failed check. */
  function RuleCreation(users: seq<User>, accounts: seq<Account>, userId: UserId, draft: RuleDraft,
                        today: CalendarDate, id: RuleId): (r: Result<RecurringTransaction, Error>)
  {
    if IndexOf(users, UserKey, userId).None? then Failure(UserNotFound)
    else
      match AccountRepository.FindById(accounts, draft.account)
      case None => Failure(UnknownAccount)
      case Some(i) =>
        if accounts[i].user != userId then Failure(AccountNotOwned)
        else
          var start := ClampedStart(draft.startDate, today);
          if draft.endDate.Some? && Before(draft.endDate.value, start) then Failure(EndBeforeStart)
          else Success(RecurringTransaction(id, draft.description, draft.amount, draft.currency,
                                            draft.transactionType, draft.frequency, start, draft.endDate,
                                            start,
                                            if draft.isActive.None? then Some(true) else draft.isActive,
                                            draft.account, draft.category, userId))
  }

  /**
   * The checks in order (unknown user, unknown account, someone else's account,
   * end before the clamped start); a request passing all four is created, and a
   * created rule starts today or later, its first run is its start, it ends no
   * earlier than it starts, and
   * isActive defaults to true only when absent.
   */
  lemma RuleCreationOutcome(users: seq<User>, accounts: seq<Account>, userId: UserId, draft: RuleDraft,
                            today: CalendarDate, id: RuleId)
    ensures var r := RuleCreation(users, accounts, userId, draft, today, id);
            && ((forall k :: 0 <= k < |users| ==> users[k].id != userId) ==> r == Failure(UserNotFound))
            && (((exists k :: 0 <= k < |users| && users[k].id == userId)
                 && (forall k :: 0 <= k < |accounts| ==> accounts[k].id != draft.account))
                ==> r == Failure(UnknownAccount))
            && ((&& IndexOf(users, UserKey, userId).Some?
                 && AccountRepository.FindById(accounts, draft.account).Some?
                 && accounts[AccountRepository.FindById(accounts, draft.account).value].user != userId)
                ==> r == Failure(AccountNotOwned))
            && (r.Success? <==>
                  && IndexOf(users, UserKey, userId).Some?
                  && AccountService.VerifyAccountOwnership(accounts, draft.account, userId)
                  && !(draft.endDate.Some? && Before(draft.endDate.value, ClampedStart(draft.startDate, today))))
            && (r.Failure? && r.error == EndBeforeStart <==>
                  && IndexOf(users, UserKey, userId).Some?
                  && AccountService.VerifyAccountOwnership(accounts, draft.account, userId)
                  && draft.endDate.Some? && Before(draft.endDate.value, ClampedStart(draft.startDate, today)))
            && (r.Success? ==>
                  && OnOrBefore(today, r.value.startDate)
                  && OnOrBefore(draft.startDate, r.value.startDate)
                  && r.value.nextRunDate == r.value.startDate
                  && RuleWellFormed(r.value)
                  && (r.value.endDate.Some? ==> OnOrBefore(r.value.startDate, r.value.endDate.value))
                  && (draft.isActive.None? ==> r.value.isActive == Some(true))
                  && (draft.isActive.Some? ==> r.value.isActive == draft.isActive)
                  && r.value.id == id && r.value.user == userId && r.value.account == draft.account
                  && AccountService.VerifyAccountOwnership(accounts, draft.account, userId))
  {
  }

  method CreateRecurringTransaction(db: Db, userId: UserId, draft: RuleDraft, today: CalendarDate)
    returns (r: Result<RecurringTransaction, Error>)
    requires db.Valid()
    modifies db`rules, db`nextRuleId
    ensures db.Valid()
    ensures r == RuleCreation(db.users, db.accounts, userId, draft, today, old(db.nextRuleId))
    ensures r.Failure? ==> db.rules == old(db.rules) && db.nextRuleId == old(db.nextRuleId)
    ensures r.Success? ==> db.rules == old(db.rules) + [r.value] && db.nextRuleId == old(db.nextRuleId) + 1
  {
    var user := IndexOf(db.users, UserKey, userId);
    if user.None? {
      return Failure(UserNotFound);
    }
    var account := AccountRepository.FindById(db.accounts, draft.account);
    if account.None? {
      return Failure(UnknownAccount);
    }
    if db.accounts[account.value].user != userId {
      return Failure(AccountNotOwned);
    }
    var startDate := draft.startDate;
    if Before(startDate, today) {
      startDate := today;
    }
    if draft.endDate.Some? && Before(draft.endDate.value, startDate) {
      return Failure(EndBeforeStart);
    }
    var isActive := draft.isActive;
    if isActive.None? {
      isActive := Some(true);
    }
    var saved := RecurringTransaction(db.nextRuleId, draft.description, draft.amount, draft.currency,
                                      draft.transactionType, draft.frequency, startDate, draft.endDate,
                                      startDate, isActive, draft.account, draft.category, userId);
    AppendFresh(db.rules, RuleKey, db.nextRuleId, saved);
    db.rules := db.rules + [saved];
    db.nextRuleId := db.nextRuleId + 1;
    return Success(saved);
  }

  // ---------------------------------------------------------------------------
  // One rule's run
  // ---------------------------------------------------------------------------

  const RecurringSuffix: string := " (Recurring)"

  /**
   * The posting a rule asks for: the rule's amount, currency, type and category,
   * its description with " (Recurring)" appended, dated `now`; INCOME names the
   * rule's account as destination, EXPENSE as source. Other types ask for nothing.
   */
  function RunDraft(r: RecurringTransaction, now: Instant): Option<TransactionDraft>
  {
    match r.transactionType
    case INCOME =>
      Some(TransactionDraft(r.amount, r.currency, Some(INCOME), Some(r.description + RecurringSuffix),
                            Some(now), None, Some(r.account), r.category))
    case EXPENSE =>
      Some(TransactionDraft(r.amount, r.currency, Some(EXPENSE), Some(r.description + RecurringSuffix),
                            Some(now), Some(r.account), None, r.category))
    case TRANSFER => None
  }

  /** The rule after a successful post: next run one period after the old one, deactivated once past its end date. */
  function Advance(r: RecurringTransaction): RecurringTransaction
  {
    var next := NextDate(r.frequency, r.nextRunDate);
    r.(nextRunDate := next,
       isActive := if r.endDate.Some? && Before(r.endDate.value, next) then Some(false) else r.isActive)
  }

  /** The tables a scheduler run touches, as one value. */
  datatype Books = Books(
    accounts: seq<Account>,
    transactions: seq<Transaction>,
    nextTransactionId: int,
    rules: seq<RecurringTransaction>)

  function BooksOf(db: Db): Books
    reads db
  {
    Books(db.accounts, db.transactions, db.nextTransactionId, db.rules)
  }

  /** What became of one due rule. */
  datatype RunOutcome = Posted(transaction: Transaction) | Skipped | Failed(error: Error)

  /** `recurringRepository.save(recurring)`: the rule's row takes the rescheduled value. */
  function Reschedule(rules: seq<RecurringTransaction>, advanced: RecurringTransaction): seq<RecurringTransaction>
  {
    match IndexOf(rules, RuleKey, advanced.id)
    case None => rules
    case Some(i) => rules[i := advanced]
  }

  /** `processRecurringTransaction` on the books' value, with a thrown exception as `Failed`. */
  function RunRule(b: Books, r: RecurringTransaction, now: Instant): (RunOutcome, Books)
  {
    match RunDraft(r, now)
    case None => (Skipped, b)
    case Some(d) =>
      match TransactionService.Posting(b.accounts, d)
      case Failure(e) => (Failed(e), b)
      case Success(accounts) =>
        var t := TransactionService.Record(d, b.nextTransactionId, now);
        (Posted(t), Books(accounts, b.transactions + [t], b.nextTransactionId + 1, Reschedule(b.rules, Advance(r))))
  }

  /** The scheduler's loop on the books' value: each rule in turn, a failure not stopping the rest. */
  function RunBatch(b: Books, due: seq<RecurringTransaction>, now: Instant): (seq<RunOutcome>, Books)
    decreases |due|
  {
    if |due| == 0 then ([], b)
    else
      var (o, b1) := RunRule(b, due[0], now);
      var (os, b2) := RunBatch(b1, due[1..], now);
      ([o] + os, b2)
  }

  method ProcessRecurringTransaction(db: Db, r: RecurringTransaction, now: Instant) returns (o: RunOutcome)
    requires db.Valid()
    modifies db`accounts, db`transactions, db`nextTransactionId, db`rules
    ensures db.Valid()
    ensures (o, BooksOf(db)) == RunRule(old(BooksOf(db)), r, now)
  {
    ghost var b0 := BooksOf(db);
    var draft := RunDraft(r, now);
    if draft.None? {
      return Skipped;
    }
    var posted := TransactionService.CreateTransaction(db, draft.value, now);
    if posted.Failure? {
      RunRuleFailed(b0, r, now, draft.value, posted.error);
      return Failed(posted.error);
    }
    ghost var accounts := db.accounts;
    AdvanceRule(db, r);
    o := Posted(posted.value);
    RunRulePosted(b0, r, now, draft.value, accounts, posted.value, BooksOf(db));
  }

  lemma RunRuleFailed(b: Books, r: RecurringTransaction, now: Instant, d: TransactionDraft, e: Error)
    requires RunDraft(r, now) == Some(d) && TransactionService.Posting(b.accounts, d) == Failure(e)
    ensures RunRule(b, r, now) == (Failed(e), b)
  {
  }

  lemma RunRulePosted(b: Books, r: RecurringTransaction, now: Instant, d: TransactionDraft,
                      accounts: seq<Account>, t: Transaction, b1: Books)
    requires RunDraft(r, now) == Some(d) && TransactionService.Posting(b.accounts, d) == Success(accounts)
    requires t == TransactionService.Record(d, b.nextTransactionId, now)
    requires b1 == Books(accounts, b.transactions + [t], b.nextTransactionId + 1, Reschedule(b.rules, Advance(r)))
    ensures RunRule(b, r, now) == (Posted(t), b1)
  {
  }

  /** The rescheduling step of `processRecurringTransaction`: the next run moves on, past the end date the rule is deactivated, and it is saved. */
  method AdvanceRule(db: Db, r: RecurringTransaction)
    requires db.Valid()
    modifies db`rules
    ensures db.Valid()
    ensures db.rules == Reschedule(old(db.rules), Advance(r))
  {
    var nextRun := NextDate(r.frequency, r.nextRunDate);
    var recurring := r.(nextRunDate := nextRun);
    if r.endDate.Some? && Before(r.endDate.value, nextRun) {
      recurring := recurring.(isActive := Some(false));
    }
    SaveRule(db, recurring);
  }

  /** `recurringRepository.save` of an existing rule: its row takes the new value. */
  method SaveRule(db: Db, recurring: RecurringTransaction)
    requires RulesValid(db.rules, db.nextRuleId)
    modifies db`rules
    ensures RulesValid(db.rules, db.nextRuleId)
    ensures db.rules == Reschedule(old(db.rules), recurring)
  {
    var ix := IndexOf(db.rules, RuleKey, recurring.id);
    if ix.Some? {
      ReplaceSameId(db.rules, RuleKey, db.nextRuleId, ix.value, recurring);
      db.rules := db.rules[ix.value := recurring];
    }
  }

  /** `processDueRecurringTransactions`: the due rules of `today`, each run in the order the due query lists them. */
  method ProcessDueRecurringTransactions(db: Db, today: CalendarDate, now: Instant) returns (outcomes: seq<RunOutcome>)
    requires db.Valid()
    modifies db`accounts, db`transactions, db`nextTransactionId, db`rules
    ensures db.Valid()
    ensures (outcomes, BooksOf(db))
            == RunBatch(old(BooksOf(db)), RecurringTransactionRepository.FindDueRecurringTransactions(old(db.rules), today), now)
  {
    var due := RecurringTransactionRepository.FindDueRecurringTransactions(db.rules, today);
    ghost var full := RunBatch(BooksOf(db), due, now);
    outcomes := [];
    var i := 0;
    assert due[i..] == due;
    assert outcomes + full.0 == full.0;
    while i < |due|
      invariant 0 <= i <= |due| && db.Valid()
      invariant outcomes + RunBatch(BooksOf(db), due[i..], now).0 == full.0
      invariant RunBatch(BooksOf(db), due[i..], now).1 == full.1
    {
      ghost var before := BooksOf(db);
      var o := ProcessRecurringTransaction(db, due[i], now);
      RunBatchStep(before, due, i, now);
      ghost var rest := RunBatch(BooksOf(db), due[i + 1..], now);
      AppendAssoc(outcomes, [o], rest.0);
      outcomes := outcomes + [o];
      i := i + 1;
    }
    assert due[i..] == [];
    assert outcomes + [] == outcomes;
  }

  /** One step of the scheduler loop: the batch from `i` is the run of rule `i`, then the batch from `i + 1`. */
  lemma RunBatchStep(b: Books, due: seq<RecurringTransaction>, i: nat, now: Instant)
    requires i < |due|
    ensures var (o, b1) := RunRule(b, due[i], now);
            RunBatch(b, due[i..], now) == ([o] + RunBatch(b1, due[i + 1..], now).0, RunBatch(b1, due[i + 1..], now).1)
  {
    assert due[i..][0] == due[i] && due[i..][1..] == due[i + 1..];
  }

  // ---------------------------------------------------------------------------
  // What one run promises
  // ---------------------------------------------------------------------------

  /** Rescheduling moves the next run strictly later, keeps it on or after the start, and changes nothing but nextRunDate and isActive. */
  lemma AdvanceMovesForward(r: RecurringTransaction)
    requires RuleWellFormed(r)
    ensures Before(r.nextRunDate, Advance(r).nextRunDate)
    ensures Advance(r).nextRunDate == NextDate(r.frequency, r.nextRunDate)
    ensures RuleWellFormed(Advance(r))
    ensures Advance(r).(nextRunDate := r.nextRunDate, isActive := r.isActive) == r
  {
    NextDateAfter(r.frequency, r.nextRunDate);
    if r.startDate != r.nextRunDate {
      BeforeTransitive(r.startDate, r.nextRunDate, Advance(r).nextRunDate);
    }
  }

  /** A rule is deactivated by its run exactly when its new next run falls after its end date; an inactive rule stays inactive. */
  lemma AdvanceDeactivatesPastEnd(r: RecurringTransaction)
    ensures r.endDate.Some? && Before(r.endDate.value, Advance(r).nextRunDate) ==> Advance(r).isActive == Some(false)
    ensures !(r.endDate.Some? && Before(r.endDate.value, Advance(r).nextRunDate)) ==> Advance(r).isActive == r.isActive
    ensures !IsTrue(r.isActive) ==> !IsTrue(Advance(r).isActive)
  {
  }

  /** A rule due on exactly its next run date is no longer due that day once it has run. */
  lemma RunOnceADay(r: RecurringTransaction, today: CalendarDate)
    requires r.nextRunDate == today
    ensures !RecurringTransactionRepository.IsDue(Advance(r), today)
  {
    NextDateAfter(r.frequency, r.nextRunDate);
  }

  /** Rescheduling measures from the old next run, not from today: an overdue daily rule, once run, can still be due. */
  lemma OverdueRuleCatchesUpOneStep(r: RecurringTransaction)
    requires r.frequency == DAILY && r.nextRunDate == Date(2024, 1, 1) && r.endDate.None? && r.isActive == Some(true)
    ensures Advance(r).nextRunDate == Date(2024, 1, 2)
    ensures RecurringTransactionRepository.IsDue(Advance(r), Date(2024, 1, 5))
  {
    DailyRolloverExample();
  }

  /** A monthly rule on 2024-01-15 next runs on 2024-02-15, and one that ends on 2024-03-01 is deactivated by its February run. */
  lemma MonthlyRunExample(r: RecurringTransaction)
    requires r.frequency == MONTHLY && r.nextRunDate == Date(2024, 2, 15) && r.endDate == Some(Date(2024, 3, 1))
    requires r.isActive == Some(true)
    ensures Advance(r).nextRunDate == Date(2024, 3, 15)
    ensures Advance(r).isActive == Some(false)
    ensures !RecurringTransactionRepository.IsDue(Advance(r), Date(2024, 3, 15))
  {
  }

  /** An INCOME rule credits its account and an EXPENSE rule debits it, by the rule's amount, under the posting engine's checks. */
  lemma RunDraftPostsToRuleAccount(accounts: seq<Account>, r: RecurringTransaction, now: Instant, i: nat)
    requires UniqueIds(accounts, AccountKey) && i < |accounts| && accounts[i].id == r.account
    requires r.transactionType != TRANSFER
    ensures RunDraft(r, now).Some?
    ensures var p := TransactionService.Posting(accounts, RunDraft(r, now).value);
            && (r.transactionType == INCOME ==>
                  (p.Success? <==> IsTrue(accounts[i].isActive) && r.currency == accounts[i].currency)
                  && (p.Success? ==> p.value[i].balance == accounts[i].balance + r.amount))
            && (r.transactionType == EXPENSE ==>
                  (p.Success? <==> IsTrue(accounts[i].isActive) && r.currency == accounts[i].currency
                                   && (IsCreditByName(accounts[i].accountType) || accounts[i].balance >= r.amount))
                  && (p.Success? ==> p.value[i].balance == accounts[i].balance - r.amount))
  {
    var d := RunDraft(r, now).value;
    if r.transactionType == INCOME {
      TransactionService.IncomeOutcome(accounts, d, i);
    } else {
      TransactionService.ExpenseOutcome(accounts, d, i);
    }
  }

  /** A TRANSFER rule is skipped: nothing is posted or saved, so it stays due. */
  lemma TransferRuleSkipped(b: Books, r: RecurringTransaction, now: Instant)
    requires r.transactionType == TRANSFER
    ensures RunRule(b, r, now) == (Skipped, b)
  {
  }

  /**
   * A run either fails or is skipped and leaves the books exactly as they were, or
   * posts: it saves one row described "<rule> (Recurring)", moves the balances as
   * the posting engine does, and reschedules only the rule's row.
   */
  lemma RunRuleOutcome(b: Books, r: RecurringTransaction, now: Instant)
    requires UniqueIds(b.rules, RuleKey)
    ensures var (o, b1) := RunRule(b, r, now);
            && (!o.Posted? ==> b1 == b)
            && (o.Failed? ==> TransactionService.Posting(b.accounts, RunDraft(r, now).value) == Failure(o.error))
            && (o.Posted? ==>
                  && r.transactionType != TRANSFER
                  && o.transaction.id == b.nextTransactionId
                  && o.transaction.amount == r.amount && o.transaction.currency == r.currency
                  && o.transaction.transactionType == r.transactionType
                  && o.transaction.description == Some(r.description + RecurringSuffix)
                  && o.transaction.transactionDate == now
                  && b1.transactions == b.transactions + [o.transaction]
                  && b1.nextTransactionId == b.nextTransactionId + 1
                  && AccountRepository.SumBalances(b1.accounts)
                     == AccountRepository.SumBalances(b.accounts) + RowNetChange(o.transaction)
                  && |b1.rules| == |b.rules|
                  && forall k :: 0 <= k < |b.rules| ==>
                       b1.rules[k] == (if b.rules[k].id == r.id then Advance(r) else b.rules[k]))
  {
    var (o, b1) := RunRule(b, r, now);
    if o.Posted? {
      var d := RunDraft(r, now).value;
      TransactionService.PostingConservation(b.accounts, d);
      RescheduleOnlyTouchesItsRow(b.rules, Advance(r));
    }
  }

  /** The net effect on the sum of all balances of a posted row: its type and amount as a posting's. */
  function RowNetChange(t: Transaction): int
  {
    TransactionService.NetChange(Some(t.transactionType), t.amount)
  }

  lemma RescheduleOnlyTouchesItsRow(rules: seq<RecurringTransaction>, advanced: RecurringTransaction)
    requires UniqueIds(rules, RuleKey)
    ensures |Reschedule(rules, advanced)| == |rules|
    ensures forall k :: 0 <= k < |rules| ==>
              Reschedule(rules, advanced)[k] == (if rules[k].id == advanced.id then advanced else rules[k])
  {
    forall k | 0 <= k < |rules| && rules[k].id == advanced.id
      ensures Reschedule(rules, advanced)[k] == advanced
    {
      IndexOfUnique(rules, RuleKey, k);
    }
  }

  // ---------------------------------------------------------------------------
  // What a whole scheduler run promises
  // ---------------------------------------------------------------------------

  /** The rows the posted outcomes saved, in order. */
  function PostedRows(os: seq<RunOutcome>): seq<Transaction>
  {
    if |os| == 0 then []
    else (if os[0].Posted? then [os[0].transaction] else []) + PostedRows(os[1..])
  }

  function SumNetChange(ts: seq<Transaction>): int
  {
    if |ts| == 0 then 0 else RowNetChange(ts[0]) + SumNetChange(ts[1..])
  }

  /** True when two rule tables have the same ids, row for row. */
  ghost predicate SameRuleIds(a: seq<RecurringTransaction>, b: seq<RecurringTransaction>)
  {
    |a| == |b| && forall k :: 0 <= k < |a| ==> a[k].id == b[k].id
  }

  lemma SameRuleIdsKeepUnique(a: seq<RecurringTransaction>, b: seq<RecurringTransaction>)
    requires SameRuleIds(a, b) && UniqueIds(a, RuleKey)
    ensures UniqueIds(b, RuleKey)
  {
  }

  /** One outcome per due rule. */
  lemma {:induction false} RunBatchLength(b: Books, due: seq<RecurringTransaction>, now: Instant)
    ensures |RunBatch(b, due, now).0| == |due|
    decreases |due|
  {
    if |due| > 0 {
      RunBatchLength(RunRule(b, due[0], now).1, due[1..], now);
    }
  }

  /** The ledger grows by exactly the posted rows, in order, each taking the next id. */
  lemma RunBatchLedger(b: Books, due: seq<RecurringTransaction>, now: Instant)
    ensures var (os, b2) := RunBatch(b, due, now);
            && b2.transactions == b.transactions + PostedRows(os)
            && b2.nextTransactionId == b.nextTransactionId + |PostedRows(os)|
  {
    RunBatchRows(b, due, now);
    RunBatchIds(b, due, now);
  }

  lemma {:induction false} RunBatchRows(b: Books, due: seq<RecurringTransaction>, now: Instant)
    ensures RunBatch(b, due, now).1.transactions == b.transactions + PostedRows(RunBatch(b, due, now).0)
    decreases |due|
  {
    if |due| > 0 {
      var (o, b1) := RunRule(b, due[0], now);
      RunRuleLedger(b, due[0], now);
      RunBatchRows(b1, due[1..], now);
      var (os, b2) := RunBatch(b1, due[1..], now);
      assert RunBatch(b, due, now) == ([o] + os, b2);
      PostedRowsCons(o, os);
      AppendAssoc(b.transactions, if o.Posted? then [o.transaction] else [], PostedRows(os));
    }
  }

  lemma {:induction false} RunBatchIds(b: Books, due: seq<RecurringTransaction>, now: Instant)
    ensures RunBatch(b, due, now).1.nextTransactionId == b.nextTransactionId + |PostedRows(RunBatch(b, due, now).0)|
    decreases |due|
  {
    if |due| > 0 {
      var (o, b1) := RunRule(b, due[0], now);
      RunRuleLedger(b, due[0], now);
      RunBatchIds(b1, due[1..], now);
      var (os, b2) := RunBatch(b1, due[1..], now);
      PostedRowsCons(o, os);
    }
  }

  lemma PostedRowsCons(o: RunOutcome, os: seq<RunOutcome>)
    ensures PostedRows([o] + os) == (if o.Posted? then [o.transaction] else []) + PostedRows(os)
  {
    assert ([o] + os)[1..] == os;
  }

  lemma AppendAssoc<T>(a: seq<T>, b: seq<T>, c: seq<T>)
    ensures (a + b) + c == a + (b + c)
  {
  }

  lemma RunRuleLedger(b: Books, r: RecurringTransaction, now: Instant)
    ensures var (o, b1) := RunRule(b, r, now);
            && b1.transactions == b.transactions + (if o.Posted? then [o.transaction] else [])
            && b1.nextTransactionId == b.nextTransactionId + (if o.Posted? then 1 else 0)
  {
  }

  /** No drift across a run: the balances move by exactly the posted rows' net effect. */
  lemma {:induction false} RunBatchBalances(b: Books, due: seq<RecurringTransaction>, now: Instant)
    ensures var (os, b2) := RunBatch(b, due, now);
            AccountRepository.SumBalances(b2.accounts)
            == AccountRepository.SumBalances(b.accounts) + SumNetChange(PostedRows(os))
    decreases |due|
  {
    if |due| > 0 {
      var (o, b1) := RunRule(b, due[0], now);
      RunRuleBalances(b, due[0], now);
      RunBatchBalances(b1, due[1..], now);
      var (os, b2) := RunBatch(b1, due[1..], now);
      PostedRowsCons(o, os);
      SumNetChangeAppend(if o.Posted? then [o.transaction] else [], PostedRows(os));
    }
  }

  lemma RunRuleBalances(b: Books, r: RecurringTransaction, now: Instant)
    ensures var (o, b1) := RunRule(b, r, now);
            AccountRepository.SumBalances(b1.accounts)
            == AccountRepository.SumBalances(b.accounts) + (if o.Posted? then RowNetChange(o.transaction) else 0)
  {
    var (o, b1) := RunRule(b, r, now);
    if o.Posted? {
      TransactionService.PostingConservation(b.accounts, RunDraft(r, now).value);
    }
  }

  lemma {:induction false} SumNetChangeAppend(a: seq<Transaction>, c: seq<Transaction>)
    ensures SumNetChange(a + c) == SumNetChange(a) + SumNetChange(c)
    decreases |a|
  {
    if |a| > 0 {
      assert (a + c)[1..] == a[1..] + c;
      SumNetChangeAppend(a[1..], c);
    } else {
      assert a + c == c;
    }
  }

  /** Rescheduling writes rows in place: the rule table keeps its length and its ids. */
  lemma {:induction false} RunBatchRuleIds(b: Books, due: seq<RecurringTransaction>, now: Instant)
    ensures SameRuleIds(b.rules, RunBatch(b, due, now).1.rules)
    decreases |due|
  {
    if |due| > 0 {
      var b1 := RunRule(b, due[0], now).1;
      RunRuleRuleIds(b, due[0], now);
      RunBatchRuleIds(b1, due[1..], now);
    }
  }

  lemma RunRuleRuleIds(b: Books, r: RecurringTransaction, now: Instant)
    ensures SameRuleIds(b.rules, RunRule(b, r, now).1.rules)
  {
  }

  /** A row whose id no rule in the batch carries is left exactly as it was. */
  lemma {:induction false} RunBatchLeavesOthers(b: Books, due: seq<RecurringTransaction>, now: Instant, k: nat)
    requires UniqueIds(b.rules, RuleKey) && k < |b.rules|
    requires forall j :: 0 <= j < |due| ==> due[j].id != b.rules[k].id
    ensures k < |RunBatch(b, due, now).1.rules| && RunBatch(b, due, now).1.rules[k] == b.rules[k]
    decreases |due|
  {
    RunBatchRuleIds(b, due, now);
    if |due| > 0 {
      var (o, b1) := RunRule(b, due[0], now);
      RunRuleOutcome(b, due[0], now);
      RunRuleRuleIds(b, due[0], now);
      SameRuleIdsKeepUnique(b.rules, b1.rules);
      RunBatchLeavesOthers(b1, due[1..], now, k);
    }
  }

  /**
   * With distinct ids, each rule of the batch ends up rescheduled exactly when its
   * own outcome is Posted, and untouched otherwise.
   */
  lemma {:induction false} RunBatchReschedulesPosted(b: Books, due: seq<RecurringTransaction>, now: Instant, j: nat, k: nat)
    requires UniqueIds(b.rules, RuleKey) && UniqueIds(due, RuleKey)
    requires j < |due| && k < |b.rules| && b.rules[k] == due[j]
    ensures var (os, b2) := RunBatch(b, due, now);
            && j < |os| && k < |b2.rules|
            && b2.rules[k] == (if os[j].Posted? then Advance(due[j]) else due[j])
    decreases |due|
  {
    RunBatchRuleIds(b, due, now);
    RunBatchLength(b, due, now);
    var (o, b1) := RunRule(b, due[0], now);
    RunRuleOutcome(b, due[0], now);
    RunRuleRuleIds(b, due[0], now);
    SameRuleIdsKeepUnique(b.rules, b1.rules);
    var (os, b2) := RunBatch(b1, due[1..], now);
    if j == 0 {
      forall m | 0 <= m < |due[1..]| ensures due[1..][m].id != b1.rules[k].id {
        assert due[1..][m] == due[m + 1];
      }
      RunBatchLeavesOthers(b1, due[1..], now, k);
    } else {
      assert due[0].id != due[j].id;
      assert b1.rules[k] == due[j];
      assert UniqueIds(due[1..], RuleKey);
      assert due[1..][j - 1] == due[j];
      RunBatchReschedulesPosted(b1, due[1..], now, j - 1, k);
      assert ([o] + os)[j] == os[j - 1];
    }
  }

  /** In a scheduler run, a rule that is not due is left exactly as it was. */
  lemma NotDueUntouched(b: Books, today: CalendarDate, now: Instant, k: nat)
    requires UniqueIds(b.rules, RuleKey) && k < |b.rules|
    requires !RecurringTransactionRepository.IsDue(b.rules[k], today)
    ensures var due := RecurringTransactionRepository.FindDueRecurringTransactions(b.rules, today);
            k < |RunBatch(b, due, now).1.rules| && RunBatch(b, due, now).1.rules[k] == b.rules[k]
  {
    var due := RecurringTransactionRepository.FindDueRecurringTransactions(b.rules, today);
    forall j | 0 <= j < |due| ensures due[j].id != b.rules[k].id {
      assert due[j] in due;
      var m :| 0 <= m < |b.rules| && b.rules[m] == due[j];
      assert m != k;
    }
    RunBatchLeavesOthers(b, due, now, k);
  }

  /** The due list of a table with distinct ids has distinct ids. */
  lemma {:induction false} DueIdsUnique(rules: seq<RecurringTransaction>, today: Date)
    requires UniqueIds(rules, RuleKey)
    ensures UniqueIds(RecurringTransactionRepository.FindDueRecurringTransactions(rules, today), RuleKey)
  {
    if |rules| > 0 {
      var init := rules[..|rules| - 1];
      var last := rules[|rules| - 1];
      DueIdsUnique(init, today);
      var head := RecurringTransactionRepository.FindDueRecurringTransactions(init, today);
      forall x | x in head ensures x.id != last.id {
        var m :| 0 <= m < |init| && init[m] == x;
      }
    }
  }

  /** In a scheduler run, every due rule is rescheduled exactly when its post succeeded. */
  lemma DueRuleRescheduledIffPosted(b: Books, today: CalendarDate, now: Instant, j: nat, k: nat)
    requires UniqueIds(b.rules, RuleKey)
    requires var due := RecurringTransactionRepository.FindDueRecurringTransactions(b.rules, today);
             j < |due| && k < |b.rules| && b.rules[k] == due[j]
    ensures var due := RecurringTransactionRepository.FindDueRecurringTransactions(b.rules, today);
            var (os, b2) := RunBatch(b, due, now);
            && j < |os| && k < |b2.rules|
            && b2.rules[k] == (if os[j].Posted? then Advance(due[j]) else due[j])
  {
    DueIdsUnique(b.rules, today);
    RunBatchReschedulesPosted(b, RecurringTransactionRepository.FindDueRecurringTransactions(b.rules, today), now, j, k);
  }

  // ---------------------------------------------------------------------------
  // updateRecurringTransaction, deactivateRecurringTransaction
  // ---------------------------------------------------------------------------

  /** The edit `updateRecurringTransaction` applies: only the five editable fields change. */
  function Edited(r: RecurringTransaction, u: RuleUpdate): RecurringTransaction
  {
    r.(description := u.description, amount := u.amount, frequency := u.frequency,
       endDate := u.endDate, category := u.category)
  }

  /** The edit keeps the schedule, state, owner, account, currency and type, and so keeps start <= next run. */
  lemma EditedKeeps(r: RecurringTransaction, u: RuleUpdate)
    ensures var e := Edited(r, u);
            && e.id == r.id && e.nextRunDate == r.nextRunDate && e.isActive == r.isActive
            && e.startDate == r.startDate && e.account == r.account && e.currency == r.currency
            && e.transactionType == r.transactionType && e.user == r.user
            && e.description == u.description && e.amount == u.amount && e.frequency == u.frequency
            && e.endDate == u.endDate && e.category == u.category
            && (RuleWellFormed(r) ==> RuleWellFormed(e))
  {
  }

  /** Unlike creation, an edit is not checked against the start date: it may end a rule before it starts. */
  lemma EditMayEndBeforeStart(r: RecurringTransaction, u: RuleUpdate)
    requires r.startDate == Date(2024, 6, 1) && u.endDate == Some(Date(2024, 1, 1))
    ensures Before(Edited(r, u).endDate.value, Edited(r, u).startDate)
  {
  }

  method UpdateRecurringTransaction(db: Db, id: RuleId, u: RuleUpdate) returns (r: Result<RecurringTransaction, Error>)
    requires db.Valid()
    modifies db`rules
    ensures db.Valid()
    ensures var ix := IndexOf(old(db.rules), RuleKey, id);
            && (ix.None? <==> r == Failure(RuleNotFound))
            && (ix.None? ==> db.rules == old(db.rules))
            && (ix.Some? ==> r == Success(Edited(old(db.rules)[ix.value], u))
                             && db.rules == old(db.rules)[ix.value := r.value])
  {
    var ix := IndexOf(db.rules, RuleKey, id);
    if ix.None? {
      return Failure(RuleNotFound);
    }
    var existing := db.rules[ix.value];
    existing := existing.(description := u.description);
    existing := existing.(amount := u.amount);
    existing := existing.(frequency := u.frequency);
    existing := existing.(endDate := u.endDate);
    existing := existing.(category := u.category);
    ReplaceSameId(db.rules, RuleKey, db.nextRuleId, ix.value, existing);
    db.rules := db.rules[ix.value := existing];
    return Success(existing);
  }

  method DeactivateRecurringTransaction(db: Db, id: RuleId) returns (o: Outcome<Error>)
    requires db.Valid()
    modifies db`rules
    ensures db.Valid()
    ensures var ix := IndexOf(old(db.rules), RuleKey, id);
            && (ix.None? <==> o == Fail(RuleNotFound))
            && (ix.None? ==> db.rules == old(db.rules))
            && (ix.Some? ==> db.rules == old(db.rules)[ix.value := old(db.rules)[ix.value].(isActive := Some(false))])
  {
    var ix := IndexOf(db.rules, RuleKey, id);
    if ix.None? {
      return Fail(RuleNotFound);
    }
    var recurring := db.rules[ix.value].(isActive := Some(false));
    ReplaceSameId(db.rules, RuleKey, db.nextRuleId, ix.value, recurring);
    db.rules := db.rules[ix.value := recurring];
    return Pass;
  }

  /** A deactivated rule is never due again, whatever the date. */
  lemma DeactivatedNeverDue(r: RecurringTransaction, today: Date)
    ensures !RecurringTransactionRepository.IsDue(r.(isActive := Some(false)), today)
  {
  }
}
