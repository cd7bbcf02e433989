# Epsilon ledger core, in Dafny

This project models the core of the Epsilon personal-finance ledger and proves properties of the model. The core has four parts:

- **Posting engine.** It posts an INCOME, EXPENSE or TRANSFER transaction against one or two accounts.
- **Account rules.** These cover account creation with a generated 8-digit account number, a per-currency balance summary, the low-level balance write, and deactivation at zero balance.
- **Recurring scheduler.** It selects the rules due today, posts a transaction for each through the engine, and moves each rule's next run forward by its frequency.
- **Profile services.** These keep category names unique per user and emails unique across users.

The database is a class `Store.Db`. It holds one `seq` per table and the next value of each IDENTITY column. `Db.Valid()` states the table invariants: unique ids below the counter, unique account numbers, unique emails, and unique category names per user.

Each service operation is a module-level method that takes the store as a parameter `db: Db`. Its `modifies` clause names only the fields of `db`, that is the tables, it writes. Each method is proved equal to a pure function of the old tables, such as `TransactionService.Posting`, `RecurringService.RunBatch` or `AccountService.Deactivation`. The properties are lemmas about those functions.

Representation choices:

- Money is an integer number of cents (the columns are scale 2).
- A transaction or rule amount is at least one cent.
- A `LocalDate` is a valid Gregorian `(year, month, day)`. `LocalDate.plus` is modelled with its day clamping: 31 January plus one month is the last day of February.
- A `LocalDateTime` is a point on an ordered time line.
- A Java `Boolean` column is an `Option<bool>`, where `None` is null. Every "is active" test treats null as not active.
- Each thrown exception is a constructor of `Domain.Error`, so every service returns a `Result` or an `Outcome`.

## Behaviour of the code that the model keeps

- **Account-number attempts.** `generateAccountNumber` is documented as using "a max-attempts guard" with `maxAttempts = 10` (`src/main/java/com/epsilon/service/AccountService.java:76-84`). Its loop increments the counter and tests it before the collision check (`src/main/java/com/epsilon/service/AccountService.java:86-94`). So the 10th draw is never checked, and at most 9 candidates are tried. `AccountService.GenerateAccountNumber` states this.
- **Failed rule runs.** In `processRecurringTransaction`, the rescheduling and the save come after `createTransaction` (`src/main/java/com/epsilon/service/RecurringTransactionService.java:136-148`). An exception from the posting skips both, and the loop in `processDueRecurringTransactions` catches it (`src/main/java/com/epsilon/service/RecurringTransactionService.java:100-107`). So a rule whose posting fails keeps its next run date and stays due. `RecurringService.RunRule` models this.
- **Rule edits.** `createRecurringTransaction` refuses an end date before the start date (`src/main/java/com/epsilon/service/RecurringTransactionService.java:57-60`). `updateRecurringTransaction` overwrites the end date without that check (`src/main/java/com/epsilon/service/RecurringTransactionService.java:151-165`). `RecurringService.EditMayEndBeforeStart` shows that an edit can end a rule before it starts.
- **Transaction currency.** `Transaction.java`, as listed, declares no currency field, yet the posting engine reads `getCurrency()` on it. The model gives a transaction a currency.
- **Account number type.** `Account.java:51` declares the account number as a `Long`, but the service handles it as an 8-character string. It is modelled as a string.
- **Negative balances.** `Account.java:46` declares `@DecimalMin("0.0")` on the balance. The posting engine still lets an account whose type name contains "CREDIT" go below zero (`TransactionService.CreditCardMayGoNegative`). The annotation is not modelled as a constraint.
- **Account types.** `AccountType.java` is not part of this model. The enum is declared as CHECKING, SAVINGS, CREDIT_CARD, CASH and INVESTMENT. On those values the two credit tests in the code agree: the name-contains-"CREDIT" test of the posting engine and the `== CREDIT_CARD` test of `updateBalance` (`Domain.CreditTestsAgree`).

## Model

| member | source | states |
|---|---|---|
| Domain.CreditTestsAgree | src/main/java/com/epsilon/service/TransactionService.java:105 | the posting engine's "type name contains CREDIT" test and the balance-update guard's "== CREDIT_CARD" test agree on every declared account type |
| Domain.NoCreditWithoutCR | src/main/java/com/epsilon/service/TransactionService.java:105 | a name in which no 'C' is directly followed by 'R' does not contain "CREDIT" (the step that rules out the other type names) |
| Dates.DaysInMonth | src/main/java/com/epsilon/enums/RecurringFrequency.java:30-32 | month lengths are 28 to 31 days, and 29 exactly for February of a leap year |
| Dates.NextDay | src/main/java/com/epsilon/enums/RecurringFrequency.java:30-32 | the next day is a valid date strictly after the given one, rolling over month and year ends |
| Dates.PlusDays | src/main/java/com/epsilon/enums/RecurringFrequency.java:30-32 | `LocalDate.plusDays` by repeated next-day steps, always a valid date; PlusDaysAfter proves it strictly later |
| Dates.PlusDaysAfter | src/main/java/com/epsilon/enums/RecurringFrequency.java:11-13 | adding a positive number of days lands strictly later |
| Dates.ClampDay | src/main/java/com/epsilon/enums/RecurringFrequency.java:30-32 | the result is a valid date in the requested month: the requested day when that month has it, else the month's last day |
| Dates.PlusMonths | src/main/java/com/epsilon/enums/RecurringFrequency.java:30-32 | `LocalDate.plusMonths` with floor division of the month index and day clamping, always a valid date that keeps the day of month when the target month has it and otherwise takes that month's last day; PlusMonthsIndex and PlusMonthsAfter state where it lands |
| Dates.PlusMonthsIndex | src/main/java/com/epsilon/enums/RecurringFrequency.java:14-15 | adding n months moves the month index by exactly n, negative n included |
| Dates.PlusMonthsAfter | src/main/java/com/epsilon/enums/RecurringFrequency.java:14-15 | adding one or more months lands strictly later |
| Dates.PlusYears | src/main/java/com/epsilon/enums/RecurringFrequency.java:30-32 | `LocalDate.plusYears` with 29 February clamped, always a valid date; PlusYearsIsTwelveMonths and PlusYearsAfter state its meaning |
| Dates.PlusYearsAfter | src/main/java/com/epsilon/enums/RecurringFrequency.java:16 | adding one or more years lands strictly later |
| Dates.PlusYearsIsTwelveMonths | src/main/java/com/epsilon/enums/RecurringFrequency.java:14-16 | one year step equals twelve month steps, with the same clamping |
| Dates.BeforeTransitive | src/main/java/com/epsilon/repository/RecurringTransactionRepository.java:46-47 | date order is transitive |
| Dates.LaterMonthIsAfter | src/main/java/com/epsilon/enums/RecurringFrequency.java:30-32 | a date in a later month is later, whatever the days |
| Frequency.NextDate | src/main/java/com/epsilon/enums/RecurringFrequency.java:30-32 | getNextDate always yields a valid calendar date |
| Frequency.AmountPositive | src/main/java/com/epsilon/enums/RecurringFrequency.java:11-16 | every frequency's step amount is positive |
| Frequency.NextDateAfter | src/main/java/com/epsilon/enums/RecurringFrequency.java:11-16 | for every frequency the next date is strictly after the input |
| Frequency.DayFrequencies | src/main/java/com/epsilon/enums/RecurringFrequency.java:11-13 | DAILY, WEEKLY and BIWEEKLY add 1, 7 and 14 days |
| Frequency.MonthFrequencies | src/main/java/com/epsilon/enums/RecurringFrequency.java:14-16 | MONTHLY, QUARTERLY and YEARLY move the month index by 1, 3 and 12 |
| Frequency.MonthlyExample | src/main/java/com/epsilon/enums/RecurringFrequency.java:28 | MONTHLY from 2024-01-15 gives 2024-02-15 |
| Frequency.MonthlyClampExample | src/main/java/com/epsilon/enums/RecurringFrequency.java:31 | MONTHLY from 31 January gives 29 February in 2024 and 28 February in 2023 |
| Frequency.YearlyClampExample | src/main/java/com/epsilon/enums/RecurringFrequency.java:16 | YEARLY from 2024-02-29 gives 2025-02-28 |
| Frequency.DailyRolloverExample | src/main/java/com/epsilon/enums/RecurringFrequency.java:11 | DAILY from 2023-12-31 gives 2024-01-01 |
| Frequency.Plus | src/main/java/com/epsilon/enums/RecurringFrequency.java:31 | plus(amount, unit) yields a valid date |
| Tables.IndexOf | src/main/java/com/epsilon/repository/AccountRepository.java:18 | findById returns a row that has the id, and returns nothing exactly when no row has it |
| AccountRepository.FindByUserId | src/main/java/com/epsilon/repository/AccountRepository.java:33 | an account is listed exactly when it is one of the user's |
| AccountRepository.FindByUserIdAndIsActiveTrue | src/main/java/com/epsilon/repository/AccountRepository.java:40 | an account is listed exactly when it is the user's and its isActive is true |
| AccountRepository.FindByUserIdAndAccountType | src/main/java/com/epsilon/repository/AccountRepository.java:54 | an account is listed exactly when it is the user's and of the given type |
| AccountRepository.GetTotalBalanceByUserId | src/main/java/com/epsilon/repository/AccountRepository.java:65-66 | COALESCE(SUM(balance), 0) over the user's accounts whose isActive is true; TotalBalanceIsSumOfActive ties it to the active-account filter |
| AccountRepository.TotalBalanceIsSumOfActive | src/main/java/com/epsilon/repository/AccountRepository.java:65-66 | the user total is the sum of balances over exactly the user's active accounts |
| AccountRepository.TotalBalanceWithoutActiveAccounts | src/main/java/com/epsilon/repository/AccountRepository.java:65 | COALESCE: with no active account the total is 0 |
| AccountRepository.TotalBalanceSet | src/main/java/com/epsilon/repository/AccountRepository.java:65-66 | changing one balance moves the user total by that change when the account is the user's and active, and leaves it alone otherwise |
| AccountRepository.TotalBalanceDeactivateEmpty | src/main/java/com/epsilon/repository/AccountRepository.java:65-66 | deactivating a zero-balance account leaves every user total unchanged |
| AccountRepository.SumBalancesSet | src/main/java/com/epsilon/service/TransactionService.java:85-88 | changing one balance moves the sum of all balances by exactly that change |
| AccountRepository.SumBalancesAppend | src/main/java/com/epsilon/repository/AccountRepository.java:65 | the balance sum of two lists joined is the sum of their sums |
| AccountRepository.ExistsByAccountNumber | src/main/java/com/epsilon/repository/AccountRepository.java:71 | true exactly when some stored account has that number |
| TransactionRepository.FindByAccountId | src/main/java/com/epsilon/repository/TransactionRepository.java:31-45 | a transaction is listed exactly when the account is its source or its destination |
| TransactionRepository.FindByDateRange | src/main/java/com/epsilon/repository/TransactionRepository.java:71-75 | a transaction is listed exactly when its date is in the range, inclusive at both ends |
| TransactionRepository.UserTransactionsInRange | src/main/java/com/epsilon/repository/TransactionRepository.java:82-84 | listed exactly when either side's account belongs to the user and the date is in the inclusive range |
| TransactionRepository.UserTransactions | src/main/java/com/epsilon/repository/TransactionRepository.java:110-111 | listed exactly when either side's account belongs to the user |
| TransactionRepository.InsertByDateDesc | src/main/java/com/epsilon/repository/TransactionRepository.java:85 | inserting into a newest-first list keeps it newest-first and adds exactly the one element |
| TransactionRepository.SortByDateDesc | src/main/java/com/epsilon/repository/TransactionRepository.java:85 | the result is newest-first and a permutation of the input |
| TransactionRepository.FindByUserIdAndDateRange | src/main/java/com/epsilon/repository/TransactionRepository.java:82-90 | newest-first, a permutation of the matching rows, and a row is present exactly when it matches |
| TransactionRepository.FindRecentByUserId | src/main/java/com/epsilon/repository/TransactionRepository.java:110-113 | newest-first, a permutation of the user's rows, and a row is present exactly when either side is the user's |
| TransactionRepository.CategoryExpensesInRange | src/main/java/com/epsilon/repository/TransactionRepository.java:97-100 | a row is listed exactly when it is an EXPENSE of the category dated within the inclusive range |
| TransactionRepository.SumExpensesByCategoryAndDateRange | src/main/java/com/epsilon/repository/TransactionRepository.java:97-105 | never negative; 0 when no EXPENSE of the category lies in the range; at least one cent when one does |
| TransactionRepository.SumExpensesIsSumOfMatching | src/main/java/com/epsilon/repository/TransactionRepository.java:97-105 | the query's value is SUM(amount) over exactly the rows CategoryExpensesInRange lists, 0 when there is none |
| TransactionRepository.SumExpensesConcat | src/main/java/com/epsilon/repository/TransactionRepository.java:97-105 | the sum over a table split in two is the sum of the two parts' sums |
| TransactionRepository.FindByAccountIdConcat | src/main/java/com/epsilon/repository/TransactionRepository.java:44-45 | the listing of a table split in two is the two parts' listings, the first part's rows first |
| RecurringTransactionRepository.IsDue | src/main/java/com/epsilon/repository/RecurringTransactionRepository.java:44-48 | the WHERE clause of the due query; InactiveNeverDue, OverdueIsDue, EndDateInclusive and FutureNotDue state its cases |
| RecurringTransactionRepository.FindDueRecurringTransactions | src/main/java/com/epsilon/repository/RecurringTransactionRepository.java:44-48 | a rule is listed exactly when it is active, its next run is on or before today, and it has no end date or one on or after today |
| RecurringTransactionRepository.FindByUserId | src/main/java/com/epsilon/repository/RecurringTransactionRepository.java:22 | a rule is listed exactly when it is the user's, active or not; it backs `getRecurringTransactionsByUserId` (src/main/java/com/epsilon/service/RecurringTransactionService.java:75-78) |
| RecurringTransactionRepository.ActiveListingFiltersFull | src/main/java/com/epsilon/repository/RecurringTransactionRepository.java:22-27 | the active listing is the full listing restricted to active rules, and is never longer |
| RecurringTransactionRepository.FindByUserIdAndIsActiveTrue | src/main/java/com/epsilon/repository/RecurringTransactionRepository.java:27 | a rule is listed exactly when it is the user's and active |
| RecurringTransactionRepository.InactiveNeverDue | src/main/java/com/epsilon/repository/RecurringTransactionRepository.java:45 | a rule whose isActive is not true (false or null) is never due |
| RecurringTransactionRepository.OverdueIsDue | src/main/java/com/epsilon/repository/RecurringTransactionRepository.java:46 | an active rule without an end date whose next run is past is due |
| RecurringTransactionRepository.EndDateInclusive | src/main/java/com/epsilon/repository/RecurringTransactionRepository.java:47 | a rule ending today is due; one that ended before today is not |
| RecurringTransactionRepository.FutureNotDue | src/main/java/com/epsilon/repository/RecurringTransactionRepository.java:46 | a rule whose next run is after today is not due |
| TransactionService.SetBalance | src/main/java/com/epsilon/service/TransactionService.java:85-88 | one account's `setBalance` and save, on the table's value; SumBalancesSet and TotalBalanceSet state its effect on the totals |
| TransactionService.PostIncome | src/main/java/com/epsilon/service/TransactionService.java:74-92 | processIncome's checks in source order, then one credit; IncomeOutcome and IncomeMissingDestination state its meaning |
| TransactionService.PostExpense | src/main/java/com/epsilon/service/TransactionService.java:94-121 | processExpense's checks, the funds check skipped for "CREDIT" types, then one debit; ExpenseOutcome and ExpenseMissingSource state its meaning |
| TransactionService.PostTransfer | src/main/java/com/epsilon/service/TransactionService.java:123-172 | processTransfer's ten checks in source order, then the debit and the credit; TransferOutcome and the Transfer*Rejected lemmas state its meaning |
| TransactionService.ValidateAccountActive | src/main/java/com/epsilon/service/TransactionService.java:174-178 | passes exactly when isActive is TRUE (false and null fail), with the side in the error |
| TransactionService.ValidateCurrencyMatch | src/main/java/com/epsilon/service/TransactionService.java:180-189 | passes exactly when the two currencies are equal, with the side in the error |
| TransactionService.Posting | src/main/java/com/epsilon/service/TransactionService.java:47-63 | a null type is rejected before any account is read; a successful posting keeps the table's rows |
| TransactionService.Record | src/main/java/com/epsilon/service/TransactionService.java:65-69 | the saved row copies the draft and takes "now" as its date only when the draft has none |
| TransactionService.CreateTransaction | src/main/java/com/epsilon/service/TransactionService.java:40-72 | agrees with Posting; a rejected posting changes no table; a successful one writes exactly Posting's balances and appends exactly one row with the next id |
| TransactionService.Dispatch | src/main/java/com/epsilon/service/TransactionService.java:51-63 | the switch on the type runs exactly the posting Posting selects, on the store |
| TransactionService.ProcessIncome | src/main/java/com/epsilon/service/TransactionService.java:74-92 | performs the income posting on the store: fails with the posting's error and no change, or writes exactly its table |
| TransactionService.ProcessExpense | src/main/java/com/epsilon/service/TransactionService.java:94-121 | performs the expense posting on the store, likewise |
| TransactionService.ProcessTransfer | src/main/java/com/epsilon/service/TransactionService.java:123-172 | performs the transfer posting on the store, every check before both writes |
| TransactionService.IncomeOutcome | src/main/java/com/epsilon/service/TransactionService.java:74-88 | INCOME succeeds exactly when the destination is active and in the draft's currency; it then raises that balance by exactly the amount and changes no other account |
| TransactionService.IncomeMissingDestination | src/main/java/com/epsilon/service/TransactionService.java:75-80 | INCOME without a destination, or with an unknown one, fails |
| TransactionService.ExpenseMissingSource | src/main/java/com/epsilon/service/TransactionService.java:95-100 | EXPENSE without a source, or with an unknown one, fails |
| TransactionService.ExpenseOutcome | src/main/java/com/epsilon/service/TransactionService.java:94-117 | EXPENSE succeeds exactly when the source is active, in the currency, and either "CREDIT"-named or holding at least the amount; it then lowers that balance by exactly the amount and changes no other account |
| TransactionService.ExpenseOfWholeBalance | src/main/java/com/epsilon/service/TransactionService.java:105-117 | spending exactly the balance of an active, matching account succeeds and leaves 0 |
| TransactionService.CreditCardMayGoNegative | src/main/java/com/epsilon/service/TransactionService.java:105 | an expense larger than a credit card's balance succeeds and leaves it negative |
| TransactionService.TransferOutcome | src/main/java/com/epsilon/service/TransactionService.java:132-166 | TRANSFER between two accounts succeeds exactly when both are active and in the draft's currency and the source holds the amount (credit or not); the source falls and the destination rises by the amount, their sum is unchanged, and no other account changes |
| TransactionService.TransferToSelfRejected | src/main/java/com/epsilon/service/TransactionService.java:128-130 | a transfer naming one account twice fails whatever the table |
| TransactionService.TransferMissingSideRejected | src/main/java/com/epsilon/service/TransactionService.java:124-126 | a transfer missing a side fails |
| TransactionService.TransferUnknownAccountRejected | src/main/java/com/epsilon/service/TransactionService.java:132-135 | a transfer naming an unknown source, or a known source and an unknown destination, fails with that side |
| TransactionService.CrossCurrencyTransferRejected | src/main/java/com/epsilon/service/TransactionService.java:139-147 | a transfer between accounts of different currencies fails whatever the amount and balances |
| TransactionService.PostingConservation | src/main/java/com/epsilon/service/TransactionService.java:85-88 | a successful posting moves the sum of all balances by exactly +amount (INCOME), -amount (EXPENSE) or 0 (TRANSFER) |
| TransactionService.PostingTouchesOnlyNamedAccounts | src/main/java/com/epsilon/service/TransactionService.java:79-88 | a successful posting changes no row but the accounts its type names |
| TransactionService.PostingKeepsKeys | src/main/java/com/epsilon/service/TransactionService.java:87-88 | a posting changes balances only |
| TransactionService.PostingKeepsNonCreditNonNegative | src/main/java/com/epsilon/service/TransactionService.java:105-112 | postings keep every non-credit balance non-negative |
| TransactionService.TransferKeepsOwnerTotal | src/main/java/com/epsilon/service/TransactionService.java:156-166 | a transfer between two accounts of one user leaves that user's total unchanged |
| TransactionService.IncomeRaisesOwnerTotal | src/main/java/com/epsilon/service/TransactionService.java:85-88 | income raises the owner's total by exactly the amount |
| TransactionService.RecordedExpenseSum | src/main/java/com/epsilon/service/TransactionService.java:65-69 | the row createTransaction appends raises a category's expense sum by its amount exactly when it is an EXPENSE of that category dated in the range, and leaves it unchanged otherwise |
| TransactionService.RecordedInAccountListings | src/main/java/com/epsilon/service/TransactionService.java:65-69 | the row createTransaction appends joins, at the end, the listing of exactly its source and destination accounts, and no other listing changes |
| AccountService.ZeroPad | src/main/java/com/epsilon/service/AccountService.java:87 | the padded form has exactly the requested width, all decimal digits |
| AccountService.Pad8 | src/main/java/com/epsilon/service/AccountService.java:87 | String.format("%08d") of a draw is 8 decimal digits |
| AccountService.ParseZeroPad | src/main/java/com/epsilon/service/AccountService.java:87 | padding loses nothing: the number is read back from its padded form |
| AccountService.Pad8Injective | src/main/java/com/epsilon/service/AccountService.java:87 | two draws give the same account number exactly when they are equal |
| AccountService.GenerateAccountNumber | src/main/java/com/epsilon/service/AccountService.java:81-98 | a generated number is 8 digits, unused, and the first unused one among the first 9 draws; failure means all of the first 9 collided and the 10th is never checked |
| AccountService.ChooseAccountNumber | src/main/java/com/epsilon/service/AccountService.java:50-56 | a supplied non-empty number is kept exactly when unused (AccountNumberExists otherwise); a null or empty one is generated; the chosen number is never already used |
| AccountService.NewAccount | src/main/java/com/epsilon/service/AccountService.java:58-69 | currency defaults to the owner's, balance to 0 and isActive to true, each only when absent; supplied values are kept |
| AccountService.CreateAccount | src/main/java/com/epsilon/service/AccountService.java:42-75 | an unknown user fails; a supplied number succeeds exactly when unused; null or empty asks for generation; the saved row is NewAccount with a number no account had, appended with the next id; a failure changes nothing |
| AccountService.GetTotalBalancesByCurrency | src/main/java/com/epsilon/service/AccountService.java:123-138 | a currency has an entry exactly when some active account of the user uses it, and the entry is the sum of those accounts' balances |
| AccountService.CurrencyTotal | src/main/java/com/epsilon/service/AccountService.java:129-134 | the value the loop's `getOrDefault`-then-`put` accumulates for one currency: the sum of that currency's balances; GetTotalBalancesByCurrency and CurrencyTotalsAddUp state its meaning |
| AccountService.CurrencyTotalsAddUp | src/main/java/com/epsilon/service/AccountService.java:129-134 | the per-currency totals of a list add up to the sum of all its balances |
| AccountService.SummaryAddsUpToUserTotal | src/main/java/com/epsilon/service/AccountService.java:126 | the summary's totals over all currencies add up to getTotalBalanceByUserId |
| AccountService.BalanceUpdate | src/main/java/com/epsilon/service/AccountService.java:143-161 | an unknown account fails and nothing else does so; success keeps the table's rows |
| AccountService.BalanceUpdateOutcome | src/main/java/com/epsilon/service/AccountService.java:150-158 | the write succeeds exactly when the value is non-negative or the type is CREDIT_CARD; it sets only that balance and moves the balance sum by the change |
| AccountService.BalanceUpdateKeepsNonCreditNonNegative | src/main/java/com/epsilon/service/AccountService.java:150-153 | non-credit-card balances stay non-negative through the write |
| AccountService.UpdateBalance | src/main/java/com/epsilon/service/AccountService.java:143-161 | performs BalanceUpdate on the store and returns the saved account |
| AccountService.Deactivation | src/main/java/com/epsilon/service/AccountService.java:167-184 | an unknown account fails and nothing else does so; success keeps the table's rows |
| AccountService.DeactivationOutcome | src/main/java/com/epsilon/service/AccountService.java:174-182 | succeeds exactly on a zero balance; then only isActive changes, to false, the account leaves the active listing and the owner's total is unchanged |
| AccountService.DeactivateAccount | src/main/java/com/epsilon/service/AccountService.java:167-184 | performs Deactivation on the store |
| AccountService.VerifyAccountOwnership | src/main/java/com/epsilon/service/AccountService.java:189-193 | false for an unknown account; with unique ids, true exactly when the account's owner is the user |
| RecurringService.RuleCreation | src/main/java/com/epsilon/service/RecurringTransactionService.java:38-68 | createRecurringTransaction's checks and defaults on the tables' values; RuleCreationOutcome states its meaning |
| RecurringService.RuleCreationOutcome | src/main/java/com/epsilon/service/RecurringTransactionService.java:38-73 | unknown user, unknown account and foreign account fail with their own errors, and a request that passes all four checks is created; a created rule starts today or later and no earlier than asked, first runs on its start, ends no earlier than it starts, and defaults isActive to true only when absent |
| RecurringService.CreateRecurringTransaction | src/main/java/com/epsilon/service/RecurringTransactionService.java:38-73 | performs RuleCreation on the store, appending the rule with the next id, or changes nothing |
| RecurringService.ProcessRecurringTransaction | src/main/java/com/epsilon/service/RecurringTransactionService.java:112-149 | performs one rule's run (RunRule) on the store |
| RecurringService.AdvanceRule | src/main/java/com/epsilon/service/RecurringTransactionService.java:138-148 | the rule's row, and only it, takes its advanced value; the table invariants survive the save |
| RecurringService.ProcessDueRecurringTransactions | src/main/java/com/epsilon/service/RecurringTransactionService.java:92-110 | runs exactly the rules due today, one at a time in the order the due query lists them, each failure caught; the result and the new store are RunBatch of the old store |
| RecurringService.RunDraft | src/main/java/com/epsilon/service/RecurringTransactionService.java:115-134 | the draft a rule posts: its amount, currency, type, category and suffixed description, to its account for INCOME and from it for EXPENSE, none for TRANSFER; RunDraftPostsToRuleAccount and TransferRuleSkipped state its meaning |
| RecurringService.Advance | src/main/java/com/epsilon/service/RecurringTransactionService.java:138-146 | the rule rescheduled by getNextDate, deactivated past its end date; AdvanceMovesForward and AdvanceDeactivatesPastEnd state its meaning |
| RecurringService.Reschedule | src/main/java/com/epsilon/service/RecurringTransactionService.java:148 | the save of the rescheduled rule over its own row; RescheduleOnlyTouchesItsRow states its meaning |
| RecurringService.RunRule | src/main/java/com/epsilon/service/RecurringTransactionService.java:112-149 | one rule's run on the books' value, a thrown exception being Failed; RunRuleOutcome states its meaning |
| RecurringService.RunBatch | src/main/java/com/epsilon/service/RecurringTransactionService.java:100-107 | the loop over the due rules, each failure caught; the RunBatch* lemmas state its meaning |
| RecurringService.RunRuleOutcome | src/main/java/com/epsilon/service/RecurringTransactionService.java:115-148 | a skipped or failed run leaves the books untouched; a posted run saves one row with the rule's amount, currency and type, the description plus " (Recurring)" and the run's time, moves the balance sum by that row's net effect, and reschedules only the rule's own row |
| RecurringService.RunDraftPostsToRuleAccount | src/main/java/com/epsilon/service/RecurringTransactionService.java:115-136 | an INCOME rule's draft credits, and an EXPENSE rule's draft debits, the rule's account by the rule's amount under the engine's checks |
| RecurringService.TransferRuleSkipped | src/main/java/com/epsilon/service/RecurringTransactionService.java:130-133 | a TRANSFER rule posts nothing and saves nothing, so it stays due |
| RecurringService.AdvanceMovesForward | src/main/java/com/epsilon/service/RecurringTransactionService.java:138-139 | the new next run is getNextDate of the old one, strictly later, still on or after the start; nothing but nextRunDate and isActive changes |
| RecurringService.AdvanceDeactivatesPastEnd | src/main/java/com/epsilon/service/RecurringTransactionService.java:141-146 | the rule is deactivated exactly when the new next run falls after a set end date; an inactive rule stays inactive |
| RecurringService.RunOnceADay | src/main/java/com/epsilon/service/RecurringTransactionService.java:138-139 | a rule due on exactly its next run date is no longer due that day once it has run |
| RecurringService.OverdueRuleCatchesUpOneStep | src/main/java/com/epsilon/service/RecurringTransactionService.java:138 | rescheduling counts from the old next run, not today: an overdue daily rule, once run, can still be due |
| RecurringService.MonthlyRunExample | src/main/java/com/epsilon/service/RecurringTransactionService.java:138-146 | a monthly rule run on 2024-02-15 with end date 2024-03-01 moves to 2024-03-15 and is deactivated |
| RecurringService.RunBatchLength | src/main/java/com/epsilon/service/RecurringTransactionService.java:100-107 | one outcome per due rule: a failure does not stop the batch |
| RecurringService.RunBatchLedger | src/main/java/com/epsilon/service/RecurringTransactionService.java:100-107 | the ledger grows by exactly the posted rows, in order, each with the next id |
| RecurringService.RunBatchBalances | src/main/java/com/epsilon/service/RecurringTransactionService.java:100-107 | over a batch, the balance sum moves by exactly the posted rows' net effect |
| RecurringService.RunBatchRuleIds | src/main/java/com/epsilon/service/RecurringTransactionService.java:148 | a batch keeps the rule table's rows and ids |
| RecurringService.RunBatchLeavesOthers | src/main/java/com/epsilon/service/RecurringTransactionService.java:100-107 | a rule not in the batch is left exactly as it was |
| RecurringService.RunBatchReschedulesPosted | src/main/java/com/epsilon/service/RecurringTransactionService.java:100-148 | with distinct ids, a rule of the batch is rescheduled exactly when its own run posted, and untouched otherwise |
| RecurringService.NotDueUntouched | src/main/java/com/epsilon/service/RecurringTransactionService.java:97-107 | in a scheduler run, a rule that is not due is left as it was |
| RecurringService.DueIdsUnique | src/main/java/com/epsilon/repository/RecurringTransactionRepository.java:44-48 | the due list of a table with distinct ids has distinct ids |
| RecurringService.DueRuleRescheduledIffPosted | src/main/java/com/epsilon/service/RecurringTransactionService.java:97-148 | in a scheduler run, every due rule is rescheduled exactly when its own posting succeeded |
| RecurringService.Edited | src/main/java/com/epsilon/service/RecurringTransactionService.java:158-162 | the five overwritten fields; EditedKeeps and EditMayEndBeforeStart state its meaning |
| RecurringService.EditedKeeps | src/main/java/com/epsilon/service/RecurringTransactionService.java:158-162 | an edit overwrites description, amount, frequency, end date and category, keeps every other field, and keeps start ≤ next run |
| RecurringService.EditMayEndBeforeStart | src/main/java/com/epsilon/service/RecurringTransactionService.java:161 | an edit does not re-check the end date against the start |
| RecurringService.UpdateRecurringTransaction | src/main/java/com/epsilon/service/RecurringTransactionService.java:151-165 | an unknown id fails with no change; otherwise only that rule changes, to its edit |
| RecurringService.DeactivateRecurringTransaction | src/main/java/com/epsilon/service/RecurringTransactionService.java:167-178 | an unknown id fails with no change; otherwise only that rule's isActive changes, to false |
| RecurringService.DeactivatedNeverDue | src/main/java/com/epsilon/service/RecurringTransactionService.java:174 | a deactivated rule is never due again |
| CategoryService.ExistsByUserIdAndCategoryName | src/main/java/com/epsilon/service/CategoryService.java:42 | true exactly when the user already has a category of that name |
| CategoryService.CategoryCreation | src/main/java/com/epsilon/service/CategoryService.java:35-57 | createCategory's checks and default on the tables' values; CategoryCreationOutcome states its meaning |
| CategoryService.CategoryCreationOutcome | src/main/java/com/epsilon/service/CategoryService.java:35-57 | an unknown user fails; for a known one creation succeeds exactly when the user has no category of that name (other users' names do not count); isActive defaults to true only when absent |
| CategoryService.CategoryCreationKeepsNamesUnique | src/main/java/com/epsilon/service/CategoryService.java:42-46 | creation keeps names unique per user |
| CategoryService.CreateCategory | src/main/java/com/epsilon/service/CategoryService.java:35-57 | performs the creation on the store, appending with the next id, or changes nothing |
| CategoryService.CategoryEdit | src/main/java/com/epsilon/service/CategoryService.java:74-94 | updateCategory on the table's value; CategoryEditOutcome states its meaning |
| CategoryService.CategoryEditOutcome | src/main/java/com/epsilon/service/CategoryService.java:74-94 | an edit fails exactly on a rename to a name the owner already uses, and keeping the name always succeeds; success sets the name, always overwrites description and colour, and changes no other row |
| CategoryService.CategoryEditKeepsNamesUnique | src/main/java/com/epsilon/service/CategoryService.java:80-88 | edits keep names unique per user |
| CategoryService.UpdateCategory | src/main/java/com/epsilon/service/CategoryService.java:74-94 | performs the edit on the store and returns the saved category |
| CategoryService.DeactivateCategory | src/main/java/com/epsilon/service/CategoryService.java:97-107 | an unknown id fails with no change; otherwise only isActive changes, to false |
| CategoryService.FindByUserId | src/main/java/com/epsilon/repository/CategoryRepository.java:22 | a category is listed exactly when it is the user's; it backs `getCategoriesByUserId` (src/main/java/com/epsilon/service/CategoryService.java:59-62) |
| CategoryService.FindByUserIdAndIsActiveTrue | src/main/java/com/epsilon/repository/CategoryRepository.java:29 | a category is listed exactly when it is the user's and its isActive is true; it backs `getActiveCategoriesByUserId` (src/main/java/com/epsilon/service/CategoryService.java:64-67) |
| CategoryService.DeactivatedCategoryNotListed | src/main/java/com/epsilon/service/CategoryService.java:97-107 | deactivation removes exactly that category from its owner's active listing, and the full listing keeps its length |
| CategoryService.FindByUserIdKeepsLength | src/main/java/com/epsilon/service/CategoryService.java:97-107 | a row rewritten without changing its owner leaves every user's listing the same length |
| CategoryService.VerifyCategoryOwnership | src/main/java/com/epsilon/service/CategoryService.java:109-113 | false for an unknown category; with unique ids, true exactly when the owner is the user |
| UserService.ExistsByEmail | src/main/java/com/epsilon/service/UserService.java:37 | true exactly when some user has that email |
| UserService.Registration | src/main/java/com/epsilon/service/UserService.java:34-54 | registerUser's check and defaults on the table's value; RegistrationOutcome states its meaning |
| UserService.RegistrationOutcome | src/main/java/com/epsilon/service/UserService.java:34-54 | registration succeeds exactly for an unused email; USD and active are defaults only where the draft has none |
| UserService.RegistrationKeepsEmailsUnique | src/main/java/com/epsilon/service/UserService.java:37-40 | registration keeps emails unique |
| UserService.RegisterUser | src/main/java/com/epsilon/service/UserService.java:34-54 | performs the registration on the store, appending with the next id, or changes nothing |
| UserService.ProfileEdit | src/main/java/com/epsilon/service/UserService.java:79-99 | updateUser on the table's value; ProfileEditOutcome states its meaning |
| UserService.ProfileEditOutcome | src/main/java/com/epsilon/service/UserService.java:79-99 | an edit fails exactly on a change to an email in use, and an unchanged email always succeeds; success overwrites the names and currency and changes no other row |
| UserService.ProfileEditKeepsEmailsUnique | src/main/java/com/epsilon/service/UserService.java:85-90 | edits keep emails unique |
| UserService.UpdateUser | src/main/java/com/epsilon/service/UserService.java:79-99 | performs the edit on the store and returns the saved user |
| UserService.DeactivateUser | src/main/java/com/epsilon/service/UserService.java:106-116 | an unknown id fails with no change; otherwise only isActive changes, to false |
| UserService.IsUserActive | src/main/java/com/epsilon/service/UserService.java:118-122 | false for an unknown user and for a false or null isActive; with unique ids, true exactly when the user's isActive is true |
| UserService.FindByEmail | src/main/java/com/epsilon/repository/UserRepository.java:22 | a user is found exactly when existsByEmail holds, and the one found has the email; it backs `getUserByEmail` (src/main/java/com/epsilon/service/UserService.java:61-64) |
| UserService.FindByEmailUnique | src/main/java/com/epsilon/repository/UserRepository.java:22 | with unique emails, the lookup returns the one user holding the email |
| UserService.FindByIsActiveTrue | src/main/java/com/epsilon/repository/UserRepository.java:41 | a user is listed exactly when its isActive is true, so null is excluded; it backs `getActiveUsers` (src/main/java/com/epsilon/service/UserService.java:66-69) |
| UserService.DeactivatedUserNotListed | src/main/java/com/epsilon/service/UserService.java:106-116 | deactivation removes exactly that user from the active listing |
| UserService.DeactivatedUserInactive | src/main/java/com/epsilon/service/UserService.java:112-122 | a deactivated user is not active |

## Left out

- The HTTP layer, the DTOs and `EntityMapper` are request plumbing. The getters that only forward to a repository query are covered by the query's own function: `Tables.IndexOf` for the `get…ById` getters, and a function named after the query for the list and email lookups.
- Spring `@Transactional` mechanics are left out. Atomicity is modelled as "every check, then every write". The batch run does not model the rollback-only marking that an exception from the nested `createTransaction` can cause.
- Concurrency and locking are left out: there is a single writer.
- `Math.random` becomes the `draws` parameter. `LocalDate.now` and `LocalDateTime.now` become the `today` and `now` parameters. One scheduler run uses a single `now` for every transaction it saves, where the code reads the clock once per rule. Logging is left out.
- Result order of the queries without ORDER BY is left out. `findDueRecurringTransactions` (`src/main/java/com/epsilon/repository/RecurringTransactionRepository.java:44-47`), `findByAccount`/`findByAccountId` (`src/main/java/com/epsilon/repository/TransactionRepository.java:31`, `:44`) and the derived `findBy*` filters return rows in whatever order the database chooses. The model fixes table order for them. The scheduler's outcome can depend on that order: two due EXPENSE rules on one non-credit account that each fit its balance but not together post in the listed order, so the first posts and the second fails. The `RunBatch*` lemmas hold for any order of the due rules.
- Pageable slicing is left out. `findByAccountId` and `findRecentByUserId` are modelled without their page. Ties in "ORDER BY transactionDate DESC" are left in an unspecified order.
- The SQL join semantics of the path `t.fromAccount.user.id` are left out. The model evaluates each side as "the referenced account exists and belongs to the user". It does not claim this is how an implicit inner join behaves in SQL.
- Bean Validation annotations are modelled as types. A transaction or rule amount is at least one cent. A field that the model's request datatypes do not wrap in `Option` is always present, which encodes its `@NotNull`.
- Update requests with omitted fields are left out. `UserService.ProfileEdit` takes every field of the user update as present. `UserUpdateRequest` declares no `@NotNull`, and the controller passes nulls through (`src/main/java/com/epsilon/controller/UserController.java:85-91`). `updateUser` then writes them (`src/main/java/com/epsilon/service/UserService.java:85-94`), and the save fails on the `NOT NULL` columns of `User.java`: first name, last name and email (`src/main/java/com/epsilon/entity/User.java:32`, `:37`, `:42`) and the default currency (`src/main/java/com/epsilon/entity/User.java:51-53`). The model cannot express such a request. The rule and category updates are modelled the same way: every field they overwrite is present.
- `RecurringService.Reschedule` writes the rule back only when the table still has a row with its id. A JPA `save` of a rule whose row has vanished would insert it again. The batch never does this, because it runs only on rows of the table.
- `AccountService.GenerateAccountNumber` requires at least 10 draws in [0, 10^8). This is what `(int) (Math.random() * 100000000)` yields; the model does not consume the draws further.
- `AccountService.VerifyAccountOwnership`, `CategoryService.VerifyCategoryOwnership` and `UserService.IsUserActive` state their "exactly when" direction only for tables with unique ids. `Db.Valid()` guarantees unique ids.
- `Dates.PlusDays`, `Dates.PlusMonths` and `Dates.PlusYears` work on an unbounded year, so `LocalDate`'s `DateTimeException` for years beyond ±999,999,999 is not modelled; the scheduler's dates never come near it.
- `AccountType.java`, `TransactionType.java` and `Category.java` are not part of this model. Their enums and the category row are declared from how the services use them.
