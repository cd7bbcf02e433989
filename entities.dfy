/**
 * The persisted entities (one row of each table) and the partly-filled
 * objects callers hand to the services. A Java `Boolean` column becomes an
 * `Option<bool>` (None is null); a nullable reference becomes an `Option` of an id.
 */
module Entities {
  import opened Wrappers
  import opened Domain
  import opened Dates
  import opened Frequency

  /** `Boolean.TRUE.equals(flag)` and the JPQL `flag = true`: null is not true. */
  predicate IsTrue(flag: Option<bool>)
  {
    flag == Some(true)
  }

  datatype User = User(
    id: UserId,
    firstName: string,
    lastName: string,
    email: string,
    passwordHash: string,
    defaultCurrency: Currency,
    isActive: Option<bool>)

  datatype Account = Account(
    id: AccountId,
    accountName: string,
    accountType: AccountType,
    currency: Currency,
    balance: Cents,
    accountNumber: string,
    bankName: Option<string>,
    isActive: Option<bool>,
    user: UserId)

  datatype Category = Category(
    id: CategoryId,
    categoryName: string,
    description: Option<string>,
    colorCode: Option<string>,
    isActive: Option<bool>,
    user: UserId)

  /** A posted, immutable ledger row. */
  datatype Transaction = Transaction(
    id: TransactionId,
    amount: Amount,
    currency: Currency,
    transactionType: TransactionType,
    description: Option<string>,
    transactionDate: Instant,
    fromAccount: Option<AccountId>,
    toAccount: Option<AccountId>,
    category: Option<CategoryId>)

  /** A recurring rule; a None `endDate` means the rule runs forever. */
  datatype RecurringTransaction = RecurringTransaction(
    id: RuleId,
    description: string,
    amount: Amount,
    currency: Currency,
    transactionType: TransactionType,
    frequency: RecurringFrequency,
    startDate: CalendarDate,
    endDate: Option<CalendarDate>,
    nextRunDate: CalendarDate,
    isActive: Option<bool>,
    account: AccountId,
    category: Option<CategoryId>,
    user: UserId)

  /** The transaction object handed to the posting engine, before it is saved. */
  datatype TransactionDraft = TransactionDraft(
    amount: Amount,
    currency: Currency,
    transactionType: Option<TransactionType>,
    description: Option<string>,
    transactionDate: Option<Instant>,
    fromAccount: Option<AccountId>,
    toAccount: Option<AccountId>,
    category: Option<CategoryId>)

  /** The account object handed to `createAccount`; None fields are defaulted there. */
  datatype AccountDraft = AccountDraft(
    accountName: string,
    accountType: AccountType,
    currency: Option<Currency>,
    balance: Option<Cents>,
    accountNumber: Option<string>,
    bankName: Option<string>,
    isActive: Option<bool>)

  /** The rule object handed to `createRecurringTransaction`. */
  datatype RuleDraft = RuleDraft(
    description: string,
    amount: Amount,
    currency: Currency,
    transactionType: TransactionType,
    frequency: RecurringFrequency,
    startDate: CalendarDate,
    endDate: Option<CalendarDate>,
    isActive: Option<bool>,
    account: AccountId,
    category: Option<CategoryId>)

  /** The fields `updateRecurringTransaction` copies from its argument. */
  datatype RuleUpdate = RuleUpdate(
    description: string,
    amount: Amount,
    frequency: RecurringFrequency,
    endDate: Option<CalendarDate>,
    category: Option<CategoryId>)

  datatype UserDraft = UserDraft(
    firstName: string,
    lastName: string,
    email: string,
    passwordHash: string,
    defaultCurrency: Option<Currency>,
    isActive: Option<bool>)

  /** The fields `updateUser` reads from its argument. */
  datatype UserUpdate = UserUpdate(
    firstName: string,
    lastName: string,
    email: string,
    defaultCurrency: Currency)

  datatype CategoryDraft = CategoryDraft(
    categoryName: string,
    description: Option<string>,
    colorCode: Option<string>,
    isActive: Option<bool>)

  /** The fields `updateCategory` reads from its argument. */
  datatype CategoryUpdate = CategoryUpdate(
    categoryName: string,
    description: Option<string>,
    colorCode: Option<string>)

  // Primary-key projections, for the generic table lookups.
  function UserKey(u: User): int { u.id }
  function AccountKey(a: Account): int { a.id }
  function CategoryKey(c: Category): int { c.id }
  function TransactionKey(t: Transaction): int { t.id }
  function RuleKey(r: RecurringTransaction): int { r.id }
}
