/**
 * The database the services work on: one sequence of rows per table and the
 * next value of each IDENTITY column. Table invariants are stated on values so
 * that a method which leaves a table alone visibly keeps its invariant.
 */
module Store {
  import opened Domain
  import opened Entities
  import opened Tables
  import AccountRepository

  /** `users.email` is unique. */
  ghost predicate EmailsUnique(users: seq<User>)
  {
    forall i, j :: 0 <= i < j < |users| ==> users[i].email != users[j].email
  }

  /** A user never has two categories of the same name; different users may. */
  ghost predicate CategoryNamesUniquePerUser(categories: seq<Category>)
  {
    forall i, j :: 0 <= i < j < |categories| && categories[i].user == categories[j].user
      ==> categories[i].categoryName != categories[j].categoryName
  }

  ghost predicate UsersValid(users: seq<User>, next: int)
  {
    UniqueIds(users, UserKey) && IdsBelow(users, UserKey, next) && EmailsUnique(users)
  }

  ghost predicate AccountsValid(accounts: seq<Account>, next: int)
  {
    UniqueIds(accounts, AccountKey) && IdsBelow(accounts, AccountKey, next)
    && AccountRepository.AccountNumbersUnique(accounts)
  }

  ghost predicate CategoriesValid(categories: seq<Category>, next: int)
  {
    UniqueIds(categories, CategoryKey) && IdsBelow(categories, CategoryKey, next)
    && CategoryNamesUniquePerUser(categories)
  }

  ghost predicate TransactionsValid(transactions: seq<Transaction>, next: int)
  {
    UniqueIds(transactions, TransactionKey) && IdsBelow(transactions, TransactionKey, next)
  }

  ghost predicate RulesValid(rules: seq<RecurringTransaction>, next: int)
  {
    UniqueIds(rules, RuleKey) && IdsBelow(rules, RuleKey, next)
  }

  class Db {
    var users: seq<User>
    var accounts: seq<Account>
    var categories: seq<Category>
    var transactions: seq<Transaction>
    var rules: seq<RecurringTransaction>
    var nextUserId: int
    var nextAccountId: int
    var nextCategoryId: int
    var nextTransactionId: int
    var nextRuleId: int

    ghost predicate Valid()
      reads this
    {
      && UsersValid(users, nextUserId)
      && AccountsValid(accounts, nextAccountId)
      && CategoriesValid(categories, nextCategoryId)
      && TransactionsValid(transactions, nextTransactionId)
      && RulesValid(rules, nextRuleId)
    }

    /** An empty database; every IDENTITY column starts at 1. */
    constructor ()
      ensures Valid()
      ensures users == [] && accounts == [] && categories == [] && transactions == [] && rules == []
      ensures nextUserId == 1 && nextAccountId == 1 && nextCategoryId == 1
      ensures nextTransactionId == 1 && nextRuleId == 1
    {
      users, accounts, categories, transactions, rules := [], [], [], [], [];
      nextUserId, nextAccountId, nextCategoryId, nextTransactionId, nextRuleId := 1, 1, 1, 1, 1;
    }
  }
}
