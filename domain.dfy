/**
 * Enumerations and scalar types shared by the ledger: currencies, account and
 * transaction types, the error kinds every service raises, money in cents.
 */
module Domain {

  /** Amounts of money in cents (the columns are scale 2). A balance may be negative. */
  type Cents = int

  /** A transaction or rule amount: at least 0.01, as the @DecimalMin("0.01") constraint demands. */
  type Amount = c: int | c >= 1 witness 1

  /** A `LocalDateTime`, reduced to a point on an ordered time line. */
  type Instant = int

  type UserId = int
  type AccountId = int
  type CategoryId = int
  type TransactionId = int
  type RuleId = int

  datatype Currency = USD | INR | EUR | GBP | JPY | CAD | AUD | CHF

  /** The account types of the ledger (the enum's source file is not part of this model). */
  datatype AccountType = CHECKING | SAVINGS | CREDIT_CARD | CASH | INVESTMENT

  /** `AccountType.toString()`: an enum constant prints as its name. */
  function TypeName(t: AccountType): string
  {
    match t
    case CHECKING => "CHECKING"
    case SAVINGS => "SAVINGS"
    case CREDIT_CARD => "CREDIT_CARD"
    case CASH => "CASH"
    case INVESTMENT => "INVESTMENT"
  }

  predicate StartsWith(s: string, prefix: string)
  {
    |prefix| <= |s| && s[..|prefix|] == prefix
  }

  /** `s.contains(sub)`: `sub` occurs in `s` at some offset. */
  predicate Contains(s: string, sub: string)
    decreases |s|
  {
    StartsWith(s, sub) || (|s| > 0 && Contains(s[1..], sub))
  }

  /** A string in which no 'C' is directly followed by 'R' does not contain "CREDIT". */
  lemma {:induction false} NoCreditWithoutCR(s: string)
    requires forall i :: 0 <= i < |s| - 1 ==> !(s[i] == 'C' && s[i + 1] == 'R')
    ensures !Contains(s, "CREDIT")
  {
    if |s| > 0 {
      if |s| >= 6 {
        assert !(s[0] == 'C' && s[1] == 'R');
        assert s[..6][0] == s[0] && s[..6][1] == s[1];
      }
      NoCreditWithoutCR(s[1..]);
    }
  }

  /**
   * On the declared account types the two credit tests agree: only CREDIT_CARD
   * has "CREDIT" in its name.
   */
  lemma CreditTestsAgree(t: AccountType)
    ensures IsCreditByName(t) <==> IsCreditCard(t)
  {
    if t == CREDIT_CARD {
      assert StartsWith(TypeName(t), "CREDIT");
    } else {
      NoCreditWithoutCR(TypeName(t));
    }
  }

  /** The posting engine's credit test: the type's name contains "CREDIT". */
  predicate IsCreditByName(t: AccountType)
  {
    Contains(TypeName(t), "CREDIT")
  }

  /** The balance-update guard's credit test: the type is CREDIT_CARD itself. */
  predicate IsCreditCard(t: AccountType)
  {
    t == CREDIT_CARD
  }

  datatype TransactionType = INCOME | EXPENSE | TRANSFER

  /** Which account of a posting a check is about. */
  datatype Side = Source | Destination

  /** The exceptions the services throw, one constructor per distinct check. */
  datatype Error =
    | TransactionTypeRequired
    | MissingAccount(side: Side)
    | MissingTransferAccounts
    | SameAccountTransfer
    | AccountNotFound(side: Side)
    | AccountInactive(side: Side)
    | CurrencyMismatch(side: Side)
    | CrossCurrencyTransfer
    | InsufficientFunds
    | UserNotFound
    | UnknownAccount
    | AccountNumberExists
    | AccountNumberGenerationFailed
    | NegativeBalance
    | NonZeroBalance
    | AccountNotOwned
    | EndBeforeStart
    | RuleNotFound
    | CategoryNotFound
    | CategoryNameExists
    | EmailAlreadyRegistered
    | EmailInUse
}
