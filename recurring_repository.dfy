/** The recurring-rule table's queries, above all the scheduler's due predicate. */
module RecurringTransactionRepository {
  import opened Wrappers
  import opened Domain
  import opened Dates
  import opened Entities

  /**
   * The WHERE clause of `findDueRecurringTransactions`: active, next run on or
   * before today, and either no end date or an end date on or after today.
   */
  predicate IsDue(r: RecurringTransaction, today: Date)
  {
    && IsTrue(r.isActive)
    && OnOrBefore(r.nextRunDate, today)
    && (r.endDate.None? || OnOrBefore(today, r.endDate.value))
  }

  /** `findDueRecurringTransactions`: the due rules, listed in table order (the query has no ORDER BY). */
  function FindDueRecurringTransactions(rules: seq<RecurringTransaction>, today: Date): (r: seq<RecurringTransaction>)
    ensures forall x :: x in r <==> x in rules && IsDue(x, today)
    ensures |r| <= |rules|
  {
    if |rules| == 0 then []
    else
      var last := rules[|rules| - 1];
      assert rules == rules[..|rules| - 1] + [last];
      FindDueRecurringTransactions(rules[..|rules| - 1], today) + (if IsDue(last, today) then [last] else [])
  }

  /** `findByUserId`: the user's rules, active or not, listed in table order (the query has no ORDER BY). */
  function FindByUserId(rules: seq<RecurringTransaction>, userId: UserId): (r: seq<RecurringTransaction>)
    ensures forall x :: x in r <==> x in rules && x.user == userId
    ensures |r| <= |rules|
  {
    if |rules| == 0 then []
    else
      var last := rules[|rules| - 1];
      assert rules == rules[..|rules| - 1] + [last];
      FindByUserId(rules[..|rules| - 1], userId) + (if last.user == userId then [last] else [])
  }

  /** The active listing is the full listing filtered on isActive. */
  lemma {:induction false} ActiveListingFiltersFull(rules: seq<RecurringTransaction>, userId: UserId)
    ensures |FindByUserIdAndIsActiveTrue(rules, userId)| <= |FindByUserId(rules, userId)|
    ensures forall x :: x in FindByUserIdAndIsActiveTrue(rules, userId) <==> x in FindByUserId(rules, userId) && IsTrue(x.isActive)
  {
    if |rules| > 0 {
      ActiveListingFiltersFull(rules[..|rules| - 1], userId);
    }
  }

  /** `findByUserIdAndIsActiveTrue`: the user's rules whose isActive is true. */
  function FindByUserIdAndIsActiveTrue(rules: seq<RecurringTransaction>, userId: UserId): (r: seq<RecurringTransaction>)
    ensures forall x :: x in r <==> x in rules && x.user == userId && IsTrue(x.isActive)
    ensures |r| <= |rules|
  {
    if |rules| == 0 then []
    else
      var last := rules[|rules| - 1];
      assert rules == rules[..|rules| - 1] + [last];
      FindByUserIdAndIsActiveTrue(rules[..|rules| - 1], userId)
        + (if last.user == userId && IsTrue(last.isActive) then [last] else [])
  }

  /** A rule whose isActive is not true is never due, whatever its dates. */
  lemma InactiveNeverDue(r: RecurringTransaction, today: Date)
    requires !IsTrue(r.isActive)
    ensures !IsDue(r, today)
  {
  }

  /** An active, unexpired rule whose next run is in the past (overdue) is due. */
  lemma OverdueIsDue(r: RecurringTransaction, today: Date)
    requires IsTrue(r.isActive) && Before(r.nextRunDate, today) && r.endDate.None?
    ensures IsDue(r, today)
  {
  }

  /** The end date is inclusive: a rule ending today is still due, one that ended yesterday is not. */
  lemma EndDateInclusive(r: RecurringTransaction, today: Date)
    requires IsTrue(r.isActive) && OnOrBefore(r.nextRunDate, today) && r.endDate.Some?
    ensures r.endDate.value == today ==> IsDue(r, today)
    ensures Before(r.endDate.value, today) ==> !IsDue(r, today)
  {
  }

  /** A rule whose next run is after today is not due. */
  lemma FutureNotDue(r: RecurringTransaction, today: Date)
    requires Before(today, r.nextRunDate)
    ensures !IsDue(r, today)
  {
  }
}
