/**
 * Users: registration with a unique email, profile edits that keep emails
 * unique, soft deactivation, and the active check.
 */
module UserService {
  import opened Wrappers
  import opened Domain
  import opened Entities
  import opened Tables
  import opened Store

  /** `existsByEmail`. */
  function ExistsByEmail(users: seq<User>, email: string): (r: bool)
    ensures r <==> exists k :: 0 <= k < |users| && users[k].email == email
  {
    if |users| == 0 then false
    else users[|users| - 1].email == email || ExistsByEmail(users[..|users| - 1], email)
  }

  // ---------------------------------------------------------------------------
  // registerUser
  // ---------------------------------------------------------------------------

  /** `registerUser` on the table's value: the row it saves, or the duplicate-email failure. */
  function Registration(users: seq<User>, draft: UserDraft, id: UserId): Result<User, Error>
  {
    if ExistsByEmail(users, draft.email) then Failure(EmailAlreadyRegistered)
    else Success(User(id, draft.firstName, draft.lastName, draft.email, draft.passwordHash,
                      if draft.defaultCurrency.None? then USD else draft.defaultCurrency.value,
                      if draft.isActive.None? then Some(true) else draft.isActive))
  }

  /**
   * Registration succeeds exactly for an email no user has; the saved user has
   * USD and active as defaults only where the draft left them out.
   */
  lemma RegistrationOutcome(users: seq<User>, draft: UserDraft, id: UserId)
    ensures var r := Registration(users, draft, id);
            && (r.Success? <==> forall k :: 0 <= k < |users| ==> users[k].email != draft.email)
            && (r.Failure? ==> r.error == EmailAlreadyRegistered)
            && (r.Success? ==>
                  && r.value.id == id && r.value.email == draft.email
                  && r.value.firstName == draft.firstName && r.value.lastName == draft.lastName
                  && r.value.passwordHash == draft.passwordHash
                  && (draft.defaultCurrency.None? ==> r.value.defaultCurrency == USD)
                  && (draft.defaultCurrency.Some? ==> r.value.defaultCurrency == draft.defaultCurrency.value)
                  && (draft.isActive.None? ==> r.value.isActive == Some(true))
                  && (draft.isActive.Some? ==> r.value.isActive == draft.isActive))
  {
  }

  /** Registering keeps emails unique. */
  lemma RegistrationKeepsEmailsUnique(users: seq<User>, draft: UserDraft, id: UserId)
    requires EmailsUnique(users) && Registration(users, draft, id).Success?
    ensures EmailsUnique(users + [Registration(users, draft, id).value])
  {
  }

  method RegisterUser(db: Db, draft: UserDraft) returns (r: Result<User, Error>)
    requires db.Valid()
    modifies db`users, db`nextUserId
    ensures db.Valid()
    ensures r == Registration(old(db.users), draft, old(db.nextUserId))
    ensures r.Failure? ==> db.users == old(db.users) && db.nextUserId == old(db.nextUserId)
    ensures r.Success? ==> db.users == old(db.users) + [r.value] && db.nextUserId == old(db.nextUserId) + 1
  {
    if ExistsByEmail(db.users, draft.email) {
      return Failure(EmailAlreadyRegistered);
    }
    var currency := if draft.defaultCurrency.None? then USD else draft.defaultCurrency.value;
    var isActive := draft.isActive;
    if isActive.None? {
      isActive := Some(true);
    }
    var saved := User(db.nextUserId, draft.firstName, draft.lastName, draft.email, draft.passwordHash, currency, isActive);
    RegistrationKeepsEmailsUnique(db.users, draft, db.nextUserId);
    AppendFresh(db.users, UserKey, db.nextUserId, saved);
    db.users := db.users + [saved];
    db.nextUserId := db.nextUserId + 1;
    return Success(saved);
  }

  // ---------------------------------------------------------------------------
  // updateUser
  // ---------------------------------------------------------------------------

  /** `updateUser` on the table's value: the edited table, or the first failed check. */
  function ProfileEdit(users: seq<User>, userId: UserId, u: UserUpdate): Result<seq<User>, Error>
  {
    match IndexOf(users, UserKey, userId)
    case None => Failure(UserNotFound)
    case Some(i) =>
      var existing := users[i];
      if existing.email != u.email && ExistsByEmail(users, u.email) then Failure(EmailInUse)
      else Success(users[i := existing.(email := u.email, firstName := u.firstName, lastName := u.lastName,
                                        defaultCurrency := u.defaultCurrency)])
  }

  /**
   * An edit of the user at `i` fails only on a change to an email some user already
   * has; keeping the email always succeeds. A successful edit overwrites the names
   * and currency, and keeps the id, password hash, state and every other row.
   */
  lemma ProfileEditOutcome(users: seq<User>, i: nat, u: UserUpdate)
    requires UniqueIds(users, UserKey) && i < |users|
    ensures var r := ProfileEdit(users, users[i].id, u);
            var old_ := users[i];
            && (old_.email == u.email ==> r.Success?)
            && (r.Failure? <==> old_.email != u.email && exists k :: 0 <= k < |users| && users[k].email == u.email)
            && (r.Failure? ==> r.error == EmailInUse)
            && (r.Success? ==>
                  && |r.value| == |users|
                  && r.value[i].email == u.email && r.value[i].firstName == u.firstName
                  && r.value[i].lastName == u.lastName && r.value[i].defaultCurrency == u.defaultCurrency
                  && r.value[i].id == old_.id && r.value[i].passwordHash == old_.passwordHash
                  && r.value[i].isActive == old_.isActive
                  && forall k :: 0 <= k < |users| && k != i ==> r.value[k] == users[k])
  {
    IndexOfUnique(users, UserKey, i);
  }

  /** A successful edit keeps emails unique. */
  lemma ProfileEditKeepsEmailsUnique(users: seq<User>, userId: UserId, u: UserUpdate)
    requires EmailsUnique(users) && ProfileEdit(users, userId, u).Success?
    ensures EmailsUnique(ProfileEdit(users, userId, u).value)
  {
  }

  method UpdateUser(db: Db, userId: UserId, u: UserUpdate) returns (r: Result<User, Error>)
    requires db.Valid()
    modifies db`users
    ensures db.Valid()
    ensures var p := ProfileEdit(old(db.users), userId, u);
            && (r.Success? <==> p.Success?)
            && (r.Failure? ==> r.error == p.error && db.users == old(db.users))
            && (r.Success? ==> db.users == p.value && r.value == p.value[IndexOf(old(db.users), UserKey, userId).value])
  {
    var ix := IndexOf(db.users, UserKey, userId);
    if ix.None? {
      return Failure(UserNotFound);
    }
    var existingUser := db.users[ix.value];
    if existingUser.email != u.email {
      if ExistsByEmail(db.users, u.email) {
        return Failure(EmailInUse);
      }
      existingUser := existingUser.(email := u.email);
    }
    existingUser := existingUser.(firstName := u.firstName);
    existingUser := existingUser.(lastName := u.lastName);
    existingUser := existingUser.(defaultCurrency := u.defaultCurrency);
    ProfileEditKeepsEmailsUnique(db.users, userId, u);
    ReplaceSameId(db.users, UserKey, db.nextUserId, ix.value, existingUser);
    db.users := db.users[ix.value := existingUser];
    return Success(existingUser);
  }

  // ---------------------------------------------------------------------------
  // deactivateUser, isUserActive
  // ---------------------------------------------------------------------------

  method DeactivateUser(db: Db, userId: UserId) returns (o: Outcome<Error>)
    requires db.Valid()
    modifies db`users
    ensures db.Valid()
    ensures var ix := IndexOf(old(db.users), UserKey, userId);
            && (ix.None? <==> o == Fail(UserNotFound))
            && (ix.None? ==> db.users == old(db.users))
            && (ix.Some? ==> db.users == old(db.users)[ix.value := old(db.users)[ix.value].(isActive := Some(false))])
  {
    var ix := IndexOf(db.users, UserKey, userId);
    if ix.None? {
      return Fail(UserNotFound);
    }
    var user := db.users[ix.value].(isActive := Some(false));
    ReplaceSameId(db.users, UserKey, db.nextUserId, ix.value, user);
    assert EmailsUnique(db.users[ix.value := user]) by {
      assert forall k :: 0 <= k < |db.users| ==> db.users[ix.value := user][k].email == db.users[k].email;
    }
    db.users := db.users[ix.value := user];
    return Pass;
  }

  /**
   * `isUserActive`: false for an unknown user, and for a known one whose isActive
   * is false or null (an empty `Optional` after the map); true only when it is true.
   */
  function IsUserActive(users: seq<User>, userId: UserId): (r: bool)
    ensures (forall k :: 0 <= k < |users| ==> users[k].id != userId) ==> !r
    ensures r ==> exists k :: 0 <= k < |users| && users[k].id == userId && users[k].isActive == Some(true)
    ensures UniqueIds(users, UserKey) ==>
              (r <==> exists k :: 0 <= k < |users| && users[k].id == userId && users[k].isActive == Some(true))
  {
    match IndexOf(users, UserKey, userId)
    case None => false
    case Some(i) => users[i].isActive.Some? && users[i].isActive.value
  }

  /** A deactivated user is no longer active. */
  lemma DeactivatedUserInactive(users: seq<User>, i: nat)
    requires UniqueIds(users, UserKey) && i < |users|
    ensures !IsUserActive(users[i := users[i].(isActive := Some(false))], users[i].id)
  {
    IndexOfUnique(users[i := users[i].(isActive := Some(false))], UserKey, i);
  }

  // ---------------------------------------------------------------------------
  // getUserByEmail, getActiveUsers
  // ---------------------------------------------------------------------------

  /** `findByEmail`: a user with the email, or none when no user has it. */
  function FindByEmail(users: seq<User>, email: string): (r: Option<User>)
    ensures r.Some? <==> ExistsByEmail(users, email)
    ensures r.Some? ==> r.value in users && r.value.email == email
  {
    if |users| == 0 then None
    else if users[|users| - 1].email == email then Some(users[|users| - 1])
    else FindByEmail(users[..|users| - 1], email)
  }

  /** With the unique emails `Db.Valid()` keeps, `findByEmail` returns the one user holding the email. */
  lemma {:induction false} FindByEmailUnique(users: seq<User>, k: nat)
    requires EmailsUnique(users) && k < |users|
    ensures FindByEmail(users, users[k].email) == Some(users[k])
  {
    if k < |users| - 1 {
      var init := users[..|users| - 1];
      assert users[|users| - 1].email != users[k].email;
      assert init[k] == users[k];
      FindByEmailUnique(init, k);
    }
  }

  /** `findByIsActiveTrue`: the users whose isActive is true, so a null isActive is not listed. */
  function FindByIsActiveTrue(users: seq<User>): (r: seq<User>)
    ensures forall x :: x in r <==> x in users && IsTrue(x.isActive)
    ensures |r| <= |users|
  {
    if |users| == 0 then []
    else
      var last := users[|users| - 1];
      assert users == users[..|users| - 1] + [last];
      FindByIsActiveTrue(users[..|users| - 1]) + (if IsTrue(last.isActive) then [last] else [])
  }

  /** Deactivating the user at `i` removes exactly that user from the active listing. */
  lemma DeactivatedUserNotListed(users: seq<User>, i: nat)
    requires UniqueIds(users, UserKey) && i < |users|
    ensures var after := users[i := users[i].(isActive := Some(false))];
            forall x :: x in FindByIsActiveTrue(after) <==> x in FindByIsActiveTrue(users) && x.id != users[i].id
  {
    var after := users[i := users[i].(isActive := Some(false))];
    forall x ensures x in after && IsTrue(x.isActive) <==> x in users && IsTrue(x.isActive) && x.id != users[i].id {
      DeactivatedUserRow(users, i, x);
    }
  }

  /** One user's step of `DeactivatedUserNotListed`: the other rows keep both their place and their distinct ids. */
  lemma DeactivatedUserRow(users: seq<User>, i: nat, x: User)
    requires UniqueIds(users, UserKey) && i < |users|
    ensures var after := users[i := users[i].(isActive := Some(false))];
            x in after && IsTrue(x.isActive) <==> x in users && IsTrue(x.isActive) && x.id != users[i].id
  {
    var after := users[i := users[i].(isActive := Some(false))];
    if x in after && IsTrue(x.isActive) {
      var k :| 0 <= k < |after| && after[k] == x;
      assert k != i;
      assert users[k] == x;
    }
    if x in users && IsTrue(x.isActive) && x.id != users[i].id {
      var k :| 0 <= k < |users| && users[k] == x;
      assert k != i;
      assert after[k] == x;
    }
  }
}
