/**
 * Categories: per-user names that never repeat within one user, with creation,
 * editing, soft deactivation and the ownership guard.
 */
module CategoryService {
  import opened Wrappers
  import opened Domain
  import opened Entities
  import opened Tables
  import opened Store

  /** `existsByUserIdAndCategoryName`. */
  function ExistsByUserIdAndCategoryName(categories: seq<Category>, userId: UserId, name: string): (r: bool)
    ensures r <==> exists k :: 0 <= k < |categories| && categories[k].user == userId && categories[k].categoryName == name
  {
    if |categories| == 0 then false
    else
      var last := categories[|categories| - 1];
      (last.user == userId && last.categoryName == name)
        || ExistsByUserIdAndCategoryName(categories[..|categories| - 1], userId, name)
  }

  // ---------------------------------------------------------------------------
  // createCategory
  // ---------------------------------------------------------------------------

  /** `createCategory` on the tables' values: the row it saves, or the first failed check. */
  function CategoryCreation(users: seq<User>, categories: seq<Category>, userId: UserId, draft: CategoryDraft,
                            id: CategoryId): Result<Category, Error>
  {
    if IndexOf(users, UserKey, userId).None? then Failure(UserNotFound)
    else if ExistsByUserIdAndCategoryName(categories, userId, draft.categoryName) then Failure(CategoryNameExists)
    else Success(Category(id, draft.categoryName, draft.description, draft.colorCode,
                          if draft.isActive.None? then Some(true) else draft.isActive, userId))
  }

  /**
   * Creation fails for an unknown user, and for a name the same user already has
   * (another user's name does not count); otherwise it saves the draft for that
   * user, isActive defaulting to true only when absent.
   */
  lemma CategoryCreationOutcome(users: seq<User>, categories: seq<Category>, userId: UserId, draft: CategoryDraft, id: CategoryId)
    ensures var r := CategoryCreation(users, categories, userId, draft, id);
            && ((forall k :: 0 <= k < |users| ==> users[k].id != userId) ==> r == Failure(UserNotFound))
            && ((exists k :: 0 <= k < |users| && users[k].id == userId) ==>
                  (r.Success? <==> forall k :: 0 <= k < |categories| && categories[k].user == userId
                                               ==> categories[k].categoryName != draft.categoryName))
            && (r.Failure? && r.error == CategoryNameExists ==>
                  exists k :: 0 <= k < |categories| && categories[k].user == userId
                              && categories[k].categoryName == draft.categoryName)
            && (r.Success? ==>
                  && r.value.id == id && r.value.user == userId && r.value.categoryName == draft.categoryName
                  && r.value.description == draft.description && r.value.colorCode == draft.colorCode
                  && (draft.isActive.None? ==> r.value.isActive == Some(true))
                  && (draft.isActive.Some? ==> r.value.isActive == draft.isActive))
  {
  }

  /** Creating a category keeps every user's names distinct. */
  lemma CategoryCreationKeepsNamesUnique(users: seq<User>, categories: seq<Category>, userId: UserId,
                                         draft: CategoryDraft, id: CategoryId)
    requires CategoryNamesUniquePerUser(categories)
    requires CategoryCreation(users, categories, userId, draft, id).Success?
    ensures CategoryNamesUniquePerUser(categories + [CategoryCreation(users, categories, userId, draft, id).value])
  {
  }

  method CreateCategory(db: Db, userId: UserId, draft: CategoryDraft) returns (r: Result<Category, Error>)
    requires db.Valid()
    modifies db`categories, db`nextCategoryId
    ensures db.Valid()
    ensures r == CategoryCreation(db.users, old(db.categories), userId, draft, old(db.nextCategoryId))
    ensures r.Failure? ==> db.categories == old(db.categories) && db.nextCategoryId == old(db.nextCategoryId)
    ensures r.Success? ==> db.categories == old(db.categories) + [r.value] && db.nextCategoryId == old(db.nextCategoryId) + 1
  {
    var user := IndexOf(db.users, UserKey, userId);
    if user.None? {
      return Failure(UserNotFound);
    }
    if ExistsByUserIdAndCategoryName(db.categories, userId, draft.categoryName) {
      return Failure(CategoryNameExists);
    }
    var isActive := draft.isActive;
    if isActive.None? {
      isActive := Some(true);
    }
    var saved := Category(db.nextCategoryId, draft.categoryName, draft.description, draft.colorCode, isActive, userId);
    CategoryCreationKeepsNamesUnique(db.users, db.categories, userId, draft, db.nextCategoryId);
    AppendFresh(db.categories, CategoryKey, db.nextCategoryId, saved);
    db.categories := db.categories + [saved];
    db.nextCategoryId := db.nextCategoryId + 1;
    return Success(saved);
  }

  // ---------------------------------------------------------------------------
  // updateCategory
  // ---------------------------------------------------------------------------

  /** `updateCategory` on the table's value: the edited table, or the first failed check. */
  function CategoryEdit(categories: seq<Category>, categoryId: CategoryId, u: CategoryUpdate): Result<seq<Category>, Error>
  {
    match IndexOf(categories, CategoryKey, categoryId)
    case None => Failure(CategoryNotFound)
    case Some(i) =>
      var existing := categories[i];
      if existing.categoryName != u.categoryName
         && ExistsByUserIdAndCategoryName(categories, existing.user, u.categoryName)
      then Failure(CategoryNameExists)
      else Success(categories[i := existing.(categoryName := u.categoryName, description := u.description,
                                              colorCode := u.colorCode)])
  }

  /**
   * An edit of the category at `i` fails only on a rename to a name its owner
   * already uses; keeping the name always succeeds. A successful edit sets the
   * name, always overwrites description and colorCode (clearing them when absent),
   * and keeps the id, owner and state and every other row.
   */
  lemma CategoryEditOutcome(categories: seq<Category>, i: nat, u: CategoryUpdate)
    requires UniqueIds(categories, CategoryKey) && i < |categories|
    ensures var r := CategoryEdit(categories, categories[i].id, u);
            var c := categories[i];
            && (c.categoryName == u.categoryName ==> r.Success?)
            && (r.Failure? <==>
                  c.categoryName != u.categoryName
                  && exists k :: 0 <= k < |categories| && categories[k].user == c.user
                                 && categories[k].categoryName == u.categoryName)
            && (r.Failure? ==> r.error == CategoryNameExists)
            && (r.Success? ==>
                  && |r.value| == |categories|
                  && r.value[i].categoryName == u.categoryName
                  && r.value[i].description == u.description && r.value[i].colorCode == u.colorCode
                  && r.value[i].id == c.id && r.value[i].user == c.user && r.value[i].isActive == c.isActive
                  && forall k :: 0 <= k < |categories| && k != i ==> r.value[k] == categories[k])
  {
    IndexOfUnique(categories, CategoryKey, i);
  }

  /** A successful edit keeps every user's names distinct. */
  lemma CategoryEditKeepsNamesUnique(categories: seq<Category>, categoryId: CategoryId, u: CategoryUpdate)
    requires CategoryNamesUniquePerUser(categories)
    requires CategoryEdit(categories, categoryId, u).Success?
    ensures CategoryNamesUniquePerUser(CategoryEdit(categories, categoryId, u).value)
  {
  }

  method UpdateCategory(db: Db, categoryId: CategoryId, u: CategoryUpdate) returns (r: Result<Category, Error>)
    requires db.Valid()
    modifies db`categories
    ensures db.Valid()
    ensures var p := CategoryEdit(old(db.categories), categoryId, u);
            && (r.Success? <==> p.Success?)
            && (r.Failure? ==> r.error == p.error && db.categories == old(db.categories))
            && (r.Success? ==> db.categories == p.value
                               && r.value == p.value[IndexOf(old(db.categories), CategoryKey, categoryId).value])
  {
    var ix := IndexOf(db.categories, CategoryKey, categoryId);
    if ix.None? {
      return Failure(CategoryNotFound);
    }
    var existing := db.categories[ix.value];
    if existing.categoryName != u.categoryName {
      if ExistsByUserIdAndCategoryName(db.categories, existing.user, u.categoryName) {
        return Failure(CategoryNameExists);
      }
      existing := existing.(categoryName := u.categoryName);
    }
    existing := existing.(description := u.description);
    existing := existing.(colorCode := u.colorCode);
    CategoryEditKeepsNamesUnique(db.categories, categoryId, u);
    ReplaceSameId(db.categories, CategoryKey, db.nextCategoryId, ix.value, existing);
    db.categories := db.categories[ix.value := existing];
    return Success(existing);
  }

  // ---------------------------------------------------------------------------
  // deactivateCategory, verifyCategoryOwnership
  // ---------------------------------------------------------------------------

  method DeactivateCategory(db: Db, categoryId: CategoryId) returns (o: Outcome<Error>)
    requires db.Valid()
    modifies db`categories
    ensures db.Valid()
    ensures var ix := IndexOf(old(db.categories), CategoryKey, categoryId);
            && (ix.None? <==> o == Fail(CategoryNotFound))
            && (ix.None? ==> db.categories == old(db.categories))
            && (ix.Some? ==> db.categories == old(db.categories)[ix.value := old(db.categories)[ix.value].(isActive := Some(false))])
  {
    var ix := IndexOf(db.categories, CategoryKey, categoryId);
    if ix.None? {
      return Fail(CategoryNotFound);
    }
    var category := db.categories[ix.value].(isActive := Some(false));
    ReplaceSameId(db.categories, CategoryKey, db.nextCategoryId, ix.value, category);
    db.categories := db.categories[ix.value := category];
    return Pass;
  }

  /** `verifyCategoryOwnership`: false for an unknown category, else whether its owner is `userId`. */
  function VerifyCategoryOwnership(categories: seq<Category>, categoryId: CategoryId, userId: UserId): (r: bool)
    ensures r ==> exists k :: 0 <= k < |categories| && categories[k].id == categoryId && categories[k].user == userId
    ensures (forall k :: 0 <= k < |categories| ==> categories[k].id != categoryId) ==> !r
    ensures UniqueIds(categories, CategoryKey) ==>
              (r <==> exists k :: 0 <= k < |categories| && categories[k].id == categoryId && categories[k].user == userId)
  {
    match IndexOf(categories, CategoryKey, categoryId)
    case None => false
    case Some(i) => categories[i].user == userId
  }

  // ---------------------------------------------------------------------------
  // getCategoriesByUserId, getActiveCategoriesByUserId
  // ---------------------------------------------------------------------------

  /** `findByUserId`: the user's categories, listed in table order (the query has no ORDER BY). */
  function FindByUserId(categories: seq<Category>, userId: UserId): (r: seq<Category>)
    ensures forall c :: c in r <==> c in categories && c.user == userId
    ensures |r| <= |categories|
  {
    if |categories| == 0 then []
    else
      var last := categories[|categories| - 1];
      assert categories == categories[..|categories| - 1] + [last];
      FindByUserId(categories[..|categories| - 1], userId) + (if last.user == userId then [last] else [])
  }

  /** `findByUserIdAndIsActiveTrue`: the user's categories whose isActive is true. */
  function FindByUserIdAndIsActiveTrue(categories: seq<Category>, userId: UserId): (r: seq<Category>)
    ensures forall c :: c in r <==> c in categories && c.user == userId && IsTrue(c.isActive)
    ensures |r| <= |categories|
  {
    if |categories| == 0 then []
    else
      var last := categories[|categories| - 1];
      assert categories == categories[..|categories| - 1] + [last];
      FindByUserIdAndIsActiveTrue(categories[..|categories| - 1], userId)
        + (if last.user == userId && IsTrue(last.isActive) then [last] else [])
  }

  /**
   * Deactivating the category at `i` removes exactly that category from its
   * owner's active listing; every user's full listing keeps its length.
   */
  lemma DeactivatedCategoryNotListed(categories: seq<Category>, i: nat, userId: UserId)
    requires UniqueIds(categories, CategoryKey) && i < |categories|
    ensures var after := categories[i := categories[i].(isActive := Some(false))];
            && (forall c :: c in FindByUserIdAndIsActiveTrue(after, userId) <==>
                  c in FindByUserIdAndIsActiveTrue(categories, userId) && c.id != categories[i].id)
            && |FindByUserId(after, userId)| == |FindByUserId(categories, userId)|
  {
    var after := categories[i := categories[i].(isActive := Some(false))];
    forall c ensures c in FindByUserIdAndIsActiveTrue(after, userId) <==>
                     c in FindByUserIdAndIsActiveTrue(categories, userId) && c.id != categories[i].id {
      DeactivatedCategoryRow(categories, i, c);
    }
    FindByUserIdKeepsLength(categories, i, categories[i].(isActive := Some(false)), userId);
  }

  /** One category's step of `DeactivatedCategoryNotListed`: the other rows keep both their place and their distinct ids. */
  lemma DeactivatedCategoryRow(categories: seq<Category>, i: nat, c: Category)
    requires UniqueIds(categories, CategoryKey) && i < |categories|
    ensures var after := categories[i := categories[i].(isActive := Some(false))];
            c in after && IsTrue(c.isActive) <==> c in categories && IsTrue(c.isActive) && c.id != categories[i].id
  {
    var after := categories[i := categories[i].(isActive := Some(false))];
    if c in after && IsTrue(c.isActive) {
      var k :| 0 <= k < |after| && after[k] == c;
      assert k != i;
      assert categories[k] == c;
    }
    if c in categories && IsTrue(c.isActive) && c.id != categories[i].id {
      var k :| 0 <= k < |categories| && categories[k] == c;
      assert k != i;
      assert after[k] == c;
    }
  }

  /** Rewriting one row without changing its owner keeps the length of every user's listing. */
  lemma {:induction false} FindByUserIdKeepsLength(categories: seq<Category>, i: nat, c: Category, userId: UserId)
    requires i < |categories| && c.user == categories[i].user
    ensures |FindByUserId(categories[i := c], userId)| == |FindByUserId(categories, userId)|
  {
    var n := |categories| - 1;
    var after := categories[i := c];
    assert after[..n] == if i < n then categories[..n][i := c] else categories[..n];
    if i < n {
      FindByUserIdKeepsLength(categories[..n], i, c, userId);
    }
  }
}
