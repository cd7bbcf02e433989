/** Generic lookups over a table held as a sequence of rows with integer ids. */
module Tables {
  import opened Wrappers

  /** `findById`: the position of the row whose id is `id`, if there is one. */
  function IndexOf<T>(s: seq<T>, idOf: T -> int, id: int): (r: Option<nat>)
    ensures r.Some? ==> r.value < |s| && idOf(s[r.value]) == id
    ensures r.None? <==> forall j :: 0 <= j < |s| ==> idOf(s[j]) != id
  {
    if |s| == 0 then None
    else if idOf(s[|s| - 1]) == id then Some(|s| - 1)
    else IndexOf(s[..|s| - 1], idOf, id)
  }

  /** No two rows share an id (the primary key). */
  ghost predicate UniqueIds<T>(s: seq<T>, idOf: T -> int)
  {
    forall i, j :: 0 <= i < j < |s| ==> idOf(s[i]) != idOf(s[j])
  }

  /** Every id is below the next value the IDENTITY column will hand out. */
  ghost predicate IdsBelow<T>(s: seq<T>, idOf: T -> int, next: int)
  {
    forall i :: 0 <= i < |s| ==> idOf(s[i]) < next
  }

  /** With unique ids, a lookup finds the one row carrying that id. */
  lemma IndexOfUnique<T>(s: seq<T>, idOf: T -> int, i: nat)
    requires UniqueIds(s, idOf) && i < |s|
    ensures IndexOf(s, idOf, idOf(s[i])) == Some(i)
  {
    assert IndexOf(s, idOf, idOf(s[i])).Some?;
  }

  /** Appending a row with a fresh id keeps ids unique and below the advanced counter. */
  lemma AppendFresh<T>(s: seq<T>, idOf: T -> int, next: int, row: T)
    requires UniqueIds(s, idOf) && IdsBelow(s, idOf, next) && idOf(row) == next
    ensures UniqueIds(s + [row], idOf) && IdsBelow(s + [row], idOf, next + 1)
  {
    var t := s + [row];
    forall i, j | 0 <= i < j < |t| ensures idOf(t[i]) != idOf(t[j]) {
      if j == |s| {
        assert idOf(t[i]) < next;
      }
    }
  }

  /** Replacing a row by one with the same id keeps ids unique and below the counter. */
  lemma ReplaceSameId<T>(s: seq<T>, idOf: T -> int, next: int, i: nat, row: T)
    requires UniqueIds(s, idOf) && IdsBelow(s, idOf, next) && i < |s| && idOf(row) == idOf(s[i])
    ensures UniqueIds(s[i := row], idOf) && IdsBelow(s[i := row], idOf, next)
  {
    var t := s[i := row];
    forall a, b | 0 <= a < b < |t| ensures idOf(t[a]) != idOf(t[b]) {
      assert idOf(t[a]) == idOf(s[a]) && idOf(t[b]) == idOf(s[b]);
    }
  }
}
