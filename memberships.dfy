/**
  Favourites, shopping-cart entries and subscriptions are bare pairs: no
  uniqueness constraint backs them, so "at most one row per pair" holds only
  because the handlers insert and delete through the guarded operations
  below. Each returns the new table and the error that stopped it, if any.
*/
module Memberships {
  import opened Outcomes
  import opened Rows

  /** The table after a guarded insert or delete, and the error that stopped it. */
  datatype Toggled<T> = Toggled(rows: seq<T>, error: Option<Error>)

  /** The two request methods of a toggle endpoint: POST adds, DELETE removes. */
  datatype Action = Add | Remove

  /** Selects every row but `x`. */
  function Other<T(==)>(x: T): T -> bool {
    y => y != x
  }

  /**
    `get_or_create` on the whole row followed by the handler's check of
    `created`: no equal row inserts one; one equal row is "already there";
    two or more make the `get` raise.
  */
  function GetOrCreate<T(==,!new)>(rows: seq<T>, x: T): (r: Toggled<T>)
    ensures x in r.rows
    ensures r.error == None <==> x !in rows
    ensures r.error == None ==> r.rows == rows + [x]
    ensures r.error == Some(AlreadyExists) <==> multiset(rows)[x] == 1
    ensures r.error.Some? ==> r.rows == rows
  {
    var n := multiset(rows)[x];
    if n == 0 then Toggled(rows + [x], None)
    else if n == 1 then Toggled(rows, Some(AlreadyExists))
    else Toggled(rows, Some(MultipleObjectsReturned))
  }

  /** `filter(...).exists()` then `create`: any equal row means "already there". */
  function CreateIfAbsent<T(==,!new)>(rows: seq<T>, x: T): (r: Toggled<T>)
    ensures x in r.rows
    ensures r.error == None <==> x !in rows
    ensures r.error == None ==> r.rows == rows + [x]
    ensures r.error.Some? ==> r.rows == rows && r.error == Some(AlreadyExists)
  {
    if x in rows then Toggled(rows, Some(AlreadyExists)) else Toggled(rows + [x], None)
  }

  /**
    `get_object_or_404(...).delete()`: no equal row is "not found"; one is
    deleted; two or more make the `get` raise.
  */
  function DeleteOne<T(==,!new)>(rows: seq<T>, x: T): (r: Toggled<T>)
    ensures r.error == None <==> multiset(rows)[x] == 1
    ensures r.error == Some(NotFound) <==> x !in rows
    ensures r.error.Some? ==> r.rows == rows
    ensures r.error == None ==> x !in r.rows && multiset(r.rows) == multiset(rows) - multiset{x}
  {
    var n := multiset(rows)[x];
    if n == 0 then Toggled(rows, Some(NotFound))
    else if n == 1 then
      var rest := Filter(rows, Other(x));
      assert multiset(rest) == multiset(rows) - multiset{x} by {
        forall z ensures multiset(rest)[z] == (multiset(rows) - multiset{x})[z] {
          FilterCount(rows, Other(x), z);
        }
      }
      Toggled(rest, None)
    else Toggled(rows, Some(MultipleObjectsReturned))
  }

  /** The favourite and shopping-cart endpoints, once the recipe is found. */
  function Toggle<T(==,!new)>(rows: seq<T>, x: T, action: Action): (r: Toggled<T>)
    ensures action == Add ==> x in r.rows
    ensures action == Remove && r.error == None ==> x !in r.rows
    ensures r.error.Some? ==> r.rows == rows
  {
    match action
    case Add => GetOrCreate(rows, x)
    case Remove => DeleteOne(rows, x)
  }

  /** The subscribe endpoint, once the author is found and is not the requester. */
  function ToggleIfAbsent<T(==,!new)>(rows: seq<T>, x: T, action: Action): (r: Toggled<T>)
    ensures action == Add ==> x in r.rows
    ensures action == Remove && r.error == None ==> x !in r.rows
    ensures r.error.Some? ==> r.rows == rows
    ensures r.error != Some(MultipleObjectsReturned) || action == Remove
  {
    match action
    case Add => CreateIfAbsent(rows, x)
    case Remove => DeleteOne(rows, x)
  }

  /** The guarded operations keep a table free of duplicate rows. */
  lemma {:induction false} ToggleKeepsNoDuplicates<T(!new)>(rows: seq<T>, x: T, action: Action)
    requires NoDuplicates(rows)
    ensures NoDuplicates(Toggle(rows, x, action).rows)
    ensures NoDuplicates(ToggleIfAbsent(rows, x, action).rows)
  {
    assert (rows + [x])[..|rows|] == rows;
    FilterKeepsNoDuplicates(rows, Other(x));
  }

  /** On a duplicate-free table neither `get` can raise. */
  lemma {:induction false} NoDuplicatesNeverMultiple<T(!new)>(rows: seq<T>, x: T, action: Action)
    requires NoDuplicates(rows)
    ensures Toggle(rows, x, action).error != Some(MultipleObjectsReturned)
    ensures ToggleIfAbsent(rows, x, action).error != Some(MultipleObjectsReturned)
  {
    NoDuplicatesMeans(rows);
    if x in rows {
      assert multiset(rows)[x] == 1;
    }
  }

  /**
    The store alone admits a duplicated pair, and then both endpoints fail
    for that pair: adding says "already there" only for exactly one row, and
    removing cannot pick the row to delete.
  */
  lemma {:induction false} DuplicatePairBlocksToggles<T(!new)>(x: T)
    ensures !NoDuplicates([x, x])
    ensures GetOrCreate([x, x], x).error == Some(MultipleObjectsReturned)
    ensures DeleteOne([x, x], x).error == Some(MultipleObjectsReturned)
  {
    assert [x, x][..1] == [x];
    assert multiset([x, x])[x] == 2;
  }

  /** Removing what was just added restores the table. */
  lemma {:induction false} AddThenRemove<T(!new)>(rows: seq<T>, x: T)
    requires x !in rows
    ensures Toggle(Toggle(rows, x, Add).rows, x, Remove) == Toggled(rows, None)
  {
    assert multiset(rows + [x])[x] == 1 by {
      assert multiset(rows + [x]) == multiset(rows) + multiset{x};
    }
    FilterAppend(rows, [x], Other(x));
    FilterAll(rows, Other(x));
  }

  /** Adding what was just removed restores the table's contents (the row goes last). */
  lemma {:induction false} RemoveThenAdd<T(!new)>(rows: seq<T>, x: T)
    requires multiset(rows)[x] == 1
    ensures multiset(Toggle(Toggle(rows, x, Remove).rows, x, Add).rows) == multiset(rows)
  {
  }

  /** A second add of the same pair fails and changes nothing. */
  lemma {:induction false} AddTwice<T(!new)>(rows: seq<T>, x: T)
    requires x !in rows
    ensures Toggle(Toggle(rows, x, Add).rows, x, Add) == Toggled(rows + [x], Some(AlreadyExists))
    ensures ToggleIfAbsent(ToggleIfAbsent(rows, x, Add).rows, x, Add) == Toggled(rows + [x], Some(AlreadyExists))
  {
    assert multiset(rows + [x]) == multiset(rows) + multiset{x};
  }

  /** A second remove of the same pair fails with "not found" and changes nothing. */
  lemma {:induction false} RemoveTwice<T(!new)>(rows: seq<T>, x: T)
    requires multiset(rows)[x] == 1
    ensures var once := Toggle(rows, x, Remove).rows;
      Toggle(once, x, Remove) == Toggled(once, Some(NotFound))
  {
  }
}
