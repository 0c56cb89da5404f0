/**
  The ingredient import command: for each (name, measurement_unit) entry of
  the data file, in order, `get_or_create` on the Ingredient table. The
  file read is abstracted to the sequence of entries.
*/
module Seeding {
  import opened Outcomes
  import opened Rows
  import opened Models

  /** One entry of the data file. */
  datatype IngredientEntry = IngredientEntry(name: string, unit: string)

  /** The entry fits the Ingredient columns. */
  predicate Fits(e: IngredientEntry) {
    |e.name| <= IngredientNameMax && |e.unit| <= MeasurementUnitMax
  }

  /** A row `get` matches for an entry: same name and same unit. */
  predicate Same(e: IngredientEntry, i: Ingredient) {
    i.name == e.name && i.measurementUnit == e.unit
  }

  /** How many rows `get` matches for an entry. */
  function Matches(table: seq<Ingredient>, e: IngredientEntry): nat
    decreases |table|
  {
    if table == [] then 0
    else Matches(table[..|table| - 1], e) + if Same(e, table[|table| - 1]) then 1 else 0
  }

  /** The table and the next free id after an import, and the error that stopped it. */
  datatype Seeded = Seeded(table: seq<Ingredient>, next: nat, error: Option<Error>)

  /** One `get_or_create`: no match inserts a row under the next id, one match does nothing, more raise. */
  function SeedOne(table: seq<Ingredient>, next: nat, e: IngredientEntry): (r: Seeded)
    ensures Matches(table, e) == 0 ==> r == Seeded(table + [Ingredient(next, e.name, e.unit)], next + 1, None)
    ensures Matches(table, e) == 1 ==> r == Seeded(table, next, None)
    ensures Matches(table, e) >= 2 ==> r == Seeded(table, next, Some(MultipleObjectsReturned))
  {
    var n := Matches(table, e);
    if n == 0 then Seeded(table + [Ingredient(next, e.name, e.unit)], next + 1, None)
    else if n == 1 then Seeded(table, next, None)
    else Seeded(table, next, Some(MultipleObjectsReturned))
  }

  /** The import loop: entries in order; an exception ends the command, keeping what was inserted. */
  function Seed(table: seq<Ingredient>, next: nat, data: seq<IngredientEntry>): (r: Seeded)
    ensures r.error.Some? ==> r.error == Some(MultipleObjectsReturned)
    ensures |r.table| <= |table| + |data|
    decreases |data|
  {
    if |data| == 0 then Seeded(table, next, None)
    else
      var s := SeedOne(table, next, data[0]);
      if s.error.Some? then s else Seed(s.table, s.next, data[1..])
  }

  /** The loop's step: entry `i` is handled, then the import goes on from `i + 1` unless it failed. */
  lemma {:induction false} SeedStep(table: seq<Ingredient>, next: nat, data: seq<IngredientEntry>, i: nat)
    requires i < |data|
    ensures var s := SeedOne(table, next, data[i]);
      Seed(table, next, data[i..]) == if s.error.Some? then s else Seed(s.table, s.next, data[i + 1..])
  {
    assert data[i..][0] == data[i] && data[i..][1..] == data[i + 1..];
  }

  /** Inserting a row changes the match count of its own entry only. */
  lemma {:induction false} MatchesAppend(table: seq<Ingredient>, i: Ingredient, e: IngredientEntry)
    ensures Matches(table + [i], e) == Matches(table, e) + if Same(e, i) then 1 else 0
  {
    assert (table + [i])[..|table|] == table;
  }

  /** What an import may do to the table: append rows under consecutive ids from the counter. */
  ghost predicate AppendsFrom(table: seq<Ingredient>, next: nat, r: Seeded) {
    && |table| <= |r.table|
    && r.table[..|table|] == table
    && r.next == next + (|r.table| - |table|)
    && forall k | |table| <= k < |r.table| :: r.table[k].id == next + (k - |table|)
  }

  lemma {:induction false} AppendsCompose(table: seq<Ingredient>, next: nat, s: Seeded, r: Seeded)
    requires AppendsFrom(table, next, s) && AppendsFrom(s.table, s.next, r)
    ensures AppendsFrom(table, next, r)
  {
    assert r.table[..|table|] == r.table[..|s.table|][..|table|];
    forall k | |table| <= k < |s.table| ensures r.table[k] == s.table[k] {
      assert r.table[k] == r.table[..|s.table|][k];
    }
  }

  lemma {:induction false} SeedOneAppends(table: seq<Ingredient>, next: nat, e: IngredientEntry)
    ensures AppendsFrom(table, next, SeedOne(table, next, e))
  {
    assert table[..|table|] == table;
    assert (table + [Ingredient(next, e.name, e.unit)])[..|table|] == table;
  }

  /**
    The import only appends: the rows already there stay as they were, and
    the new rows carry consecutive ids from `next`.
  */
  lemma {:induction false} SeedAppends(table: seq<Ingredient>, next: nat, data: seq<IngredientEntry>)
    ensures AppendsFrom(table, next, Seed(table, next, data))
    decreases |data|
  {
    if |data| == 0 {
      assert table[..|table|] == table;
    } else {
      var s := SeedOne(table, next, data[0]);
      SeedOneAppends(table, next, data[0]);
      if s.error.None? {
        SeedAppends(s.table, s.next, data[1..]);
        AppendsCompose(table, next, s, Seed(s.table, s.next, data[1..]));
      }
    }
  }

  /** The rows past the first `n` come from the data file and fit their columns. */
  ghost predicate NewRowsFrom(n: nat, r: Seeded, data: seq<IngredientEntry>) {
    forall k | n <= k < |r.table| ::
      IngredientEntry(r.table[k].name, r.table[k].measurementUnit) in data && ValidIngredient(r.table[k])
  }

  /** Every new row comes from the data file and fits its columns when the entries do. */
  lemma {:induction false} SeedRowsFromData(table: seq<Ingredient>, next: nat, data: seq<IngredientEntry>)
    requires forall e | e in data :: Fits(e)
    ensures NewRowsFrom(|table|, Seed(table, next, data), data)
    decreases |data|
  {
    if |data| > 0 {
      var s := SeedOne(table, next, data[0]);
      SeedOneAppends(table, next, data[0]);
      assert data[0] in data;
      assert NewRowsFrom(|table|, s, data);
      if s.error.None? {
        assert forall e | e in data[1..] :: e in data;
        SeedRowsFromData(s.table, s.next, data[1..]);
        var r := Seed(s.table, s.next, data[1..]);
        SeedAppends(s.table, s.next, data[1..]);
        forall k | |table| <= k < |s.table| ensures r.table[k] == s.table[k] {
          assert r.table[k] == r.table[..|s.table|][k];
        }
      }
    }
  }

  /**
    A completed import leaves every entry of the data matched by exactly
    one row, and the match count of every entry absent from the data as it
    was (absent ingredients are untouched).
  */
  lemma {:induction false} SeedCounts(table: seq<Ingredient>, next: nat, data: seq<IngredientEntry>)
    ensures var r := Seed(table, next, data);
      forall e | e !in data :: Matches(r.table, e) == Matches(table, e)
    ensures var r := Seed(table, next, data);
      r.error.None? ==> forall e | e in data :: Matches(r.table, e) == 1
    decreases |data|
  {
    if |data| > 0 {
      var e0 := data[0];
      var s := SeedOne(table, next, e0);
      if s.error.None? {
        SeedCounts(s.table, s.next, data[1..]);
        var r := Seed(table, next, data);
        assert r == Seed(s.table, s.next, data[1..]);
        forall e ensures Matches(s.table, e) == Matches(table, e) + (if Matches(table, e0) == 0 && e == e0 then 1 else 0) {
          if Matches(table, e0) == 0 {
            MatchesAppend(table, Ingredient(next, e0.name, e0.unit), e);
          }
        }
        assert forall e | e !in data :: e !in data[1..] && e != e0;
        forall e | e in data ensures r.error.None? ==> Matches(r.table, e) == 1 {
          if e !in data[1..] {
            assert e == e0;
          }
        }
      }
    }
  }

  /** On a table where every entry is matched once, the import changes nothing. */
  lemma {:induction false} SeedSettled(table: seq<Ingredient>, next: nat, data: seq<IngredientEntry>)
    requires forall e | e in data :: Matches(table, e) == 1
    ensures Seed(table, next, data) == Seeded(table, next, None)
    decreases |data|
  {
    if |data| > 0 {
      assert data[0] in data;
      assert forall e | e in data[1..] :: e in data;
      SeedSettled(table, next, data[1..]);
    }
  }

  /** Importing the same data twice leaves the table of one import. */
  lemma {:induction false} SeedIdempotent(table: seq<Ingredient>, next: nat, data: seq<IngredientEntry>)
    requires Seed(table, next, data).error.None?
    ensures var r := Seed(table, next, data);
      Seed(r.table, r.next, data) == r
  {
    SeedCounts(table, next, data);
    var r := Seed(table, next, data);
    SeedSettled(r.table, r.next, data);
  }

  /** An entry already in the table once is not inserted again. */
  lemma {:induction false} SeedKeepsPresent(table: seq<Ingredient>, next: nat, e: IngredientEntry)
    requires Matches(table, e) == 1
    ensures Seed(table, next, [e]) == Seeded(table, next, None)
  {
  }
}
