/**
  The relational store and the handlers that change it. `Db` holds each
  table as a sequence of rows plus the next free primary key of the two
  tables whose rows the handlers create with fresh ids. `Valid` is what the
  schema and the serializers' validation guarantee; `Consistent` adds what
  only the handlers maintain: no duplicated favourite, cart or subscription
  pair, and no self-subscription.
*/
module Store {
  import opened Outcomes
  import opened Rows
  import opened Models
  import opened Composition
  import opened Memberships
  import opened Seeding


  // The key sets of the three tables other rows reference, built row by row.

  function RecipeIds(recipes: seq<Recipe>): set<RecipeId>
    decreases |recipes|
  {
    if recipes == [] then {} else RecipeIds(recipes[..|recipes| - 1]) + {recipes[|recipes| - 1].id}
  }

  function IngredientIds(ingredients: seq<Ingredient>): set<IngredientId>
    decreases |ingredients|
  {
    if ingredients == [] then {}
    else IngredientIds(ingredients[..|ingredients| - 1]) + {ingredients[|ingredients| - 1].id}
  }

  function TagIds(tags: seq<Tag>): set<TagId>
    decreases |tags|
  {
    if tags == [] then {} else TagIds(tags[..|tags| - 1]) + {tags[|tags| - 1].id}
  }

  /** A key is in the key set exactly when some row carries it. */
  lemma {:induction false} RecipeIdsMeans(recipes: seq<Recipe>, x: RecipeId)
    ensures x in RecipeIds(recipes) <==> exists r | r in recipes :: r.id == x
    decreases |recipes|
  {
    if recipes != [] {
      var init, last := recipes[..|recipes| - 1], recipes[|recipes| - 1];
      assert recipes == init + [last];
      RecipeIdsMeans(init, x);
    }
  }

  /** The position of the recipe with primary key `id` (`get_object_or_404`). */
  function RecipeIndex(recipes: seq<Recipe>, id: RecipeId): (k: Option<nat>)
    ensures k.Some? ==> k.value < |recipes| && recipes[k.value].id == id
    ensures k.None? <==> id !in RecipeIds(recipes)
    decreases |recipes|
  {
    if |recipes| == 0 then None
    else if recipes[|recipes| - 1].id == id then Some(|recipes| - 1)
    else RecipeIndex(recipes[..|recipes| - 1], id)
  }

  // Row selectors of the cascade that follows a recipe's deletion.
  function RecipeNotWithId(id: RecipeId): Recipe -> bool {
    (r: Recipe) => r.id != id
  }

  function LinkNotOf(id: RecipeId): RecipeTag -> bool {
    (l: RecipeTag) => l.recipe != id
  }

  function FavoriteNotOf(id: RecipeId): Favorite -> bool {
    (f: Favorite) => f.recipe != id
  }

  function CartNotOf(id: RecipeId): Cart -> bool {
    (c: Cart) => c.recipe != id
  }

  /** Deleting the recipe with key `id` removes exactly that key from the table. */
  lemma {:induction false} RecipeIdsAfterDelete(recipes: seq<Recipe>, id: RecipeId)
    ensures RecipeIds(Filter(recipes, RecipeNotWithId(id))) == RecipeIds(recipes) - {id}
    decreases |recipes|
  {
    if recipes != [] {
      var init, last := recipes[..|recipes| - 1], recipes[|recipes| - 1];
      RecipeIdsAfterDelete(init, id);
      var rest := Filter(init, RecipeNotWithId(id));
      if last.id != id {
        assert (rest + [last])[..|rest|] == rest;
      } else {
        assert Filter(recipes, RecipeNotWithId(id)) == rest;
      }
    }
  }

  /**
    Ingredient keys strictly increase along the table and stay below the
    next free key (rows are created under the counter's keys, in order), and
    every name and unit fits its column.
  */
  ghost predicate IngredientsValid(ingredients: seq<Ingredient>, next: nat)
    decreases |ingredients|
  {
    ingredients == [] ||
    var last := ingredients[|ingredients| - 1];
    last.id < next && ValidIngredient(last) && IngredientsValid(ingredients[..|ingredients| - 1], last.id)
  }

  /** Tag fields fit, the slug is a slug, and name, colour and slug are each unique. */
  ghost predicate TagsValid(tags: seq<Tag>) {
    TagsUnique(tags) && forall t | t in tags :: ValidTag(t)
  }

  /**
    Recipe keys strictly increase along the table and stay below the next
    free key, the fields validate, and the author exists.
  */
  ghost predicate RecipesValid(recipes: seq<Recipe>, next: nat, users: seq<UserId>)
    decreases |recipes|
  {
    recipes == [] ||
    var last := recipes[|recipes| - 1];
    && last.id < next && ValidRecipe(last) && last.author in users
    && RecipesValid(recipes[..|recipes| - 1], last.id, users)
  }

  /** The row-by-row statement of a valid recipe table: keys unique and below the counter. */
  lemma {:induction false} RecipesValidMeans(recipes: seq<Recipe>, next: nat, users: seq<UserId>)
    requires RecipesValid(recipes, next, users)
    ensures forall r | r in recipes :: r.id < next && ValidRecipe(r) && r.author in users
    ensures forall i, j | 0 <= i < j < |recipes| :: recipes[i].id < recipes[j].id
    decreases |recipes|
  {
    if recipes != [] {
      var init, last := recipes[..|recipes| - 1], recipes[|recipes| - 1];
      assert recipes == init + [last];
      RecipesValidMeans(init, last.id, users);
      forall i, j | 0 <= i < j < |recipes| ensures recipes[i].id < recipes[j].id {
        if j < |init| {
          assert recipes[i] == init[i] && recipes[j] == init[j];
        } else {
          assert recipes[i] == init[i] && init[i] in init;
        }
      }
    }
  }

  /** The same for the ingredient table. */
  lemma {:induction false} IngredientsValidMeans(ingredients: seq<Ingredient>, next: nat)
    requires IngredientsValid(ingredients, next)
    ensures forall i | i in ingredients :: i.id < next && ValidIngredient(i)
    ensures forall i, j | 0 <= i < j < |ingredients| :: ingredients[i].id < ingredients[j].id
    decreases |ingredients|
  {
    if ingredients != [] {
      var init, last := ingredients[..|ingredients| - 1], ingredients[|ingredients| - 1];
      assert ingredients == init + [last];
      IngredientsValidMeans(init, last.id);
      forall i, j | 0 <= i < j < |ingredients| ensures ingredients[i].id < ingredients[j].id {
        if j < |init| {
          assert ingredients[i] == init[i] && ingredients[j] == init[j];
        } else {
          assert ingredients[i] == init[i] && init[i] in init;
        }
      }
    }
  }

  // The foreign keys of each referencing table, as row constraints.

  function LinkRefs(tagIds: set<TagId>, recipeIds: set<RecipeId>): RecipeTag -> bool {
    (l: RecipeTag) => l.tag in tagIds && l.recipe in recipeIds
  }

  function AmountRefs(ingredientIds: set<IngredientId>, recipeIds: set<RecipeId>): IngredientAmount -> bool {
    (a: IngredientAmount) => a.ingredient in ingredientIds && a.recipe in recipeIds
  }

  function FavoriteRefs(recipeIds: set<RecipeId>, users: seq<UserId>): Favorite -> bool {
    (f: Favorite) => f.recipe in recipeIds && f.user in users
  }

  function CartRefs(recipeIds: set<RecipeId>, users: seq<UserId>): Cart -> bool {
    (c: Cart) => c.recipe in recipeIds && c.user in users
  }

  function SubscriptionRefs(users: seq<UserId>): Subscription -> bool {
    (s: Subscription) => s.author in users && s.user in users
  }

  ghost predicate LinksValid(links: seq<RecipeTag>, tagIds: set<TagId>, recipeIds: set<RecipeId>) {
    AllRows(links, LinkRefs(tagIds, recipeIds))
  }

  ghost predicate AmountsValid(amounts: seq<IngredientAmount>, ingredientIds: set<IngredientId>,
                               recipeIds: set<RecipeId>) {
    AllRows(amounts, AmountRefs(ingredientIds, recipeIds))
  }

  ghost predicate FavoritesValid(favorites: seq<Favorite>, recipeIds: set<RecipeId>, users: seq<UserId>) {
    AllRows(favorites, FavoriteRefs(recipeIds, users))
  }

  ghost predicate CartsValid(carts: seq<Cart>, recipeIds: set<RecipeId>, users: seq<UserId>) {
    AllRows(carts, CartRefs(recipeIds, users))
  }

  ghost predicate SubscriptionsValid(subscriptions: seq<Subscription>, users: seq<UserId>) {
    AllRows(subscriptions, SubscriptionRefs(users))
  }

  /** A snapshot of every table and key counter of the store. */
  datatype Tables = Tables(
    users: seq<UserId>, ingredients: seq<Ingredient>, tags: seq<Tag>, recipes: seq<Recipe>,
    recipeTags: seq<RecipeTag>, amounts: seq<IngredientAmount>, favorites: seq<Favorite>, carts: seq<Cart>,
    subscriptions: seq<Subscription>, nextIngredientId: nat, nextRecipeId: nat)

  /**
    Primary keys are unique and below the next free key, every foreign key
    points at an existing row, the field limits and validators hold, and
    tag names, colours and slugs are each unique.
  */
  ghost predicate Schema(t: Tables) {
    && NoDuplicates(t.users)
    && IngredientsValid(t.ingredients, t.nextIngredientId)
    && TagsValid(t.tags)
    && RecipesValid(t.recipes, t.nextRecipeId, t.users)
    && LinksValid(t.recipeTags, TagIds(t.tags), RecipeIds(t.recipes))
    && AmountsValid(t.amounts, IngredientIds(t.ingredients), RecipeIds(t.recipes))
    && FavoritesValid(t.favorites, RecipeIds(t.recipes), t.users)
    && CartsValid(t.carts, RecipeIds(t.recipes), t.users)
    && SubscriptionsValid(t.subscriptions, t.users)
  }

  function NotSelf(): Subscription -> bool {
    (s: Subscription) => s.author != s.user
  }

  /** What the handlers keep beyond the schema: no duplicated pair, no self-subscription. */
  ghost predicate PairsUnique(t: Tables) {
    && NoDuplicates(t.favorites)
    && NoDuplicates(t.carts)
    && NoDuplicates(t.subscriptions)
    && AllRows(t.subscriptions, NotSelf())
  }

  /** Amount rows stay valid when the ingredient table gains keys. */
  lemma {:induction false} AmountsWiden(amounts: seq<IngredientAmount>, ingredientIds: set<IngredientId>,
                     moreIngredientIds: set<IngredientId>, recipeIds: set<RecipeId>)
    requires AmountsValid(amounts, ingredientIds, recipeIds) && ingredientIds <= moreIngredientIds
    ensures AmountsValid(amounts, moreIngredientIds, recipeIds)
  {
    AllRowsMeans(amounts, AmountRefs(ingredientIds, recipeIds));
    AllRowsMeans(amounts, AmountRefs(moreIngredientIds, recipeIds));
  }

  /** Inserting a row under the next free key keeps the ingredient table valid. */
  lemma {:induction false} IngredientInsert(ingredients: seq<Ingredient>, next: nat, row: Ingredient)
    requires IngredientsValid(ingredients, next)
    requires row.id == next && ValidIngredient(row)
    ensures IngredientsValid(ingredients + [row], next + 1)
    ensures IngredientIds(ingredients + [row]) == IngredientIds(ingredients) + {next}
  {
    assert (ingredients + [row])[..|ingredients|] == ingredients;
  }

  /** One `get_or_create` of an entry that fits keeps an ingredient table valid and loses no key. */
  lemma {:induction false} SeedOneValid(before: seq<Ingredient>, ingredients: seq<Ingredient>, next: nat,
                                        e: IngredientEntry)
    requires IngredientsValid(ingredients, next) && IngredientIds(before) <= IngredientIds(ingredients)
    requires Fits(e)
    ensures var s := SeedOne(ingredients, next, e);
      IngredientsValid(s.table, s.next) && IngredientIds(before) <= IngredientIds(s.table)
  {
    if Matches(ingredients, e) == 0 {
      IngredientInsert(ingredients, next, Ingredient(next, e.name, e.unit));
    }
  }

  /** Every key of a valid recipe table is below the counter. */
  lemma {:induction false} RecipeIdsBelow(recipes: seq<Recipe>, next: nat, users: seq<UserId>)
    requires RecipesValid(recipes, next, users)
    ensures forall x | x in RecipeIds(recipes) :: x < next
    decreases |recipes|
  {
    if recipes != [] {
      RecipeIdsBelow(recipes[..|recipes| - 1], recipes[|recipes| - 1].id, users);
    }
  }

  /** Inserting a recipe under the next free key keeps the recipe table valid. */
  lemma {:induction false} RecipeInsert(recipes: seq<Recipe>, next: nat, users: seq<UserId>, row: Recipe)
    requires RecipesValid(recipes, next, users)
    requires row.id == next && ValidRecipe(row) && row.author in users
    ensures RecipesValid(recipes + [row], next + 1, users)
    ensures RecipeIds(recipes + [row]) == RecipeIds(recipes) + {next}
    ensures next !in RecipeIds(recipes)
  {
    assert (recipes + [row])[..|recipes|] == recipes;
    RecipeIdsBelow(recipes, next, users);
  }

  /** Each row of a valid recipe table validates and has an existing author. */
  lemma {:induction false} RecipeAt(recipes: seq<Recipe>, next: nat, users: seq<UserId>, k: nat)
    requires RecipesValid(recipes, next, users) && k < |recipes|
    ensures ValidRecipe(recipes[k]) && recipes[k].author in users
  {
    RecipesValidMeans(recipes, next, users);
    assert recipes[k] in recipes;
  }

  /** A larger counter bounds the same table. */
  lemma {:induction false} RecipesRaise(recipes: seq<Recipe>, next: nat, more: nat, users: seq<UserId>)
    requires RecipesValid(recipes, next, users) && next <= more
    ensures RecipesValid(recipes, more, users)
  {
  }

  /** Any selection of rows from a valid recipe table is valid. */
  lemma {:induction false} RecipesFilter(recipes: seq<Recipe>, next: nat, users: seq<UserId>, keep: Recipe -> bool)
    requires RecipesValid(recipes, next, users)
    ensures RecipesValid(Filter(recipes, keep), next, users)
    decreases |recipes|
  {
    if recipes != [] {
      var init, last := recipes[..|recipes| - 1], recipes[|recipes| - 1];
      RecipesFilter(init, last.id, users, keep);
      var rest := Filter(init, keep);
      if keep(last) {
        assert (rest + [last])[..|rest|] == rest;
      } else {
        assert Filter(recipes, keep) == rest;
        RecipesRaise(rest, last.id, next, users);
      }
    }
  }

  /** Overwriting a recipe's fields, not its key, keeps the recipe table valid and its keys. */
  lemma {:induction false} RecipeReplace(recipes: seq<Recipe>, next: nat, users: seq<UserId>, k: nat, row: Recipe)
    requires RecipesValid(recipes, next, users)
    requires k < |recipes| && row.id == recipes[k].id && ValidRecipe(row) && row.author in users
    ensures RecipesValid(recipes[k := row], next, users)
    ensures RecipeIds(recipes[k := row]) == RecipeIds(recipes)
    decreases |recipes|
  {
    var init, last := recipes[..|recipes| - 1], recipes[|recipes| - 1];
    var updated := recipes[k := row];
    if k == |recipes| - 1 {
      assert updated[..|updated| - 1] == init;
    } else {
      RecipeReplace(init, last.id, users, k, row);
      assert updated[..|updated| - 1] == init[k := row];
    }
  }

  /** The rows that reference recipes stay valid when the recipe table gains keys. */
  lemma {:induction false} ReferencesWiden(links: seq<RecipeTag>, amounts: seq<IngredientAmount>, favorites: seq<Favorite>,
                        carts: seq<Cart>, tagIds: set<TagId>, ingredientIds: set<IngredientId>,
                        recipeIds: set<RecipeId>, more: set<RecipeId>, users: seq<UserId>)
    requires LinksValid(links, tagIds, recipeIds) && AmountsValid(amounts, ingredientIds, recipeIds)
    requires FavoritesValid(favorites, recipeIds, users) && CartsValid(carts, recipeIds, users)
    requires recipeIds <= more
    ensures LinksValid(links, tagIds, more) && AmountsValid(amounts, ingredientIds, more)
    ensures FavoritesValid(favorites, more, users) && CartsValid(carts, more, users)
  {
    AllRowsMeans(links, LinkRefs(tagIds, recipeIds));
    AllRowsMeans(links, LinkRefs(tagIds, more));
    AllRowsMeans(amounts, AmountRefs(ingredientIds, recipeIds));
    AllRowsMeans(amounts, AmountRefs(ingredientIds, more));
    AllRowsMeans(favorites, FavoriteRefs(recipeIds, users));
    AllRowsMeans(favorites, FavoriteRefs(more, users));
    AllRowsMeans(carts, CartRefs(recipeIds, users));
    AllRowsMeans(carts, CartRefs(more, users));
  }

  /** A key absent from the recipe table is referenced by no tag link and no amount row. */
  lemma {:induction false} Unreferenced(links: seq<RecipeTag>, amounts: seq<IngredientAmount>, tagIds: set<TagId>,
                     ingredientIds: set<IngredientId>, recipeIds: set<RecipeId>, id: RecipeId)
    requires LinksValid(links, tagIds, recipeIds) && AmountsValid(amounts, ingredientIds, recipeIds)
    requires id !in recipeIds
    ensures forall l | l in links :: l.recipe != id
    ensures forall a | a in amounts :: a.recipe != id
  {
    AllRowsMeans(links, LinkRefs(tagIds, recipeIds));
    AllRowsMeans(amounts, AmountRefs(ingredientIds, recipeIds));
  }

  /** The links of a new recipe reference it and existing tags. */
  lemma {:induction false} LinksInsert(links: seq<RecipeTag>, tagIds: set<TagId>, recipeIds: set<RecipeId>, id: RecipeId,
                    tags: seq<TagId>)
    requires LinksValid(links, tagIds, recipeIds)
    requires forall t | t in tags :: t in tagIds
    ensures LinksValid(links + TagLinks(id, tags), tagIds, recipeIds + {id})
  {
    var added := TagLinks(id, tags);
    forall l | l in added ensures l.tag in tagIds && l.recipe == id {
      var i :| 0 <= i < |added| && added[i] == l;
      assert tags[i] in tags;
    }
    AllRowsMeans(links, LinkRefs(tagIds, recipeIds));
    AllRowsMeans(links + added, LinkRefs(tagIds, recipeIds + {id}));
  }

  /** The amount rows of a new recipe reference it and existing ingredients. */
  lemma {:induction false} AmountsInsert(amounts: seq<IngredientAmount>, ingredientIds: set<IngredientId>,
                      recipeIds: set<RecipeId>, id: RecipeId, lines: seq<IngredientLine>)
    requires AmountsValid(amounts, ingredientIds, recipeIds)
    requires forall l | l in lines :: l.ingredient in ingredientIds
    ensures AmountsValid(amounts + AmountRows(id, lines), ingredientIds, recipeIds + {id})
  {
    var added := AmountRows(id, lines);
    forall a | a in added ensures a.ingredient in ingredientIds && a.recipe == id {
      var i :| 0 <= i < |added| && added[i] == a;
      assert lines[i] in lines;
    }
    AllRowsMeans(amounts, AmountRefs(ingredientIds, recipeIds));
    AllRowsMeans(amounts + added, AmountRefs(ingredientIds, recipeIds + {id}));
  }

  /** The cascade leaves no row referencing the deleted key, and the rest valid. */
  lemma {:induction false} ReferencesAfterDelete(links: seq<RecipeTag>, amounts: seq<IngredientAmount>, favorites: seq<Favorite>,
                              carts: seq<Cart>, tagIds: set<TagId>, ingredientIds: set<IngredientId>,
                              recipeIds: set<RecipeId>, id: RecipeId, users: seq<UserId>)
    requires LinksValid(links, tagIds, recipeIds) && AmountsValid(amounts, ingredientIds, recipeIds)
    requires FavoritesValid(favorites, recipeIds, users) && CartsValid(carts, recipeIds, users)
    ensures LinksValid(Filter(links, LinkNotOf(id)), tagIds, recipeIds - {id})
    ensures AmountsValid(Filter(amounts, AmountNotOf(id)), ingredientIds, recipeIds - {id})
    ensures FavoritesValid(Filter(favorites, FavoriteNotOf(id)), recipeIds - {id}, users)
    ensures CartsValid(Filter(carts, CartNotOf(id)), recipeIds - {id}, users)
  {
    FilterMembers(links, LinkNotOf(id));
    FilterMembers(amounts, AmountNotOf(id));
    FilterMembers(favorites, FavoriteNotOf(id));
    FilterMembers(carts, CartNotOf(id));
    AllRowsMeans(links, LinkRefs(tagIds, recipeIds));
    AllRowsMeans(Filter(links, LinkNotOf(id)), LinkRefs(tagIds, recipeIds - {id}));
    AllRowsMeans(amounts, AmountRefs(ingredientIds, recipeIds));
    AllRowsMeans(Filter(amounts, AmountNotOf(id)), AmountRefs(ingredientIds, recipeIds - {id}));
    AllRowsMeans(favorites, FavoriteRefs(recipeIds, users));
    AllRowsMeans(Filter(favorites, FavoriteNotOf(id)), FavoriteRefs(recipeIds - {id}, users));
    AllRowsMeans(carts, CartRefs(recipeIds, users));
    AllRowsMeans(Filter(carts, CartNotOf(id)), CartRefs(recipeIds - {id}, users));
  }

  /** A guarded insert or delete of a row that meets the table's constraint keeps every row meeting it. */
  lemma {:induction false} ToggledRowsValid<T(!new)>(rows: seq<T>, x: T, action: Action, ok: T -> bool)
    requires AllRows(rows, ok) && ok(x)
    ensures AllRows(Toggle(rows, x, action).rows, ok)
    ensures AllRows(ToggleIfAbsent(rows, x, action).rows, ok)
  {
    AllRowsMeans(rows, ok);
    var removed := DeleteOne(rows, x).rows;
    forall y | y in removed ensures ok(y) {
      assert y in multiset(removed);
    }
    AllRowsMeans(removed, ok);
    AllRowsMeans(rows + [x], ok);
  }

  /**
    The import command's loop over the data entries: `get_or_create` per
    entry, on the table and key counter held locally.
  */
  method SeedTable(ingredients: seq<Ingredient>, nextId: nat, data: seq<IngredientEntry>)
    returns (table: seq<Ingredient>, next: nat, error: Option<Error>)
    requires IngredientsValid(ingredients, nextId)
    requires forall e | e in data :: Fits(e)
    ensures Seeded(table, next, error) == Seed(ingredients, nextId, data)
    ensures IngredientsValid(table, next)
    ensures IngredientIds(ingredients) <= IngredientIds(table)
  {
    table, next := ingredients, nextId;
    error := None;
    var i := 0;
    while i < |data|
      invariant 0 <= i <= |data|
      invariant error == None
      invariant Seed(table, next, data[i..]) == Seed(ingredients, nextId, data)
      invariant IngredientsValid(table, next)
      invariant IngredientIds(ingredients) <= IngredientIds(table)
    {
      var e := data[i];
      SeedStep(table, next, data, i);
      var step := SeedOne(table, next, e);
      if step.error.Some? {
        error := step.error;
        return;
      }
      assert e in data;
      SeedOneValid(ingredients, table, next, e);
      table, next := step.table, step.next;
      i := i + 1;
    }
  }

  /** `RecipeTag.objects.create` once per supplied tag, in order: one link row per tag. */
  method LinkTags(links: seq<RecipeTag>, id: RecipeId, tagIds: seq<TagId>) returns (r: seq<RecipeTag>)
    ensures r == links + TagLinks(id, tagIds)
  {
    r := links;
    var i := 0;
    while i < |tagIds|
      invariant 0 <= i <= |tagIds|
      invariant r == links + TagLinks(id, tagIds[..i])
    {
      assert TagLinks(id, tagIds[..i + 1]) == TagLinks(id, tagIds[..i]) + [RecipeTag(tagIds[i], id)];
      r := r + [RecipeTag(tagIds[i], id)];
      i := i + 1;
    }
    assert tagIds[..i] == tagIds;
  }

  /** `setattr(instance, attr, value)` for each validated field, in order. */
  method SetAttrs(r: Recipe, fields: seq<RecipeField>) returns (u: Recipe)
    ensures u == ApplyFields(r, fields)
  {
    u := r;
    var i := 0;
    while i < |fields|
      invariant 0 <= i <= |fields|
      invariant u == ApplyFields(r, fields[..i])
    {
      assert fields[..i + 1][..i] == fields[..i];
      u := SetAttr(u, fields[i]);
      i := i + 1;
    }
    assert fields[..i] == fields;
  }

  /** `tags.set(...)` on an existing recipe with existing tags keeps the links valid. */
  lemma {:induction false} LinksSet(links: seq<RecipeTag>, tagIds: set<TagId>, recipeIds: set<RecipeId>, id: RecipeId,
                 tags: seq<TagId>)
    requires LinksValid(links, tagIds, recipeIds)
    requires id in recipeIds && forall t | t in tags :: t in tagIds
    ensures LinksValid(SetTags(links, id, tags), tagIds, recipeIds)
  {
    SetTagsRows(links, id, tags);
    AllRowsMeans(links, LinkRefs(tagIds, recipeIds));
    AllRowsMeans(SetTags(links, id, tags), LinkRefs(tagIds, recipeIds));
  }

  /** Replacing an existing recipe's amounts with existing ingredients keeps the rows valid. */
  lemma {:induction false} AmountsReplace(amounts: seq<IngredientAmount>, ingredientIds: set<IngredientId>,
                       recipeIds: set<RecipeId>, id: RecipeId, lines: seq<IngredientLine>)
    requires AmountsValid(amounts, ingredientIds, recipeIds)
    requires id in recipeIds && forall l | l in lines :: l.ingredient in ingredientIds
    ensures AmountsValid(ReplaceAmounts(amounts, id, lines), ingredientIds, recipeIds)
  {
    ReplaceAmountsRows(amounts, id, lines);
    AllRowsMeans(amounts, AmountRefs(ingredientIds, recipeIds));
    AllRowsMeans(ReplaceAmounts(amounts, id, lines), AmountRefs(ingredientIds, recipeIds));
  }

  // What each handler does to the whole store, as value lemmas the handlers call.

  /** An import that keeps the ingredient table valid and its keys keeps the store valid. */
  lemma {:induction false} SeededValid(t: Tables, table: seq<Ingredient>, next: nat)
    requires Schema(t)
    requires IngredientsValid(table, next) && IngredientIds(t.ingredients) <= IngredientIds(table)
    ensures Schema(t.(ingredients := table, nextIngredientId := next))
    ensures PairsUnique(t) ==> PairsUnique(t.(ingredients := table, nextIngredientId := next))
  {
    AmountsWiden(t.amounts, IngredientIds(t.ingredients), IngredientIds(table), RecipeIds(t.recipes));
  }

  /** Creating a recipe under the next key, with existing tags and ingredients, keeps the store valid. */
  lemma {:induction false} CreateValid(t: Tables, recipe: Recipe, tagIds: seq<TagId>, lines: seq<IngredientLine>)
    requires Schema(t)
    requires recipe.id == t.nextRecipeId && ValidRecipe(recipe) && recipe.author in t.users
    requires forall x | x in tagIds :: x in TagIds(t.tags)
    requires forall l | l in lines :: l.ingredient in IngredientIds(t.ingredients)
    ensures var u := t.(recipes := t.recipes + [recipe], nextRecipeId := recipe.id + 1,
                        recipeTags := t.recipeTags + TagLinks(recipe.id, tagIds),
                        amounts := t.amounts + AmountRows(recipe.id, lines));
      Schema(u) && (PairsUnique(t) ==> PairsUnique(u))
    ensures forall l | l in t.recipeTags :: l.recipe != recipe.id
    ensures forall a | a in t.amounts :: a.recipe != recipe.id
  {
    var id := recipe.id;
    RecipeInsert(t.recipes, id, t.users, recipe);
    LinksInsert(t.recipeTags, TagIds(t.tags), RecipeIds(t.recipes), id, tagIds);
    AmountsInsert(t.amounts, IngredientIds(t.ingredients), RecipeIds(t.recipes), id, lines);
    ReferencesWiden(t.recipeTags, t.amounts, t.favorites, t.carts, TagIds(t.tags), IngredientIds(t.ingredients),
                    RecipeIds(t.recipes), RecipeIds(t.recipes) + {id}, t.users);
    Unreferenced(t.recipeTags, t.amounts, TagIds(t.tags), IngredientIds(t.ingredients), RecipeIds(t.recipes), id);
  }

  /**
    The write path does not check the declared amount range: a create whose
    one line carries amount 0 leaves the store valid, holding a row the
    model's validator would refuse.
  */
  lemma {:induction false} AmountRangeUnchecked(t: Tables, recipe: Recipe, ingredient: IngredientId)
    requires Schema(t)
    requires recipe.id == t.nextRecipeId && ValidRecipe(recipe) && recipe.author in t.users
    requires ingredient in IngredientIds(t.ingredients)
    ensures var amounts := t.amounts + AmountRows(recipe.id, [IngredientLine(ingredient, 0)]);
      && Schema(t.(recipes := t.recipes + [recipe], nextRecipeId := recipe.id + 1, amounts := amounts))
      && exists a | a in amounts :: !ValidAmount(a)
  {
    var lines := [IngredientLine(ingredient, 0)];
    CreateValid(t, recipe, [], lines);
    var amounts := t.amounts + AmountRows(recipe.id, lines);
    assert t.recipeTags + TagLinks(recipe.id, []) == t.recipeTags;
    assert t.(recipes := t.recipes + [recipe], nextRecipeId := recipe.id + 1,
              recipeTags := t.recipeTags + TagLinks(recipe.id, []), amounts := amounts)
        == t.(recipes := t.recipes + [recipe], nextRecipeId := recipe.id + 1, amounts := amounts);
    assert amounts[|t.amounts|] in amounts && !ValidAmount(amounts[|t.amounts|]);
  }

  /**
    For a recipe no row references yet, the create loop's links and the bulk
    insert's amounts are exactly the recipe's, and no other recipe's change.
  */
  lemma {:induction false} CreatedRows(links: seq<RecipeTag>, amounts: seq<IngredientAmount>, id: RecipeId, tagIds: seq<TagId>,
                    lines: seq<IngredientLine>)
    requires forall l | l in links :: l.recipe != id
    requires forall a | a in amounts :: a.recipe != id
    ensures LinksOf(links + TagLinks(id, tagIds), id) == TagLinks(id, tagIds)
    ensures TagsOf(links + TagLinks(id, tagIds), id) == set x | x in tagIds
    ensures AmountsOf(amounts + AmountRows(id, lines), id) == AmountRows(id, lines)
    ensures forall other | other != id ::
      LinksOf(links + TagLinks(id, tagIds), other) == LinksOf(links, other)
      && AmountsOf(amounts + AmountRows(id, lines), other) == AmountsOf(amounts, other)
  {
    CreateTags(links, id, tagIds);
    AppendIsReplace(amounts, id, lines);
    ReplaceAmountsOwn(amounts, id, lines);
    forall other | other != id
      ensures LinksOf(links + TagLinks(id, tagIds), other) == LinksOf(links, other)
      ensures AmountsOf(amounts + AmountRows(id, lines), other) == AmountsOf(amounts, other)
    {
      CreateTagsOthers(links, id, tagIds, other);
      ReplaceAmountsOthers(amounts, id, lines, other);
    }
  }

  /**
    Overwriting an existing recipe's fields (not its key) with valid values,
    then optionally setting its tags and replacing its amounts with existing
    tags and ingredients, keeps the store valid.
  */
  function Updated(t: Tables, k: nat, row: Recipe, tagIds: Option<seq<TagId>>, lines: Option<seq<IngredientLine>>): Tables
    requires k < |t.recipes|
  {
    t.(recipes := t.recipes[k := row],
       recipeTags := if tagIds.Some? then SetTags(t.recipeTags, row.id, tagIds.value) else t.recipeTags,
       amounts := if lines.Some? then ReplaceAmounts(t.amounts, row.id, lines.value) else t.amounts)
  }

  lemma {:induction false} UpdateValid(t: Tables, k: nat, row: Recipe, tagIds: Option<seq<TagId>>, lines: Option<seq<IngredientLine>>)
    requires Schema(t)
    requires k < |t.recipes| && row.id == t.recipes[k].id && ValidRecipe(row) && row.author in t.users
    requires tagIds.Some? ==> forall x | x in tagIds.value :: x in TagIds(t.tags)
    requires lines.Some? ==> forall l | l in lines.value :: l.ingredient in IngredientIds(t.ingredients)
    ensures var u := Updated(t, k, row, tagIds, lines);
      Schema(u) && (PairsUnique(t) ==> PairsUnique(u))
  {
    var id := row.id;
    RecipeReplace(t.recipes, t.nextRecipeId, t.users, k, row);
    assert id in RecipeIds(t.recipes) by {
      RecipeIdsMeans(t.recipes, id);
      assert t.recipes[k] in t.recipes;
    }
    if tagIds.Some? {
      LinksSet(t.recipeTags, TagIds(t.tags), RecipeIds(t.recipes), id, tagIds.value);
    }
    if lines.Some? {
      AmountsReplace(t.amounts, IngredientIds(t.ingredients), RecipeIds(t.recipes), id, lines.value);
    }
  }

  /** The `setattr` loop followed by the author's: a valid recipe stays valid, keeps its key and gets the requester as author. */
  lemma {:induction false} UpdatedRow(r: Recipe, fields: seq<RecipeField>, requester: UserId)
    requires ValidRecipe(r) && DistinctKeys(fields)
    requires forall f | f in fields :: ValidField(f) && KeyOf(f) != AuthorKey
    ensures var u := ApplyFields(r, fields + [Author(requester)]);
      ValidRecipe(u) && u.id == r.id && u.author == requester
  {
    var setattrs := fields + [Author(requester)];
    assert DistinctKeys(setattrs) && KeyOf(setattrs[|fields|]) == AuthorKey;
    ApplyFieldsEffect(r, setattrs);
    ApplyFieldsValid(r, setattrs);
    assert FieldOf(ApplyFields(r, setattrs), AuthorKey) == Author(requester);
  }

  /** The tables once a recipe is deleted with its four cascades. */
  function Cascaded(t: Tables, id: RecipeId): Tables {
    t.(recipes := Filter(t.recipes, RecipeNotWithId(id)),
       recipeTags := Filter(t.recipeTags, LinkNotOf(id)),
       amounts := Filter(t.amounts, AmountNotOf(id)),
       favorites := Filter(t.favorites, FavoriteNotOf(id)),
       carts := Filter(t.carts, CartNotOf(id)))
  }

  /** The cascade of a recipe's deletion keeps the store valid and leaves the key gone. */
  lemma {:induction false} CascadeValid(t: Tables, id: RecipeId)
    requires Schema(t)
    ensures var u := Cascaded(t, id);
      Schema(u) && (PairsUnique(t) ==> PairsUnique(u)) && id !in RecipeIds(u.recipes)
  {
    if NoDuplicates(t.favorites) {
      FilterKeepsNoDuplicates(t.favorites, FavoriteNotOf(id));
    }
    if NoDuplicates(t.carts) {
      FilterKeepsNoDuplicates(t.carts, CartNotOf(id));
    }
    RecipeIdsAfterDelete(t.recipes, id);
    ReferencesAfterDelete(t.recipeTags, t.amounts, t.favorites, t.carts, TagIds(t.tags), IngredientIds(t.ingredients),
                          RecipeIds(t.recipes), id, t.users);
    RecipesFilter(t.recipes, t.nextRecipeId, t.users, RecipeNotWithId(id));
  }

  /** A guarded favourite toggle by an existing user on an existing recipe keeps the store valid. */
  lemma {:induction false} FavoriteToggled(t: Tables, x: Favorite, action: Action)
    requires Schema(t) && x.recipe in RecipeIds(t.recipes) && x.user in t.users
    ensures var r := Toggle(t.favorites, x, action);
      Schema(t.(favorites := r.rows))
      && (PairsUnique(t) ==> PairsUnique(t.(favorites := r.rows)) && r.error != Some(MultipleObjectsReturned))
  {
    ToggledRowsValid(t.favorites, x, action, FavoriteRefs(RecipeIds(t.recipes), t.users));
    if NoDuplicates(t.favorites) {
      ToggleKeepsNoDuplicates(t.favorites, x, action);
      NoDuplicatesNeverMultiple(t.favorites, x, action);
    }
  }

  /** The same for a shopping-cart entry. */
  lemma {:induction false} CartToggled(t: Tables, x: Cart, action: Action)
    requires Schema(t) && x.recipe in RecipeIds(t.recipes) && x.user in t.users
    ensures var r := Toggle(t.carts, x, action);
      Schema(t.(carts := r.rows))
      && (PairsUnique(t) ==> PairsUnique(t.(carts := r.rows)) && r.error != Some(MultipleObjectsReturned))
  {
    ToggledRowsValid(t.carts, x, action, CartRefs(RecipeIds(t.recipes), t.users));
    if NoDuplicates(t.carts) {
      ToggleKeepsNoDuplicates(t.carts, x, action);
      NoDuplicatesNeverMultiple(t.carts, x, action);
    }
  }

  /** The same for a subscription of one existing user to another. */
  lemma {:induction false} SubscriptionToggled(t: Tables, x: Subscription, action: Action)
    requires Schema(t) && x.author in t.users && x.user in t.users && x.author != x.user
    ensures var r := ToggleIfAbsent(t.subscriptions, x, action);
      Schema(t.(subscriptions := r.rows))
      && (PairsUnique(t) ==> PairsUnique(t.(subscriptions := r.rows)) && r.error != Some(MultipleObjectsReturned))
  {
    ToggledRowsValid(t.subscriptions, x, action, SubscriptionRefs(t.users));
    if PairsUnique(t) {
      ToggledRowsValid(t.subscriptions, x, action, NotSelf());
      ToggleKeepsNoDuplicates(t.subscriptions, x, action);
      NoDuplicatesNeverMultiple(t.subscriptions, x, action);
    }
  }

  class Db {
    var users: seq<UserId>
    var ingredients: seq<Ingredient>
    var tags: seq<Tag>
    var recipes: seq<Recipe>
    var recipeTags: seq<RecipeTag>
    var amounts: seq<IngredientAmount>
    var favorites: seq<Favorite>
    var carts: seq<Cart>
    var subscriptions: seq<Subscription>
    var nextIngredientId: nat
    var nextRecipeId: nat

    function State(): Tables
      reads this
    {
      Tables(users, ingredients, tags, recipes, recipeTags, amounts, favorites, carts, subscriptions,
             nextIngredientId, nextRecipeId)
    }

    /** The schema's constraints hold (see `Schema`). */
    ghost predicate Valid()
      reads this
    {
      Schema(State())
    }

    /** `Valid`, plus the uniqueness and the no-self-subscription rule the handlers keep. */
    ghost predicate Consistent()
      reads this
    {
      Valid() && PairsUnique(State())
    }

    /** Replaces every table and counter by those of `t`. */
    method Load(t: Tables)
      modifies this
      ensures State() == t
    {
      users, ingredients, tags, recipes, recipeTags := t.users, t.ingredients, t.tags, t.recipes, t.recipeTags;
      amounts, favorites, carts, subscriptions := t.amounts, t.favorites, t.carts, t.subscriptions;
      nextIngredientId, nextRecipeId := t.nextIngredientId, t.nextRecipeId;
    }

    /** A store holding the given users and tags and nothing else (their own endpoints are not modelled). */
    constructor (users: seq<UserId>, tags: seq<Tag>)
      requires NoDuplicates(users)
      requires TagsValid(tags)
      ensures this.users == users && this.tags == tags
      ensures ingredients == [] && recipes == [] && recipeTags == [] && amounts == []
      ensures favorites == [] && carts == [] && subscriptions == []
      ensures nextIngredientId == 0 && nextRecipeId == 0
      ensures Consistent()
    {
      this.users := users;
      this.tags := tags;
      ingredients, recipes, recipeTags, amounts := [], [], [], [];
      favorites, carts, subscriptions := [], [], [];
      nextIngredientId, nextRecipeId := 0, 0;
    }

    /**
      The ingredient import command: `get_or_create` per entry, in order,
      stopping at the first entry that more than one row matches.
    */
    method SeedIngredients(data: seq<IngredientEntry>) returns (error: Option<Error>)
      requires Valid()
      requires forall e | e in data :: Fits(e)
      modifies this
      ensures var r := Seed(old(ingredients), old(nextIngredientId), data);
        ingredients == r.table && nextIngredientId == r.next && error == r.error
      ensures users == old(users) && tags == old(tags) && recipes == old(recipes)
      ensures recipeTags == old(recipeTags) && amounts == old(amounts) && nextRecipeId == old(nextRecipeId)
      ensures favorites == old(favorites) && carts == old(carts) && subscriptions == old(subscriptions)
      ensures Valid()
      ensures old(Consistent()) ==> Consistent()
    {
      var table, next;
      table, next, error := SeedTable(ingredients, nextIngredientId, data);
      ghost var t := State();
      SeededValid(t, table, next);
      ingredients, nextIngredientId := table, next;
      assert State() == t.(ingredients := table, nextIngredientId := next);
    }

    /**
      `RecipeSerializer.create` with `perform_create`: the recipe row (its
      author the requester, its date `now`), then one tag link per supplied
      tag, in a loop, then the amount rows in one bulk insert.
    */
    method CreateRecipe(author: UserId, name: string, text: string, cookingTime: int, image: string,
                        tagIds: seq<TagId>, lines: seq<IngredientLine>, now: int) returns (id: RecipeId)
      requires Valid()
      requires author in users
      requires 0 < |name| <= RecipeNameMax && |text| > 0 && ValidCookingTime(cookingTime)
      requires forall t | t in tagIds :: t in TagIds(tags)
      requires forall l | l in lines :: l.ingredient in IngredientIds(ingredients)
      modifies this
      ensures id == old(nextRecipeId) && nextRecipeId == id + 1
      ensures recipes == old(recipes) + [Recipe(id, author, name, text, cookingTime, now, image)]
      ensures recipeTags == old(recipeTags) + TagLinks(id, tagIds)
      ensures amounts == old(amounts) + AmountRows(id, lines)
      ensures LinksOf(recipeTags, id) == TagLinks(id, tagIds)
      ensures TagsOf(recipeTags, id) == set t | t in tagIds
      ensures AmountsOf(amounts, id) == AmountRows(id, lines)
      ensures forall other | other != id ::
        LinksOf(recipeTags, other) == LinksOf(old(recipeTags), other)
        && AmountsOf(amounts, other) == AmountsOf(old(amounts), other)
      ensures users == old(users) && ingredients == old(ingredients) && tags == old(tags)
      ensures favorites == old(favorites) && carts == old(carts) && subscriptions == old(subscriptions)
      ensures nextIngredientId == old(nextIngredientId)
      ensures Valid()
      ensures old(Consistent()) ==> Consistent()
    {
      id := nextRecipeId;
      var recipe := Recipe(id, author, name, text, cookingTime, now, image);
      ghost var t := State();
      CreateValid(t, recipe, tagIds, lines);
      CreatedRows(recipeTags, amounts, id, tagIds, lines);
      var links := LinkTags(recipeTags, id, tagIds);
      recipes, nextRecipeId := recipes + [recipe], nextRecipeId + 1;
      recipeTags, amounts := links, amounts + AmountRows(id, lines);
      assert State() == t.(recipes := t.recipes + [recipe], nextRecipeId := recipe.id + 1,
                           recipeTags := t.recipeTags + TagLinks(recipe.id, tagIds),
                           amounts := t.amounts + AmountRows(recipe.id, lines));
    }

    /**
      `RecipeSerializer.update` with `perform_update`: `setattr` for each
      supplied field and then for the author (the requester), save; then,
      when supplied, `tags.set(...)` and the delete-then-bulk-insert of the
      amounts. An unknown id is "not found" before anything changes.
    */
    method UpdateRecipe(requester: UserId, id: RecipeId, fields: seq<RecipeField>,
                        tagIds: Option<seq<TagId>>, lines: Option<seq<IngredientLine>>)
      returns (error: Option<Error>)
      requires Valid()
      requires requester in users
      requires DistinctKeys(fields)
      requires forall f | f in fields :: ValidField(f) && KeyOf(f) != AuthorKey
      requires tagIds.Some? ==> forall t | t in tagIds.value :: t in TagIds(tags)
      requires lines.Some? ==> forall l | l in lines.value :: l.ingredient in IngredientIds(ingredients)
      modifies this
      ensures id !in RecipeIds(old(recipes)) ==> error == Some(NotFound) && recipes == old(recipes)
      ensures id in RecipeIds(old(recipes)) ==>
        && error == None
        && var k := RecipeIndex(old(recipes), id).value;
           recipes == old(recipes)[k := ApplyFields(old(recipes)[k], fields + [Author(requester)])]
      ensures recipeTags == if error == None && tagIds.Some? then SetTags(old(recipeTags), id, tagIds.value)
                            else old(recipeTags)
      ensures amounts == if error == None && lines.Some? then ReplaceAmounts(old(amounts), id, lines.value)
                         else old(amounts)
      ensures users == old(users) && ingredients == old(ingredients) && tags == old(tags)
      ensures favorites == old(favorites) && carts == old(carts) && subscriptions == old(subscriptions)
      ensures nextIngredientId == old(nextIngredientId) && nextRecipeId == old(nextRecipeId)
      ensures Valid()
      ensures old(Consistent()) ==> Consistent()
    {
      var found := RecipeIndex(recipes, id);
      if found.None? {
        return Some(NotFound);
      }
      var k := found.value;
      var setattrs := fields + [Author(requester)];
      RecipeAt(recipes, nextRecipeId, users, k);
      var updated := SetAttrs(recipes[k], setattrs);
      UpdatedRow(recipes[k], fields, requester);
      UpdateValid(State(), k, updated, tagIds, lines);
      Load(Updated(State(), k, updated, tagIds, lines));
      error := None;
    }

    /**
      `Recipe.delete()`: the row goes, and the cascade removes every tag
      link, amount row, favourite and cart entry that references it.
    */
    method Delete(id: RecipeId)
      requires Valid()
      modifies this
      ensures recipes == Filter(old(recipes), RecipeNotWithId(id))
      ensures recipeTags == Filter(old(recipeTags), LinkNotOf(id))
      ensures amounts == Filter(old(amounts), AmountNotOf(id))
      ensures favorites == Filter(old(favorites), FavoriteNotOf(id))
      ensures carts == Filter(old(carts), CartNotOf(id))
      ensures id !in RecipeIds(recipes)
      ensures users == old(users) && ingredients == old(ingredients) && tags == old(tags)
      ensures subscriptions == old(subscriptions)
      ensures nextIngredientId == old(nextIngredientId) && nextRecipeId == old(nextRecipeId)
      ensures Valid()
      ensures old(Consistent()) ==> Consistent()
    {
      CascadeValid(State(), id);
      Load(Cascaded(State(), id));
    }

    /** `RecipeViewSet.destroy`: `get_object_or_404`, then the deletion. */
    method DeleteRecipe(id: RecipeId) returns (error: Option<Error>)
      requires Valid()
      modifies this
      ensures id !in RecipeIds(old(recipes)) ==>
        error == Some(NotFound) && recipes == old(recipes) && recipeTags == old(recipeTags)
        && amounts == old(amounts) && favorites == old(favorites) && carts == old(carts)
      ensures id in RecipeIds(old(recipes)) ==>
        && error == None
        && recipes == Filter(old(recipes), RecipeNotWithId(id))
        && recipeTags == Filter(old(recipeTags), LinkNotOf(id))
        && amounts == Filter(old(amounts), AmountNotOf(id))
        && favorites == Filter(old(favorites), FavoriteNotOf(id))
        && carts == Filter(old(carts), CartNotOf(id))
      ensures id !in RecipeIds(recipes)
      ensures users == old(users) && ingredients == old(ingredients) && tags == old(tags)
      ensures subscriptions == old(subscriptions)
      ensures nextIngredientId == old(nextIngredientId) && nextRecipeId == old(nextRecipeId)
      ensures Valid()
      ensures old(Consistent()) ==> Consistent()
    {
      if id !in RecipeIds(recipes) {
        return Some(NotFound);
      }
      Delete(id);
      error := None;
    }

    /** `RecipeViewSet.favorite`: the recipe must exist; then the guarded insert or delete. */
    method ToggleFavorite(requester: UserId, id: RecipeId, action: Action) returns (error: Option<Error>)
      requires Valid()
      requires requester in users
      modifies this
      ensures id !in RecipeIds(old(recipes)) ==> error == Some(NotFound) && favorites == old(favorites)
      ensures id in RecipeIds(old(recipes)) ==>
        var t := Toggle(old(favorites), Favorite(id, requester), action);
        favorites == t.rows && error == t.error
      ensures users == old(users) && ingredients == old(ingredients) && tags == old(tags)
      ensures recipes == old(recipes) && recipeTags == old(recipeTags) && amounts == old(amounts)
      ensures carts == old(carts) && subscriptions == old(subscriptions)
      ensures nextIngredientId == old(nextIngredientId) && nextRecipeId == old(nextRecipeId)
      ensures Valid()
      ensures old(Consistent()) ==> Consistent() && error != Some(MultipleObjectsReturned)
    {
      if RecipeIndex(recipes, id).None? {
        return Some(NotFound);
      }
      ghost var s := State();
      FavoriteToggled(s, Favorite(id, requester), action);
      var t := Toggle(favorites, Favorite(id, requester), action);
      favorites := t.rows;
      error := t.error;
      assert State() == s.(favorites := t.rows);
    }

    /** `RecipeViewSet.shopping_cart`: the same on the Cart table; favourites are not touched. */
    method ToggleShoppingCart(requester: UserId, id: RecipeId, action: Action) returns (error: Option<Error>)
      requires Valid()
      requires requester in users
      modifies this
      ensures id !in RecipeIds(old(recipes)) ==> error == Some(NotFound) && carts == old(carts)
      ensures id in RecipeIds(old(recipes)) ==>
        var t := Toggle(old(carts), Cart(id, requester), action);
        carts == t.rows && error == t.error
      ensures users == old(users) && ingredients == old(ingredients) && tags == old(tags)
      ensures recipes == old(recipes) && recipeTags == old(recipeTags) && amounts == old(amounts)
      ensures favorites == old(favorites) && subscriptions == old(subscriptions)
      ensures nextIngredientId == old(nextIngredientId) && nextRecipeId == old(nextRecipeId)
      ensures Valid()
      ensures old(Consistent()) ==> Consistent() && error != Some(MultipleObjectsReturned)
    {
      if RecipeIndex(recipes, id).None? {
        return Some(NotFound);
      }
      ghost var s := State();
      CartToggled(s, Cart(id, requester), action);
      var t := Toggle(carts, Cart(id, requester), action);
      carts := t.rows;
      error := t.error;
      assert State() == s.(carts := t.rows);
    }

    /**
      `CustomUserViewSet.subscribe`: the author must exist; following oneself
      is refused for both methods; then the guarded insert or delete.
    */
    method ToggleSubscription(requester: UserId, author: UserId, action: Action) returns (error: Option<Error>)
      requires Valid()
      requires requester in users
      modifies this
      ensures author !in old(users) ==> error == Some(NotFound) && subscriptions == old(subscriptions)
      ensures author in old(users) && author == requester ==>
        error == Some(SelfSubscription) && subscriptions == old(subscriptions)
      ensures author in old(users) && author != requester ==>
        var t := ToggleIfAbsent(old(subscriptions), Subscription(author, requester), action);
        subscriptions == t.rows && error == t.error
      ensures users == old(users) && ingredients == old(ingredients) && tags == old(tags)
      ensures recipes == old(recipes) && recipeTags == old(recipeTags) && amounts == old(amounts)
      ensures favorites == old(favorites) && carts == old(carts)
      ensures nextIngredientId == old(nextIngredientId) && nextRecipeId == old(nextRecipeId)
      ensures Valid()
      ensures old(Consistent()) ==> Consistent() && error != Some(MultipleObjectsReturned)
    {
      if author !in users {
        return Some(NotFound);
      }
      if author == requester {
        return Some(SelfSubscription);
      }
      ghost var s := State();
      SubscriptionToggled(s, Subscription(author, requester), action);
      var t := ToggleIfAbsent(subscriptions, Subscription(author, requester), action);
      subscriptions := t.rows;
      error := t.error;
      assert State() == s.(subscriptions := t.rows);
    }
  }
}
