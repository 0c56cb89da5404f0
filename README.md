# foodgram core, modelled in Dafny

foodgram is a recipe-sharing web backend built on Django and Django REST
framework. Users publish recipes. Each recipe has tags and ingredient
amounts. Users can favourite recipes, put them in a shopping cart, download
an aggregated shopping list and follow other authors. This project models
the table-level rules under the framework configuration and proves them.

- `Store.Db` is a class that holds each table as a sequence of rows, plus
  the next free key of the Ingredient and Recipe tables. Its methods are
  the handlers that change the store:
  - the recipe create and update of `RecipeSerializer`;
  - recipe deletion with its cascades;
  - the favourite, shopping-cart and subscribe toggles;
  - the ingredient import command.

  Each method states its whole new state. It also proves that it keeps the
  schema invariant `Valid()` and the stronger `Consistent()`: no duplicated
  favourite, cart or subscription pair, and no self-subscription.
- The loops of the source are methods with loop invariants, proved against
  the functions that specify them:
  - the tag-link loop of `create` (`Store.LinkTags`);
  - the `setattr` loop of `update` (`Store.SetAttrs`);
  - the import loop (`Store.SeedTable`).
- The read side is pure functions with lemmas:
  - the `is_favorited`, `is_in_shopping_cart` and `is_subscribed` flags;
  - the two boolean recipe filters;
  - the ingredient search;
  - the followed-authors listing;
  - `recipes_limit` and `recipes_count`;
  - the shopping-list aggregation and its text post-processing;
  - the header split of the Base64 image field.
- The Python string operations the code relies on have their own models
  (`PyStr`): `strip`, `split`, `replace`, `lower` and `int()`.

Django's own semantics are kept where they matter:
- `get_or_create` and `get_object_or_404` raise `MultipleObjectsReturned`
  when two rows match.
- A filter across a to-many join repeats a row once per matching related
  row.
- `tags.set()` keeps the links to wanted tags that already exist and adds
  only the missing ones.
- An unknown object is reported as `NotFound`; HTTP codes are not modelled.

Files: `outcomes.dfy` (Option, Result, error kinds), `rows.dfy` (selections,
uniqueness and join fan-out over row sequences), `models.dfy` (rows, field
limits, ordering), `pystr.dfy`, `image_field.dfy`, `composition.dfy` (tag
links, amount rows, field updates), `memberships.dfy` (guarded
insert/delete), `shopping.dfy`, `queries.dfy`, `seeding.dfy`, `store.dfy`.

## Model

| member | source | states |
|---|---|---|
| Models.InsertNewestFirst | backend/foodgram/recipes/models.py:66 | placing a recipe into a newest-first list keeps it newest first and adds exactly that recipe |
| Models.OrderNewestFirst | backend/foodgram/recipes/models.py:66 | the default recipe ordering is newest `pub_date` first and a permutation of the table |
| Models.RecipesOf | backend/foodgram/users/serializers.py:61 | `obj.recipes.all()` is newest first and holds exactly the author's recipes, each as often as in the table |
| Models.TagIdentifiedByEach | backend/foodgram/recipes/models.py:25-29 | with unique name, colour and slug, any one of them (or the key) identifies a single tag |
| Store.RecipesValidMeans | backend/foodgram/recipes/models.py:40-57 | in a valid recipe table every recipe has a non-blank name of at most 64 characters, a non-blank text and a cooking time within 1..4320, its author exists, and keys are unique |
| Store.IngredientsValidMeans | backend/foodgram/recipes/models.py:8-12 | in a valid ingredient table names fit 64 and units 16 characters, and keys are unique |
| Store.AmountRangeUnchecked | backend/foodgram/api/serializers.py:105 | the declared amount range 1..10000 is not enforced on write: a create with amount 0 leaves the store valid and holds a row outside the range |
| Store.RecipeIndex | backend/foodgram/api/views.py:59 | the lookup by key finds the recipe with that key, and fails exactly when no recipe has it |
| Store.RecipeIdsAfterDelete | backend/foodgram/recipes/models.py:40-66 | deleting a recipe removes exactly its key from the table |
| Store.ReferencesAfterDelete | backend/foodgram/recipes/models.py:79-145 | after the cascades of a recipe's deletion the remaining tag links, amounts, favourites and cart entries reference only surviving recipes |
| Store.CascadeValid | backend/foodgram/recipes/models.py:79-145 | deleting a recipe with its four cascades keeps the store valid and consistent, and the key is gone |
| Store.Db.Delete | backend/foodgram/recipes/models.py:79-145 | the recipe and every RecipeTag, IngredientAmount, Favorite and Cart row referencing it are removed; nothing else changes; the store stays valid |
| Store.Db.DeleteRecipe | backend/foodgram/api/views.py:47-53 | an unknown key fails with NotFound and changes nothing; otherwise the recipe is deleted with its cascades |
| Store.Db.constructor | backend/foodgram/recipes/models.py:8-153 | a store holding only the given users and tags is consistent |
| Store.CreateValid | backend/foodgram/api/serializers.py:153-167 | creating a recipe under the next key, with existing tags and ingredients, keeps the store valid and consistent |
| Store.CreatedRows | backend/foodgram/api/serializers.py:155-166 | the new recipe's links are one per supplied tag and its tag set is the supplied set; its amounts are one row per line; other recipes' rows are unchanged |
| Store.LinkTags | backend/foodgram/api/serializers.py:157-158 | the tag loop appends exactly one link per supplied tag, in order, duplicates included |
| Store.Db.CreateRecipe | backend/foodgram/api/serializers.py:153-167 | the recipe gets the next key; the links and amount rows are exactly those of the input; no other recipe's rows and no other table change; the store stays valid and consistent |
| Store.SetAttrs | backend/foodgram/api/serializers.py:172-173 | the `setattr` loop yields the recipe with each validated field applied in order |
| Store.UpdatedRow | backend/foodgram/api/views.py:116-117 | after the field updates and the author from `perform_update`, a valid recipe stays valid, keeps its key, and its author is the requester |
| Store.UpdateValid | backend/foodgram/api/serializers.py:169-186 | overwriting a recipe's fields and optionally replacing its tags and amounts keeps the store valid and consistent |
| Store.Db.UpdateRecipe | backend/foodgram/api/serializers.py:169-186 | unknown key: NotFound, nothing changes. Otherwise the fields are overwritten and the author becomes the requester. Tags and amounts are replaced only when supplied and untouched when absent. Other tables are unchanged |
| Store.FavoriteToggled | backend/foodgram/api/views.py:57-74 | a favourite add or remove keeps the store valid, and on a consistent store keeps it consistent and never hits two rows |
| Store.Db.ToggleFavorite | backend/foodgram/api/views.py:57-74 | unknown recipe: NotFound, nothing changes; otherwise the guarded insert or delete on Favorite only |
| Store.CartToggled | backend/foodgram/api/views.py:78-95 | the same for a cart entry |
| Store.Db.ToggleShoppingCart | backend/foodgram/api/views.py:78-95 | unknown recipe: NotFound; otherwise the guarded insert or delete on Cart only, favourites untouched |
| Store.SubscriptionToggled | backend/foodgram/users/views.py:62-85 | subscribing or unsubscribing between two different existing users keeps the store valid and consistent |
| Store.Db.ToggleSubscription | backend/foodgram/users/views.py:62-85 | unknown author: NotFound. Author equal to the requester: SelfSubscription for add and remove, nothing changes. Otherwise the guarded insert or delete on Subscription only |
| Store.SeedOneValid | backend/foodgram/recipes/management/commands/get_ingr_from_json.py:17-19 | one `get_or_create` of a fitting entry keeps the ingredient table valid and loses no key |
| Store.SeedTable | backend/foodgram/recipes/management/commands/get_ingr_from_json.py:16-19 | the import loop computes the import function, keeps the ingredient table valid and loses no key |
| Store.SeededValid | backend/foodgram/recipes/management/commands/get_ingr_from_json.py:12-20 | an import that keeps the ingredient table valid keeps the whole store valid and consistent |
| Store.Db.SeedIngredients | backend/foodgram/recipes/management/commands/get_ingr_from_json.py:12-20 | the ingredient table and counter become those of the import; no other table changes; the store stays valid |
| Memberships.GetOrCreate | backend/foodgram/api/views.py:62-68 | no equal row: one row is inserted. One equal row: AlreadyExists, table unchanged. More: MultipleObjectsReturned, table unchanged |
| Memberships.CreateIfAbsent | backend/foodgram/users/views.py:72-78 | an existing row: AlreadyExists, unchanged; otherwise exactly that row is appended |
| Memberships.DeleteOne | backend/foodgram/api/views.py:73 | absent: NotFound, unchanged. Exactly one: that row is removed and nothing else. Several: MultipleObjectsReturned, unchanged |
| Memberships.Toggle | backend/foodgram/api/views.py:57-95 | the favourite and cart endpoints: after an add the row is present; after a remove that succeeded it is absent; a failure leaves the table as it was |
| Memberships.ToggleIfAbsent | backend/foodgram/users/views.py:72-84 | the subscribe endpoint: the same three facts, and its add never raises MultipleObjectsReturned |
| Memberships.ToggleKeepsNoDuplicates | backend/foodgram/api/views.py:62-74 | the guarded add and remove keep at most one row per pair |
| Memberships.NoDuplicatesNeverMultiple | backend/foodgram/api/views.py:62-74 | on a table without duplicates the lookups never match two rows |
| Memberships.DuplicatePairBlocksToggles | backend/foodgram/recipes/models.py:119-133 | the schema admits a duplicated pair, and then both add and remove fail with MultipleObjectsReturned |
| Memberships.AddThenRemove | backend/foodgram/api/views.py:62-74 | adding an absent row and removing it restores the table |
| Memberships.RemoveThenAdd | backend/foodgram/api/views.py:62-74 | removing a present row and adding it again restores the table's contents |
| Memberships.AddTwice | backend/foodgram/api/views.py:62-68 | a second add fails with AlreadyExists and leaves the one inserted row |
| Memberships.RemoveTwice | backend/foodgram/api/views.py:73 | a second remove fails with NotFound and changes nothing |
| Composition.AmountRows | backend/foodgram/api/serializers.py:159-166 | one amount row per input line, in order, carrying that line's ingredient and amount and the recipe |
| Composition.ReplaceAmounts | backend/foodgram/api/serializers.py:177-185 | every amount row of another recipe survives, and every row of the recipe afterwards comes from one of the supplied lines |
| Composition.ReplaceAmountsOwn | backend/foodgram/api/serializers.py:177-185 | after the replace the recipe's amount rows are exactly the new lines' rows; no old row survives |
| Composition.ReplaceAmountsOthers | backend/foodgram/api/serializers.py:178-185 | the replace leaves every other recipe's amount rows as they were |
| Composition.ReplaceAmountsRows | backend/foodgram/api/serializers.py:177-185 | every row after the replace is an old row or one of the new lines' rows |
| Composition.AppendIsReplace | backend/foodgram/api/serializers.py:159-166 | for a recipe with no amount rows, the create's bulk insert is the update's replace |
| Composition.TagLinks | backend/foodgram/api/serializers.py:157-158 | one link per element of the tag input, in order, duplicates not collapsed |
| Composition.Missing | backend/foodgram/api/serializers.py:176 | the tags `set` adds are exactly the supplied tags not yet linked, each once |
| Composition.SetTags | backend/foodgram/api/serializers.py:175-176 | `set` keeps every link of another recipe and every existing link to a still-wanted tag; afterwards each link of the recipe points to a supplied tag |
| Composition.SetTagsExact | backend/foodgram/api/serializers.py:175-176 | after `set` the recipe's tag set equals the supplied set |
| Composition.SetTagsOthers | backend/foodgram/api/serializers.py:175-176 | `set` leaves every other recipe's links as they were |
| Composition.SetTagsRows | backend/foodgram/api/serializers.py:175-176 | every link after `set` is an old link or a link of the recipe to a supplied tag |
| Composition.SetTagsNoDuplicates | backend/foodgram/api/serializers.py:175-176 | `set` adds no duplicate link |
| Composition.TagLinksNoDuplicates | backend/foodgram/api/serializers.py:157-158 | distinct supplied tags give distinct links |
| Composition.CreateTags | backend/foodgram/api/serializers.py:156-158 | for a new recipe the loop's links are all its links, and its tag set is the supplied set |
| Composition.CreateTagsOthers | backend/foodgram/api/serializers.py:157-158 | the create loop leaves other recipes' links unchanged |
| Composition.SetAttr | backend/foodgram/api/serializers.py:173 | `setattr` changes the named attribute to the value and no other attribute, key or date |
| Composition.ApplyFields | backend/foodgram/api/serializers.py:172-173 | the `setattr` loop never changes the key or the publication date |
| Composition.ApplyFieldsEffect | backend/foodgram/api/serializers.py:172-174 | after the loop, each supplied field holds its value and every field not supplied keeps its old value |
| Composition.ApplyFieldsValid | backend/foodgram/api/serializers.py:172-174 | validated field values keep a valid recipe valid |
| Queries.FlagsFollowToggles | backend/foodgram/api/serializers.py:141-145 | `is_favorited` is true after an add, false after a successful remove, and unchanged by a failed remove |
| Queries.IsFavorited | backend/foodgram/api/serializers.py:141-145 | true exactly when the requester has an id and some Favorite row carries that recipe and that user |
| Queries.IsInShoppingCart | backend/foodgram/api/serializers.py:147-151 | true exactly when the requester has an id and some Cart row carries that recipe and that user |
| Queries.IsSubscribed | backend/foodgram/users/serializers.py:28-32 | true exactly when the requester has an id and some Subscription row has that author and the requester as user |
| Queries.CartFlagFollowsToggles | backend/foodgram/api/serializers.py:147-151 | `is_in_shopping_cart` follows the cart toggles the same way |
| Queries.SubscribedFollowsToggles | backend/foodgram/users/serializers.py:28-32 | `is_subscribed` follows subscribe and unsubscribe the same way |
| Queries.AnonymousFlags | backend/foodgram/users/serializers.py:53-57 | a requester with no id sees all three flags false |
| Queries.FilterFavorited | backend/foodgram/api/filters.py:19-23 | false returns the input unchanged; true returns exactly the input recipes with a favourite row of the user |
| Queries.FilterInShoppingCart | backend/foodgram/api/filters.py:25-29 | the same for cart rows |
| Queries.FilterFavoritedOnce | backend/foodgram/api/filters.py:22 | without duplicated favourites, the join is a plain selection and a sub-multiset of the input |
| Queries.FilterInShoppingCartOnce | backend/foodgram/api/filters.py:28 | without duplicated cart rows, the join is a plain selection and a sub-multiset of the input |
| Queries.DuplicateFavoriteListedTwice | backend/foodgram/api/filters.py:22 | a duplicated favourite pair lists its recipe twice |
| Queries.SearchIngredients | backend/foodgram/api/views.py:39-44 | as written: an absent or empty name lists nothing (`super().queryset` is the framework default `None`); otherwise exactly the ingredients whose name contains it case-insensitively |
| Queries.UnnamedSearchListsNothing | backend/foodgram/api/views.py:44 | on a non-empty table, the listing without a search term (absent or empty) is not the table |
| Queries.SearchIngredientsIntended | backend/foodgram/api/views.py:37-44 | the intended listing: no or an empty search term gives the whole table; otherwise exactly the matching ingredients |
| Queries.IntendedSearchFindsEveryName | backend/foodgram/api/views.py:37-44 | with the intended listing every ingredient is listed without a term and found by its own name, a blank one included |
| Queries.SearchIgnoresCase | backend/foodgram/api/views.py:42-43 | a query and its lower-case form find the same ingredients |
| Queries.SearchFindsExactName | backend/foodgram/api/views.py:41-43 | searching for an ingredient's whole, non-blank name finds it |
| Queries.Subscriptions | backend/foodgram/users/views.py:55 | the listing holds exactly the users the requester follows |
| Queries.SubscriptionsOnce | backend/foodgram/users/views.py:55 | without duplicated subscriptions, each followed author appears once (the listing order is not modelled, see "## Left out") |
| Queries.RecipesCountIsRowCount | backend/foodgram/users/serializers.py:69-70 | `recipes_count` is the number of the author's recipe rows, whatever the limit |
| Queries.RecipesCount | backend/foodgram/users/serializers.py:69-70 | the count is at most the table size, and is zero exactly when the author has no recipe |
| Queries.AuthorRecipes | backend/foodgram/users/serializers.py:59-67 | no or empty limit: all the author's recipes. Non-integer limit: NotAnInteger. Negative limit: NegativeSlice. Otherwise the first `min(n, count)` recipes |
| Queries.AuthorRecipesPrefix | backend/foodgram/users/serializers.py:62-64 | any limit text that `int()` reads as `n >= 0` (its decimal form, by `PyStr.ParseDecimal`) yields the first `min(n, count)` of the author's recipes, newest first |
| Queries.AuthorRecipesRejectsWord | backend/foodgram/users/serializers.py:64 | a limit containing a letter fails the `int` conversion |
| Queries.AuthorRecipesRejectsNegative | backend/foodgram/users/serializers.py:64 | a negative limit is refused |
| Shopping.IngredientById | backend/foodgram/api/views.py:103 | the join finds the ingredient with the key, or reports that none has it |
| Shopping.CartAmounts | backend/foodgram/api/views.py:101-102 | the join holds exactly the amount rows whose recipe is in the user's cart |
| Shopping.Lines | backend/foodgram/api/views.py:102-103 | the inner join on the ingredient drops rows only: no more lines than rows, and one line per row when every ingredient exists |
| Shopping.Aggregate | backend/foodgram/api/views.py:103-104 | the grouping has one entry per (name, unit) key of the lines |
| Shopping.AggregateTotals | backend/foodgram/api/views.py:103-104 | each group's entry is the sum of the amounts of the lines with that key |
| Shopping.GroupTotalAppend | backend/foodgram/api/views.py:104 | a new line adds its amount to its own group only |
| Shopping.LinesKeys | backend/foodgram/api/views.py:101-103 | the keys of the joined lines are the (name, unit) of the rows whose ingredient exists |
| Shopping.ShoppingListGroups | backend/foodgram/api/views.py:101-104 | one entry per distinct (name, unit) among amount rows of recipes in the user's cart, holding that group's total |
| Shopping.ShoppingList | backend/foodgram/api/views.py:101-104 | every group of the list is the (name, unit) of an amount row of a recipe in the user's cart |
| Shopping.CartJoinOnce | backend/foodgram/api/views.py:101-102 | without duplicated cart rows the join is a plain selection |
| Shopping.EmptyCart | backend/foodgram/api/views.py:101-104 | an empty cart yields no entries |
| Shopping.CleanShoppingText | backend/foodgram/api/views.py:107 | the cleaned text is no longer than the rendered one, and a stripped text without a blank line is left as it is |
| Shopping.CleanParagraphs | backend/foodgram/api/views.py:107 | entries separated by blank lines come out one per line |
| Shopping.ReplaceIsSinglePass | backend/foodgram/api/views.py:107 | the replace is one left-to-right pass: four newlines become two |
| PyStr.LStrip | backend/foodgram/api/views.py:107 | removes exactly the leading whitespace |
| PyStr.RStrip | backend/foodgram/api/views.py:107 | removes exactly the trailing whitespace |
| PyStr.Strip | backend/foodgram/api/views.py:107 | the result is the input's slice between its leading and trailing whitespace runs |
| PyStr.StripIdempotent | backend/foodgram/api/views.py:107 | stripping twice is stripping once |
| PyStr.StripUnchanged | backend/foodgram/api/views.py:107 | text with no whitespace at either end is its own strip |
| PyStr.Find | backend/foodgram/api/views.py:107 | the result is the leftmost occurrence of the pattern, or none when it does not occur |
| PyStr.ReplaceAbsent | backend/foodgram/api/views.py:107 | replacing a target that does not occur changes nothing |
| PyStr.Replace | backend/foodgram/api/views.py:107 | a target that does not occur changes nothing, and a replacement no longer than the target never lengthens the text |
| PyStr.JoinShorter | backend/foodgram/api/views.py:107 | joining with a shorter separator gives a text no longer, which is why the replace shortens |
| PyStr.ReplaceSeparator | backend/foodgram/api/views.py:107 | for parts that do not contain the separator's first character, replacing the separator swaps it for the replacement |
| PyStr.SplitOn | backend/foodgram/api/serializers.py:64 | `split` returns at least one part, and no part contains the separator |
| PyStr.JoinSplit | backend/foodgram/api/serializers.py:64 | joining the parts of a split gives back the string |
| PyStr.SplitJoin | backend/foodgram/api/serializers.py:64 | splitting a join of parts that do not contain the separator's first character gives back the parts |
| PyStr.Lower | backend/foodgram/api/views.py:43 | lower-casing maps each character and keeps the length |
| PyStr.LowerIdempotent | backend/foodgram/api/views.py:43 | lower-casing twice is lower-casing once |
| PyStr.ContainsIgnoresCase | backend/foodgram/api/views.py:43 | case-insensitive containment ignores the case of either side |
| PyStr.ContainsItself | backend/foodgram/api/views.py:43 | every name contains itself case-insensitively |
| PyStr.DecimalValue | backend/foodgram/users/serializers.py:64 | the decimal digits of `n` denote `n` |
| PyStr.ParseDecimal | backend/foodgram/users/serializers.py:64 | `int()` of the decimal form of `n` is `n` |
| PyStr.ParseNegative | backend/foodgram/users/serializers.py:64 | `int()` of a minus sign followed by digits is the negated value |
| PyStr.ParseRejectsLetter | backend/foodgram/users/serializers.py:64 | `int()` fails on any text containing a Latin letter |
| PyStr.ParseInt | backend/foodgram/users/serializers.py:64 | `int()` fails on empty or all-whitespace text, and a negative result comes from text that starts with a minus sign |
| ImageField.ToInternalValue | backend/foodgram/api/serializers.py:62-68 | non-`data:image` input passes through unchanged. A data URI that does not split into exactly two parts on `;base64,` fails. Otherwise the value is decoded |
| ImageField.LastSegment | backend/foodgram/api/serializers.py:65 | the last segment holds no separator, and text without the separator is its own last segment |
| ImageField.ExtensionAfterLastSlash | backend/foodgram/api/serializers.py:65 | the extension is the text after the last `/` of the header: it ends the header and holds no `/` |
| ImageField.DataUriRoundTrip | backend/foodgram/api/serializers.py:62-66 | a data URI whose header and payload do not contain `;base64,` becomes `temp.<extension>` carrying exactly its payload; the header may carry parameters such as `;charset=utf-8` |
| ImageField.MarkerSplitFirst | backend/foodgram/api/serializers.py:64 | text without the marker followed by the marker splits there first: the marker cannot straddle the join |
| ImageField.MissingMarkerRefused | backend/foodgram/api/serializers.py:64 | a data URI without the marker fails |
| ImageField.RepeatedMarkerRefused | backend/foodgram/api/serializers.py:64 | a data URI in which the marker occurs twice or more fails, whatever follows the first marker |
| Seeding.SeedOne | backend/foodgram/recipes/management/commands/get_ingr_from_json.py:17-19 | no match: one row inserted under the next key. One match: nothing changes. Several: MultipleObjectsReturned |
| Seeding.Seed | backend/foodgram/recipes/management/commands/get_ingr_from_json.py:16-19 | the import inserts at most one row per entry, and the only error that stops it is MultipleObjectsReturned |
| Seeding.MatchesAppend | backend/foodgram/recipes/management/commands/get_ingr_from_json.py:17-19 | an inserted row changes only its own entry's match count |
| Seeding.SeedAppends | backend/foodgram/recipes/management/commands/get_ingr_from_json.py:16-19 | the import only appends rows, under consecutive keys from the counter |
| Seeding.SeedRowsFromData | backend/foodgram/recipes/management/commands/get_ingr_from_json.py:16-19 | every new row comes from an input entry and fits its columns |
| Seeding.SeedCounts | backend/foodgram/recipes/management/commands/get_ingr_from_json.py:16-19 | after a completed import every input pair exists exactly once; pairs absent from the input are untouched |
| Seeding.SeedSettled | backend/foodgram/recipes/management/commands/get_ingr_from_json.py:16-19 | on a table that already holds every entry once, the import changes nothing |
| Seeding.SeedIdempotent | backend/foodgram/recipes/management/commands/get_ingr_from_json.py:16-19 | running the import twice leaves the table of one run |
| Seeding.SeedKeepsPresent | backend/foodgram/recipes/management/commands/get_ingr_from_json.py:17-19 | a pair already present is not inserted again |
| Rows.FilterMembers | backend/foodgram/api/views.py:42-43 | a selection holds exactly the rows that meet its condition |
| Rows.NoDuplicatesMeans | backend/foodgram/recipes/models.py:119-153 | "no duplicated pair" means every row occurs exactly once |
| Rows.FanoutAsFilter | backend/foodgram/api/filters.py:22 | a join that matches each row at most once is a plain selection |

## Left out

- HTTP status codes, responses, routing and pagination are left out. A refusal is an `Error` value.
- Permission classes are left out. The source has no owner check on update or delete, so the model has none either.
- Authentication, passwords, the admin screens and the user-account fields are left out. Users are bare keys.
- Base64 decoding, `ContentFile`, the parent `ImageField` validation and file storage are left out. The decoded value keeps the encoded payload.
- The `shopping_list.txt` template is not part of this model. The list is modelled as a map from (name, unit) to total. `CleanParagraphs` assumes entries rendered one per paragraph.
- The output order of the aggregation is left out. It depends on the database.
- Shopping.Aggregate: one entry per (name, unit) assumes Django 3.1 or later. From that version on, the `-recipe` ordering declared on IngredientAmount (`recipes/models.py:113`) no longer enters the GROUP BY of `.values().annotate()`. Under an older Django the totals would be split per recipe as well; that grouping is not modelled.
- Default orderings other than newest-first for recipes are left out, such as the Ingredient `-name` and User `-username` orderings. Listings keep table order instead.
- Atomicity is left out. The source uses no transaction, and the model makes no all-or-nothing claim. It also does not model concurrent requests, so the race between the existence check and the insert is not covered.
- `RecipeSerializer.__init__`'s field swap and the unused `SubscriptionSerializer` in `api/serializers.py` are left out.
- Store.Db.CreateRecipe: the amount range 1..10000 declared on `IngredientAmount` is not a precondition. The serializer redeclares `amount` as a plain `IntegerField`, and `bulk_create` skips model validators. `Store.AmountRangeUnchecked` shows such a row entering a valid store. `cooking_time` uses the generated field with its validators, so its range is a precondition.
- Store.Db.CreateRecipe: the amount is stored in a 32-bit `IntegerField` column, and nothing bounds it on write. The model's amount is an unbounded integer. It does not capture the column width, or the database error that an amount outside 32 bits raises in `bulk_create` after the recipe and its tag links are already written.
- Store.Db.UpdateRecipe: the same 32-bit amount column is not modelled. An out-of-range amount fails the bulk insert after the old amounts are deleted; the model does not capture that partial write.
- Creating, editing and deleting users and tags is left out, and so are the cascades a user deletion triggers. The user and tag endpoints are plain model viewsets with no rules of their own. The store starts from given users and tags.
- Composition.SetTags: `set()` computes the missing tags as a set, so the order in which it inserts their links is not defined. The model inserts them in order of first appearance. Only which links exist is meant, not their order.
- PyStr.Lower: folds only ASCII and Russian letters, not full Unicode case folding.
- PyStr.ParseRejectsLetter: only Latin letters are covered. `int()` accepting non-ASCII digits is not modelled.
- Store.Db.SeedIngredients: entries longer than their columns are excluded by a precondition. The database's reaction to them is not modelled.
- Reading `ingredients.json` is left out. The import takes its entries as a sequence.
- Keys are counters that increase strictly. The database's key allocation is not modelled beyond that.
- Store.Db.CreateRecipe: `pub_date` (`auto_now_add`) is a parameter, because the clock is not modelled.
- Queries.FilterFavorited: the requester is a user id. The anonymous requester these filters would meet is not modelled.
- Queries.FilterInShoppingCart: the same; the anonymous requester is not modelled.

## Findings

| source | as written | input that shows it | evidently intended | confidence | as-written member | corrected member |
|---|---|---|---|---|---|---|
| backend/foodgram/api/views.py:44 | `return super().queryset` reads the attribute past the view class, so it gets the framework default `None`, which the search filter passes on and the list serializer renders as `[]` | a list request to the ingredient endpoint with no `name` parameter, or with an empty one, on a non-empty Ingredient table | the whole table, the view's own `queryset = Ingredient.objects.all()` (line 37) | medium, not executed | Queries.UnnamedSearchListsNothing | Queries.SearchIngredientsIntended |
