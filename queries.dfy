/**
  The read side: the `is_favorited` / `is_in_shopping_cart` / `is_subscribed`
  flags, the two boolean recipe filters, the ingredient search, the
  followed-authors listing, and an author's recipes with the optional
  `recipes_limit` and their count.
*/
module Queries {
  import opened Outcomes
  import opened Rows
  import opened Models
  import opened PyStr
  import opened Memberships

  /**
    `Favorite.objects.filter(recipe=..., user=request.user.id).exists()`: an
    anonymous requester has no id, and otherwise some row must carry both.
  */
  function IsFavorited(favorites: seq<Favorite>, recipe: RecipeId, requester: Option<UserId>): (r: bool)
    ensures r <==> (requester.Some? &&
      exists i | 0 <= i < |favorites| :: favorites[i].recipe == recipe && favorites[i].user == requester.value)
  {
    requester.Some? && Favorite(recipe, requester.value) in favorites
  }

  /** The same test on the Cart table. */
  function IsInShoppingCart(carts: seq<Cart>, recipe: RecipeId, requester: Option<UserId>): (r: bool)
    ensures r <==> (requester.Some? &&
      exists i | 0 <= i < |carts| :: carts[i].recipe == recipe && carts[i].user == requester.value)
  {
    requester.Some? && Cart(recipe, requester.value) in carts
  }

  /** `Subscription.objects.filter(author=..., user=request.user.id).exists()`. */
  function IsSubscribed(subscriptions: seq<Subscription>, author: UserId, requester: Option<UserId>): (r: bool)
    ensures r <==> (requester.Some? &&
      exists i | 0 <= i < |subscriptions| ::
        subscriptions[i].author == author && subscriptions[i].user == requester.value)
  {
    requester.Some? && Subscription(author, requester.value) in subscriptions
  }

  /**
    The flag follows the toggles: true after an add that succeeded or found
    the row, false after a remove that succeeded on a duplicate-free table.
  */
  lemma {:induction false} FlagsFollowToggles(favorites: seq<Favorite>, recipe: RecipeId, user: UserId)
    ensures IsFavorited(Toggle(favorites, Favorite(recipe, user), Add).rows, recipe, Some(user))
    ensures var r := Toggle(favorites, Favorite(recipe, user), Remove);
      r.error == None ==> !IsFavorited(r.rows, recipe, Some(user))
    ensures var r := Toggle(favorites, Favorite(recipe, user), Remove);
      r.error.Some? ==> IsFavorited(r.rows, recipe, Some(user)) == IsFavorited(favorites, recipe, Some(user))
  {
  }

  /** The cart flag follows the shopping-cart toggles the same way. */
  lemma {:induction false} CartFlagFollowsToggles(carts: seq<Cart>, recipe: RecipeId, user: UserId)
    ensures IsInShoppingCart(Toggle(carts, Cart(recipe, user), Add).rows, recipe, Some(user))
    ensures var r := Toggle(carts, Cart(recipe, user), Remove);
      r.error == None ==> !IsInShoppingCart(r.rows, recipe, Some(user))
    ensures var r := Toggle(carts, Cart(recipe, user), Remove);
      r.error.Some? ==> IsInShoppingCart(r.rows, recipe, Some(user)) == IsInShoppingCart(carts, recipe, Some(user))
  {
  }

  /** The subscription flag follows subscribe and unsubscribe. */
  lemma {:induction false} SubscribedFollowsToggles(subscriptions: seq<Subscription>, author: UserId, user: UserId)
    ensures IsSubscribed(ToggleIfAbsent(subscriptions, Subscription(author, user), Add).rows, author, Some(user))
    ensures var r := ToggleIfAbsent(subscriptions, Subscription(author, user), Remove);
      r.error == None ==> !IsSubscribed(r.rows, author, Some(user))
    ensures var r := ToggleIfAbsent(subscriptions, Subscription(author, user), Remove);
      r.error.Some? ==> IsSubscribed(r.rows, author, Some(user)) == IsSubscribed(subscriptions, author, Some(user))
  {
  }

  /** An anonymous requester sees every flag false. */
  lemma {:induction false} AnonymousFlags(favorites: seq<Favorite>, carts: seq<Cart>, subscriptions: seq<Subscription>,
                       recipe: RecipeId, author: UserId)
    ensures !IsFavorited(favorites, recipe, None)
    ensures !IsInShoppingCart(carts, recipe, None)
    ensures !IsSubscribed(subscriptions, author, None)
  {
  }

  /** How many favourite rows of `user` hold the recipe: the join repeats the recipe that often. */
  function FavoriteCount(favorites: seq<Favorite>, user: UserId): Recipe -> nat {
    (r: Recipe) => multiset(favorites)[Favorite(r.id, user)]
  }

  function CartCount(carts: seq<Cart>, user: UserId): Recipe -> nat {
    (r: Recipe) => multiset(carts)[Cart(r.id, user)]
  }

  function Favorited(favorites: seq<Favorite>, user: UserId): Recipe -> bool {
    (r: Recipe) => Favorite(r.id, user) in favorites
  }

  function InCart(carts: seq<Cart>, user: UserId): Recipe -> bool {
    (r: Recipe) => Cart(r.id, user) in carts
  }

  /** `RecipeFilter.get_is_favorited`: `queryset.filter(favorites__user=user)` when the value is true. */
  function FilterFavorited(recipes: seq<Recipe>, favorites: seq<Favorite>, user: UserId, value: bool)
    : (r: seq<Recipe>)
    ensures !value ==> r == recipes
    ensures value ==> forall x | x in r :: x in recipes && Favorite(x.id, user) in favorites
    ensures value ==> forall x | x in recipes && Favorite(x.id, user) in favorites :: x in r
  {
    if value then
      var r := Fanout(recipes, FavoriteCount(favorites, user));
      assert forall x | x in recipes && Favorite(x.id, user) in favorites :: FavoriteCount(favorites, user)(x) > 0;
      r
    else recipes
  }

  /** `RecipeFilter.get_is_in_shopping_cart`: `queryset.filter(carts__user=user)` when the value is true. */
  function FilterInShoppingCart(recipes: seq<Recipe>, carts: seq<Cart>, user: UserId, value: bool)
    : (r: seq<Recipe>)
    ensures !value ==> r == recipes
    ensures value ==> forall x | x in r :: x in recipes && Cart(x.id, user) in carts
    ensures value ==> forall x | x in recipes && Cart(x.id, user) in carts :: x in r
  {
    if value then
      var r := Fanout(recipes, CartCount(carts, user));
      assert forall x | x in recipes && Cart(x.id, user) in carts :: CartCount(carts, user)(x) > 0;
      r
    else recipes
  }

  /**
    On duplicate-free favourites the filter is a plain selection: it keeps
    the input's order and repeats no recipe.
  */
  lemma {:induction false} FilterFavoritedOnce(recipes: seq<Recipe>, favorites: seq<Favorite>, user: UserId)
    requires NoDuplicates(favorites)
    ensures FilterFavorited(recipes, favorites, user, true) == Filter(recipes, Favorited(favorites, user))
    ensures multiset(FilterFavorited(recipes, favorites, user, true)) <= multiset(recipes)
  {
    NoDuplicatesMeans(favorites);
    forall x | x in recipes
      ensures FavoriteCount(favorites, user)(x) == if Favorited(favorites, user)(x) then 1 else 0
    {
    }
    FanoutAsFilter(recipes, FavoriteCount(favorites, user), Favorited(favorites, user));
    FilterSubMultiset(recipes, Favorited(favorites, user));
  }

  lemma {:induction false} FilterInShoppingCartOnce(recipes: seq<Recipe>, carts: seq<Cart>, user: UserId)
    requires NoDuplicates(carts)
    ensures FilterInShoppingCart(recipes, carts, user, true) == Filter(recipes, InCart(carts, user))
    ensures multiset(FilterInShoppingCart(recipes, carts, user, true)) <= multiset(recipes)
  {
    NoDuplicatesMeans(carts);
    forall x | x in recipes
      ensures CartCount(carts, user)(x) == if InCart(carts, user)(x) then 1 else 0
    {
    }
    FanoutAsFilter(recipes, CartCount(carts, user), InCart(carts, user));
    FilterSubMultiset(recipes, InCart(carts, user));
  }

  /**
    Without the uniqueness the handlers maintain, a recipe favourited twice
    by the user is listed twice.
  */
  lemma {:induction false} DuplicateFavoriteListedTwice(r: Recipe, user: UserId)
    ensures FilterFavorited([r], [Favorite(r.id, user), Favorite(r.id, user)], user, true) == [r, r]
  {
    var favorites := [Favorite(r.id, user), Favorite(r.id, user)];
    assert multiset(favorites)[Favorite(r.id, user)] == 2;
    assert Fanout([r], FavoriteCount(favorites, user)) == Fanout([], FavoriteCount(favorites, user)) + Repeat(r, 2);
  }

  function NameContains(name: string): Ingredient -> bool {
    (i: Ingredient) => ContainsIgnoreCase(i.name, name)
  }

  /**
    `IngredientViewSet.get_queryset` as written: `name__icontains` when `name`
    is given and not empty. Otherwise it returns `super().queryset`, which
    skips the view's own `queryset` and finds the framework default `None`;
    the search filter hands `None` on, and the serializer renders it as an
    empty listing.
  */
  function SearchIngredients(ingredients: seq<Ingredient>, name: Option<string>): (r: seq<Ingredient>)
    ensures name == None || name == Some("") ==> r == []
    ensures name.Some? && name.value != "" ==>
      && (forall i | i in r :: i in ingredients && ContainsIgnoreCase(i.name, name.value))
      && (forall i | i in ingredients && ContainsIgnoreCase(i.name, name.value) :: i in r)
    ensures multiset(r) <= multiset(ingredients)
  {
    match name
    case Some(n) =>
      if n == "" then []
      else
        FilterSubMultiset(ingredients, NameContains(n));
        FilterMembers(ingredients, NameContains(n));
        Filter(ingredients, NameContains(n))
    case None => []
  }

  /**
    The listing without a search term is empty, however many ingredients
    the table holds: it differs from the table whenever the table is not empty.
  */
  lemma {:induction false} UnnamedSearchListsNothing(ingredients: seq<Ingredient>)
    requires |ingredients| > 0
    ensures SearchIngredients(ingredients, None) != ingredients
    ensures SearchIngredients(ingredients, Some("")) != ingredients
  {
    assert |SearchIngredients(ingredients, None)| == 0;
    assert |SearchIngredients(ingredients, Some(""))| == 0;
  }

  /**
    The evidently intended listing: the whole table (the view's own
    `queryset`) when no search term is given, the search otherwise.
  */
  function SearchIngredientsIntended(ingredients: seq<Ingredient>, name: Option<string>): (r: seq<Ingredient>)
    ensures name == None || name == Some("") ==> r == ingredients
    ensures name.Some? && name.value != "" ==>
      && (forall i | i in r :: i in ingredients && ContainsIgnoreCase(i.name, name.value))
      && (forall i | i in ingredients && ContainsIgnoreCase(i.name, name.value) :: i in r)
    ensures multiset(r) <= multiset(ingredients)
  {
    if name == None || name == Some("") then ingredients else SearchIngredients(ingredients, name)
  }

  /** With the intended listing, every ingredient is found by its own name, a blank one included. */
  lemma {:induction false} IntendedSearchFindsEveryName(ingredients: seq<Ingredient>, i: Ingredient)
    requires i in ingredients
    ensures i in SearchIngredientsIntended(ingredients, Some(i.name))
    ensures i in SearchIngredientsIntended(ingredients, None)
  {
    ContainsItself(i.name);
  }

  /** The search ignores the case of the query. */
  lemma {:induction false} SearchIgnoresCase(ingredients: seq<Ingredient>, name: string)
    ensures SearchIngredients(ingredients, Some(Lower(name))) == SearchIngredients(ingredients, Some(name))
  {
    if name != "" {
      assert Lower(name) != "" by {
        assert |Lower(name)| == |name|;
      }
      forall i | i in ingredients ensures NameContains(Lower(name))(i) == NameContains(name)(i) {
        ContainsIgnoresCase(i.name, name);
      }
      FilterCongruent(ingredients, NameContains(Lower(name)), NameContains(name));
    }
  }

  /** Searching for an ingredient's whole, non-blank name finds it. */
  lemma {:induction false} SearchFindsExactName(ingredients: seq<Ingredient>, i: Ingredient)
    requires i in ingredients && i.name != ""
    ensures i in SearchIngredients(ingredients, Some(i.name))
  {
    ContainsItself(i.name);
  }

  function SubscriberCount(subscriptions: seq<Subscription>, requester: UserId): UserId -> nat {
    (u: UserId) => multiset(subscriptions)[Subscription(u, requester)]
  }

  function Followed(subscriptions: seq<Subscription>, requester: UserId): UserId -> bool {
    (u: UserId) => Subscription(u, requester) in subscriptions
  }

  /** `User.objects.filter(subscribers__user=request.user)`: the authors the requester follows. */
  function Subscriptions(users: seq<UserId>, subscriptions: seq<Subscription>, requester: UserId)
    : (r: seq<UserId>)
    ensures forall u | u in r :: u in users && Subscription(u, requester) in subscriptions
    ensures forall u | u in users && Subscription(u, requester) in subscriptions :: u in r
  {
    assert forall u | u in users && Subscription(u, requester) in subscriptions ::
      SubscriberCount(subscriptions, requester)(u) > 0;
    Fanout(users, SubscriberCount(subscriptions, requester))
  }

  /** On duplicate-free subscriptions the listing names each followed author once, in user-table order. */
  lemma {:induction false} SubscriptionsOnce(users: seq<UserId>, subscriptions: seq<Subscription>, requester: UserId)
    requires NoDuplicates(subscriptions)
    ensures Subscriptions(users, subscriptions, requester) == Filter(users, Followed(subscriptions, requester))
  {
    NoDuplicatesMeans(subscriptions);
    forall u | u in users
      ensures SubscriberCount(subscriptions, requester)(u) == if Followed(subscriptions, requester)(u) then 1 else 0
    {
    }
    FanoutAsFilter(users, SubscriberCount(subscriptions, requester), Followed(subscriptions, requester));
  }

  /** `SubscriptionSerializer.get_recipes_count`. */
  function RecipesCount(recipes: seq<Recipe>, author: UserId): (n: nat)
    ensures n <= |recipes|
    ensures n == 0 <==> forall r | r in recipes :: r.author != author
  {
    var o := RecipesOf(recipes, author);
    assert |o| <= |recipes| by {
      assert |o| == |multiset(o)| == |multiset(Filter(recipes, AuthoredBy(author)))|;
    }
    assert |o| > 0 ==> o[0] in o;
    |o|
  }

  /** The count is the number of the author's rows in the recipe table. */
  lemma {:induction false} RecipesCountIsRowCount(recipes: seq<Recipe>, author: UserId)
    ensures RecipesCount(recipes, author) == |Filter(recipes, AuthoredBy(author))|
  {
    var mine := Filter(recipes, AuthoredBy(author));
    assert |multiset(RecipesOf(recipes, author))| == |multiset(mine)|;
  }

  /**
    `SubscriptionSerializer.get_recipes`: the author's recipes, cut to the
    first `int(recipes_limit)` when the parameter is given and not empty.
  */
  function AuthorRecipes(recipes: seq<Recipe>, author: UserId, limit: Option<string>): (r: Result<seq<Recipe>>)
    ensures limit == None || limit == Some("") ==> r == Ok(RecipesOf(recipes, author))
    ensures limit.Some? && limit.value != "" && ParseInt(limit.value).None? ==> r == Err(NotAnInteger)
    ensures limit.Some? && limit.value != "" && ParseInt(limit.value).Some? ==>
      var n := ParseInt(limit.value).value;
      if n < 0 then r == Err(NegativeSlice)
      else r.Ok? && r.value == RecipesOf(recipes, author)[..if n < RecipesCount(recipes, author) then n
                                                            else RecipesCount(recipes, author)]
  {
    var all := RecipesOf(recipes, author);
    match limit
    case None => Ok(all)
    case Some(text) =>
      if text == "" then Ok(all)
      else
        match ParseInt(text)
        case None => Err(NotAnInteger)
        case Some(n) =>
          if n < 0 then Err(NegativeSlice)
          else Ok(all[..if n < |all| then n else |all|])
  }

  /**
    With a limit that `int()` reads as `n >= 0` (its decimal form, say), the
    listing is the first `min(n, count)` of the author's recipes, newest
    first; the count ignores the limit.
  */
  lemma {:induction false} AuthorRecipesPrefix(recipes: seq<Recipe>, author: UserId, limit: string, n: nat)
    requires ParseInt(limit) == Some(n)
    ensures var r := AuthorRecipes(recipes, author, Some(limit));
      && r.Ok?
      && |r.value| == (if n < RecipesCount(recipes, author) then n else RecipesCount(recipes, author))
      && r.value == RecipesOf(recipes, author)[..|r.value|]
      && NewestFirst(r.value)
      && forall x | x in r.value :: x in recipes && x.author == author
  {
    var all := RecipesOf(recipes, author);
    var k := if n < |all| then n else |all|;
    assert RecipesCount(recipes, author) == |all|;
    assert limit != "";
    assert AuthorRecipes(recipes, author, Some(limit)) == Ok(all[..k]);
    PrefixNewestFirst(all, k);
  }

  /** A prefix of a newest-first list is newest first and drawn from the list. */
  lemma {:induction false} PrefixNewestFirst(all: seq<Recipe>, k: nat)
    requires NewestFirst(all) && k <= |all|
    ensures NewestFirst(all[..k])
    ensures forall x | x in all[..k] :: x in all
  {
    forall i, j | 0 <= i < j < k ensures all[..k][i].pubDate >= all[..k][j].pubDate {
      assert all[..k][i] == all[i] && all[..k][j] == all[j];
    }
  }

  /** A limit that is not a number is refused rather than ignored. */
  lemma {:induction false} AuthorRecipesRejectsWord(recipes: seq<Recipe>, author: UserId, limit: string, i: nat)
    requires i < |limit| && ('a' <= limit[i] <= 'z' || 'A' <= limit[i] <= 'Z')
    ensures AuthorRecipes(recipes, author, Some(limit)) == Err(NotAnInteger)
  {
    ParseRejectsLetter(limit, i);
  }

  /** A negative limit is refused: querysets do not take negative slices. */
  lemma {:induction false} AuthorRecipesRejectsNegative(recipes: seq<Recipe>, author: UserId, digits: string)
    requires DigitGroups(digits) && DigitsValue(digits) > 0
    ensures AuthorRecipes(recipes, author, Some("-" + digits)) == Err(NegativeSlice)
  {
    ParseNegative(digits);
  }
}
