/**
  The rows of the recipes app: ingredients, tags, recipes, the two join
  tables that attach tags and ingredient amounts to a recipe, favourites,
  shopping-cart entries, and (from the users app) subscriptions. Also the
  field limits and validators the models declare, and the default ordering
  of recipes (newest first).
*/
module Models {
  import opened Rows

  type UserId = nat
  type IngredientId = nat
  type TagId = nat
  type RecipeId = nat

  // CharField / SlugField limits and validator bounds declared on the models.
  const IngredientNameMax := 64
  const MeasurementUnitMax := 16
  const TagNameMax := 64
  const TagColorMax := 16
  const TagSlugMax := 50           // SlugField's default max_length
  const RecipeNameMax := 64
  const CookingTimeMin := 1
  const CookingTimeMax := 4320
  const AmountMin := 1
  const AmountMax := 10000

  datatype Ingredient = Ingredient(id: IngredientId, name: string, measurementUnit: string)

  datatype Tag = Tag(id: TagId, name: string, color: string, slug: string)

  /** `pubDate` is the server clock at creation (auto_now_add). */
  datatype Recipe = Recipe(
    id: RecipeId, author: UserId, name: string, text: string,
    cookingTime: int, pubDate: int, image: string)

  datatype RecipeTag = RecipeTag(tag: TagId, recipe: RecipeId)

  datatype IngredientAmount = IngredientAmount(ingredient: IngredientId, recipe: RecipeId, amount: int)

  /** Favorite and Cart are bare (recipe, user) pairs: nothing makes a pair unique. */
  datatype Favorite = Favorite(recipe: RecipeId, user: UserId)

  datatype Cart = Cart(recipe: RecipeId, user: UserId)

  /** `user` follows `author`. */
  datatype Subscription = Subscription(author: UserId, user: UserId)

  predicate ValidIngredient(i: Ingredient) {
    |i.name| <= IngredientNameMax && |i.measurementUnit| <= MeasurementUnitMax
  }

  predicate SlugChar(c: char) {
    'a' <= c <= 'z' || 'A' <= c <= 'Z' || '0' <= c <= '9' || c == '-' || c == '_'
  }

  /** The field limits of a tag; no field may be blank. */
  predicate ValidTag(t: Tag) {
    && 0 < |t.name| <= TagNameMax
    && 0 < |t.color| <= TagColorMax
    && 0 < |t.slug| <= TagSlugMax
    && forall i | 0 <= i < |t.slug| :: SlugChar(t.slug[i])
  }

  /** Tag name, color and slug are each unique across the tag table. */
  predicate TagsUnique(tags: seq<Tag>) {
    forall i, j | 0 <= i < j < |tags| ::
      tags[i].id != tags[j].id && tags[i].name != tags[j].name &&
      tags[i].color != tags[j].color && tags[i].slug != tags[j].slug
  }

  /** In a table with unique names, colours and slugs, any one of them identifies its tag. */
  lemma {:induction false} TagIdentifiedByEach(tags: seq<Tag>, a: Tag, b: Tag)
    requires TagsUnique(tags) && a in tags && b in tags
    requires a.id == b.id || a.name == b.name || a.color == b.color || a.slug == b.slug
    ensures a == b
  {
    var i :| 0 <= i < |tags| && tags[i] == a;
    var j :| 0 <= j < |tags| && tags[j] == b;
  }

  predicate ValidCookingTime(minutes: int) {
    CookingTimeMin <= minutes <= CookingTimeMax
  }

  /** The field limits and validators of a recipe; name and text may not be blank. */
  predicate ValidRecipe(r: Recipe) {
    0 < |r.name| <= RecipeNameMax && |r.text| > 0 && ValidCookingTime(r.cookingTime)
  }

  /**
    The range the model declares for an amount. The write path of the API
    does not check it, so the store invariant does not include it.
  */
  predicate ValidAmount(a: IngredientAmount) {
    AmountMin <= a.amount <= AmountMax
  }

  /** The listing order of recipes: newest `pubDate` first. */
  predicate NewestFirst(rs: seq<Recipe>) {
    forall i, j | 0 <= i < j < |rs| :: rs[i].pubDate >= rs[j].pubDate
  }

  /** Places `r` in a newest-first list, ahead of recipes published at the same time. */
  function InsertNewestFirst(r: Recipe, rs: seq<Recipe>): (o: seq<Recipe>)
    requires NewestFirst(rs)
    ensures NewestFirst(o)
    ensures multiset(o) == multiset(rs) + multiset{r}
    ensures |o| == |rs| + 1
    ensures |rs| == 0 ==> o == [r]
    ensures |rs| > 0 ==> o[0] == r || o[0] == rs[0]
    decreases |rs|
  {
    if |rs| == 0 then [r]
    else if r.pubDate >= rs[0].pubDate then
      NewestFirstCons(r, rs);
      [r] + rs
    else
      var tail := InsertNewestFirst(r, rs[1..]);
      assert rs == [rs[0]] + rs[1..];
      NewestFirstCons(rs[0], tail);
      [rs[0]] + tail
  }

  /** A recipe no older than the head of a newest-first list can go in front of it. */
  lemma {:induction false} NewestFirstCons(x: Recipe, tail: seq<Recipe>)
    requires NewestFirst(tail)
    requires |tail| == 0 || x.pubDate >= tail[0].pubDate
    ensures NewestFirst([x] + tail)
  {
    var o := [x] + tail;
    forall i, j | 0 <= i < j < |o| ensures o[i].pubDate >= o[j].pubDate {
      if i == 0 && j > 1 {
        assert tail[0].pubDate >= tail[j - 1].pubDate;
      }
    }
  }

  /**
    Recipes in their default listing order (`ordering = ['-pub_date']`).
    The database breaks ties between equal dates in an order of its own.
  */
  function OrderNewestFirst(rs: seq<Recipe>): (o: seq<Recipe>)
    ensures NewestFirst(o)
    ensures multiset(o) == multiset(rs)
    decreases |rs|
  {
    if |rs| == 0 then []
    else
      assert rs == [rs[0]] + rs[1..];
      InsertNewestFirst(rs[0], OrderNewestFirst(rs[1..]))
  }

  function AuthoredBy(author: UserId): Recipe -> bool {
    (r: Recipe) => r.author == author
  }

  /** The recipes of `author`, newest first (the `recipes` related manager). */
  function RecipesOf(recipes: seq<Recipe>, author: UserId): (o: seq<Recipe>)
    ensures NewestFirst(o)
    ensures multiset(o) == multiset(Filter(recipes, AuthoredBy(author)))
    ensures forall r | r in o :: r in recipes && r.author == author
    ensures forall r | r in recipes && r.author == author :: r in o
  {
    var mine := Filter(recipes, AuthoredBy(author));
    FilterMembers(recipes, AuthoredBy(author));
    var o := OrderNewestFirst(mine);
    assert forall r | r in o :: r in mine by {
      forall r | r in o ensures r in mine {
        assert r in multiset(o);
      }
    }
    assert forall r | r in mine :: r in o by {
      forall r | r in mine ensures r in o {
        assert r in multiset(mine);
      }
    }
    o
  }
}
