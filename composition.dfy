/**
  The pure parts of writing a recipe's composition: the IngredientAmount rows
  made from the ingredient lines, the replace (not merge) of a recipe's
  amounts on update, the RecipeTag rows of a create, the tag-set replacement
  `recipe.tags.set(...)` performs on update, and the `setattr` loop over the
  supplied scalar fields.
*/
module Composition {
  import opened Rows
  import opened Models

  /** One validated ingredient line of a recipe payload: `{id, amount}`. */
  datatype IngredientLine = IngredientLine(ingredient: IngredientId, amount: int)

  /** The IngredientAmount rows bulk-created for `recipe`: one per line, in line order. */
  function AmountRows(recipe: RecipeId, lines: seq<IngredientLine>): (rows: seq<IngredientAmount>)
    ensures |rows| == |lines|
    ensures forall i | 0 <= i < |lines| ::
      rows[i] == IngredientAmount(lines[i].ingredient, recipe, lines[i].amount)
  {
    seq(|lines|, i requires 0 <= i < |lines| =>
      IngredientAmount(lines[i].ingredient, recipe, lines[i].amount))
  }

  /** Row selectors: `recipe_id = recipe` and its negation. */
  function AmountOf(recipe: RecipeId): IngredientAmount -> bool {
    (a: IngredientAmount) => a.recipe == recipe
  }

  function AmountNotOf(recipe: RecipeId): IngredientAmount -> bool {
    (a: IngredientAmount) => a.recipe != recipe
  }

  /** The amount rows of one recipe, in table order. */
  function AmountsOf(amounts: seq<IngredientAmount>, recipe: RecipeId): seq<IngredientAmount> {
    Filter(amounts, AmountOf(recipe))
  }

  /** Deletes every amount row of `recipe`, then bulk-creates the rows of `lines`. */
  function ReplaceAmounts(amounts: seq<IngredientAmount>, recipe: RecipeId, lines: seq<IngredientLine>)
    : (r: seq<IngredientAmount>)
    ensures forall a | a in amounts && a.recipe != recipe :: a in r
    ensures forall a | a in r && a.recipe == recipe :: IngredientLine(a.ingredient, a.amount) in lines
  {
    var others, created := Filter(amounts, AmountNotOf(recipe)), AmountRows(recipe, lines);
    FilterMembers(amounts, AmountNotOf(recipe));
    assert forall a | a in created :: IngredientLine(a.ingredient, a.amount) in lines by {
      forall a | a in created ensures IngredientLine(a.ingredient, a.amount) in lines {
        var i :| 0 <= i < |created| && created[i] == a;
        assert lines[i] == IngredientLine(a.ingredient, a.amount);
      }
    }
    others + created
  }

  /** After the replace, the recipe's amounts are exactly the new lines: no old row survives. */
  lemma {:induction false} ReplaceAmountsOwn(amounts: seq<IngredientAmount>, recipe: RecipeId, lines: seq<IngredientLine>)
    ensures AmountsOf(ReplaceAmounts(amounts, recipe, lines), recipe) == AmountRows(recipe, lines)
    ensures |AmountsOf(ReplaceAmounts(amounts, recipe, lines), recipe)| == |lines|
  {
    var others := Filter(amounts, AmountNotOf(recipe));
    var created := AmountRows(recipe, lines);
    FilterMembers(amounts, AmountNotOf(recipe));
    FilterAppend(others, created, AmountOf(recipe));
    FilterNone(others, AmountOf(recipe));
    FilterAll(created, AmountOf(recipe));
  }

  /** The replace leaves the amount rows of every other recipe as they were. */
  lemma {:induction false} ReplaceAmountsOthers(amounts: seq<IngredientAmount>, recipe: RecipeId, lines: seq<IngredientLine>,
                             other: RecipeId)
    requires other != recipe
    ensures AmountsOf(ReplaceAmounts(amounts, recipe, lines), other) == AmountsOf(amounts, other)
  {
    var created := AmountRows(recipe, lines);
    FilterAppend(Filter(amounts, AmountNotOf(recipe)), created, AmountOf(other));
    FilterNarrow(amounts, AmountNotOf(recipe), AmountOf(other));
    FilterNone(created, AmountOf(other));
  }

  /**
    For a recipe that has no amount rows yet (a new one), appending its rows
    is the replace: so a create, too, leaves exactly one row per line.
  */
  lemma {:induction false} AppendIsReplace(amounts: seq<IngredientAmount>, recipe: RecipeId, lines: seq<IngredientLine>)
    requires forall a | a in amounts :: a.recipe != recipe
    ensures amounts + AmountRows(recipe, lines) == ReplaceAmounts(amounts, recipe, lines)
  {
    FilterAll(amounts, AmountNotOf(recipe));
  }

  /** Every row after the replace is an old row or a row of one of the new lines. */
  lemma {:induction false} ReplaceAmountsRows(amounts: seq<IngredientAmount>, recipe: RecipeId, lines: seq<IngredientLine>)
    ensures forall a | a in ReplaceAmounts(amounts, recipe, lines) ::
      a in amounts || (a.recipe == recipe && IngredientLine(a.ingredient, a.amount) in lines)
  {
    var created := AmountRows(recipe, lines);
    FilterMembers(amounts, AmountNotOf(recipe));
    forall a | a in created ensures a.recipe == recipe && IngredientLine(a.ingredient, a.amount) in lines {
      var i :| 0 <= i < |created| && created[i] == a;
      assert lines[i] == IngredientLine(a.ingredient, a.amount);
    }
  }

  /** The RecipeTag rows the create loop adds: one per element of `tags`, duplicates included. */
  function TagLinks(recipe: RecipeId, tags: seq<TagId>): (links: seq<RecipeTag>)
    ensures |links| == |tags|
    ensures forall i | 0 <= i < |tags| :: links[i] == RecipeTag(tags[i], recipe)
  {
    seq(|tags|, i requires 0 <= i < |tags| => RecipeTag(tags[i], recipe))
  }

  function LinkOf(recipe: RecipeId): RecipeTag -> bool {
    (l: RecipeTag) => l.recipe == recipe
  }

  /** The links `set` keeps: those of other recipes, and those to a wanted tag. */
  function LinkKept(recipe: RecipeId, tags: seq<TagId>): RecipeTag -> bool {
    (l: RecipeTag) => l.recipe != recipe || l.tag in tags
  }

  function LinksOf(links: seq<RecipeTag>, recipe: RecipeId): seq<RecipeTag> {
    Filter(links, LinkOf(recipe))
  }

  /** The tags attached to `recipe`. */
  function TagsOf(links: seq<RecipeTag>, recipe: RecipeId): set<TagId> {
    set l | l in links && l.recipe == recipe :: l.tag
  }

  /** The tags of `tags` that are not in `present`, each once, in order of first appearance. */
  function Missing(tags: seq<TagId>, present: set<TagId>): (r: seq<TagId>)
    ensures NoDuplicates(r)
    ensures forall t | t in r :: t in tags && t !in present
    ensures forall t | t in tags && t !in present :: t in r
    decreases |tags|
  {
    if |tags| == 0 then []
    else if tags[0] in present then Missing(tags[1..], present)
    else
      var rest := Missing(tags[1..], present + {tags[0]});
      assert tags[0] !in rest;
      NoDuplicatesPrepend(tags[0], rest);
      [tags[0]] + rest
  }

  /**
    `recipe.tags.set(tags)`: deletes the links to tags no longer wanted, keeps
    the others as they are, and adds one link per wanted tag not yet linked.
  */
  function SetTags(links: seq<RecipeTag>, recipe: RecipeId, tags: seq<TagId>): (r: seq<RecipeTag>)
    ensures forall l | l in links && (l.recipe != recipe || l.tag in tags) :: l in r
    ensures forall l | l in r && l.recipe == recipe :: l.tag in tags
  {
    var kept, added := Filter(links, LinkKept(recipe, tags)), TagLinks(recipe, Missing(tags, TagsOf(links, recipe)));
    FilterMembers(links, LinkKept(recipe, tags));
    kept + added
  }

  /** After `set`, the recipe's tag set is exactly the supplied set. */
  lemma {:induction false} SetTagsExact(links: seq<RecipeTag>, recipe: RecipeId, tags: seq<TagId>)
    ensures TagsOf(SetTags(links, recipe, tags), recipe) == set t | t in tags
  {
    var before := TagsOf(links, recipe);
    var kept := Filter(links, LinkKept(recipe, tags));
    var added := TagLinks(recipe, Missing(tags, before));
    FilterMembers(links, LinkKept(recipe, tags));
    var r := kept + added;
    forall t | t in tags ensures t in TagsOf(r, recipe) {
      if t in before {
        var l :| l in links && l.recipe == recipe && l.tag == t;
        assert l in kept;
      } else {
        var m := Missing(tags, before);
        var i :| 0 <= i < |m| && m[i] == t;
        assert added[i] == RecipeTag(t, recipe);
        assert added[i] in r;
      }
    }
    forall t | t in TagsOf(r, recipe) ensures t in tags {
      var l :| l in r && l.recipe == recipe && l.tag == t;
      if l in added {
        var i :| 0 <= i < |added| && added[i] == l;
      }
    }
  }

  /** `set` on one recipe leaves the links of every other recipe as they were. */
  lemma {:induction false} SetTagsOthers(links: seq<RecipeTag>, recipe: RecipeId, tags: seq<TagId>, other: RecipeId)
    requires other != recipe
    ensures LinksOf(SetTags(links, recipe, tags), other) == LinksOf(links, other)
  {
    var added := TagLinks(recipe, Missing(tags, TagsOf(links, recipe)));
    FilterAppend(Filter(links, LinkKept(recipe, tags)), added, LinkOf(other));
    FilterNarrow(links, LinkKept(recipe, tags), LinkOf(other));
    FilterNone(added, LinkOf(other));
  }

  /** Every link after `set` is an old link or a link of the recipe to a supplied tag. */
  lemma {:induction false} SetTagsRows(links: seq<RecipeTag>, recipe: RecipeId, tags: seq<TagId>)
    ensures forall l | l in SetTags(links, recipe, tags) :: l in links || (l.recipe == recipe && l.tag in tags)
  {
    var m := Missing(tags, TagsOf(links, recipe));
    var added := TagLinks(recipe, m);
    FilterMembers(links, LinkKept(recipe, tags));
    forall l | l in added ensures l.recipe == recipe && l.tag in tags {
      var i :| 0 <= i < |added| && added[i] == l;
      assert m[i] in m;
    }
  }

  /** `set` adds no link that already exists, so a duplicate-free recipe stays so. */
  lemma {:induction false} SetTagsNoDuplicates(links: seq<RecipeTag>, recipe: RecipeId, tags: seq<TagId>)
    requires NoDuplicates(links)
    ensures NoDuplicates(SetTags(links, recipe, tags))
  {
    var kept := Filter(links, LinkKept(recipe, tags));
    var m := Missing(tags, TagsOf(links, recipe));
    var added := TagLinks(recipe, m);
    var r := kept + added;
    FilterKeepsNoDuplicates(links, LinkKept(recipe, tags));
    FilterMembers(links, LinkKept(recipe, tags));
    NoDuplicatesMeans(kept);
    NoDuplicatesMeans(r);
    forall x | x in r ensures multiset(r)[x] == 1 {
      if x in added {
        var i :| 0 <= i < |added| && added[i] == x;
        assert x !in kept;
        assert multiset(added)[x] == 1 by {
          assert added == seq(|m|, k requires 0 <= k < |m| => RecipeTag(m[k], recipe));
          TagLinksNoDuplicates(recipe, m);
          NoDuplicatesMeans(added);
        }
      } else {
        assert multiset(added)[x] == 0;
      }
    }
  }

  lemma {:induction false} TagLinksNoDuplicates(recipe: RecipeId, tags: seq<TagId>)
    requires NoDuplicates(tags)
    ensures NoDuplicates(TagLinks(recipe, tags))
    decreases |tags|
  {
    if |tags| > 0 {
      var init, last := tags[..|tags| - 1], tags[|tags| - 1];
      TagLinksNoDuplicates(recipe, init);
      var links := TagLinks(recipe, tags);
      assert links[..|links| - 1] == TagLinks(recipe, init);
      assert links[|links| - 1] !in TagLinks(recipe, init) by {
        forall i | 0 <= i < |init| ensures TagLinks(recipe, init)[i] != links[|links| - 1] {
          assert init[i] in init;
        }
      }
    }
  }

  /** For a new recipe, the create loop's links are the recipe's whole tag set. */
  lemma {:induction false} CreateTags(links: seq<RecipeTag>, recipe: RecipeId, tags: seq<TagId>)
    requires forall l | l in links :: l.recipe != recipe
    ensures LinksOf(links + TagLinks(recipe, tags), recipe) == TagLinks(recipe, tags)
    ensures TagsOf(links + TagLinks(recipe, tags), recipe) == set t | t in tags
  {
    var added := TagLinks(recipe, tags);
    assert LinksOf(links + added, recipe) == added by {
      FilterAppend(links, added, LinkOf(recipe));
      FilterNone(links, LinkOf(recipe));
      FilterAll(added, LinkOf(recipe));
    }
    forall t | t in tags ensures t in TagsOf(links + added, recipe) {
      var i :| 0 <= i < |tags| && tags[i] == t;
      assert added[i] in links + added;
    }
    forall t | t in TagsOf(links + added, recipe) ensures t in tags {
      var l :| l in links + added && l.recipe == recipe && l.tag == t;
      var i :| 0 <= i < |added| && added[i] == l;
    }
  }

  /** The create loop's links leave the links of every other recipe as they were. */
  lemma {:induction false} CreateTagsOthers(links: seq<RecipeTag>, recipe: RecipeId, tags: seq<TagId>, other: RecipeId)
    requires other != recipe
    ensures LinksOf(links + TagLinks(recipe, tags), other) == LinksOf(links, other)
  {
    FilterAppend(links, TagLinks(recipe, tags), LinkOf(other));
    FilterNone(TagLinks(recipe, tags), LinkOf(other));
  }

  /** A scalar field of the validated data, with its new value. */
  datatype RecipeField =
    | Name(name: string)
    | Text(text: string)
    | CookingTime(minutes: int)
    | Image(image: string)
    | Author(author: UserId)

  datatype FieldKey = NameKey | TextKey | CookingTimeKey | ImageKey | AuthorKey

  function KeyOf(f: RecipeField): FieldKey {
    match f
    case Name(_) => NameKey
    case Text(_) => TextKey
    case CookingTime(_) => CookingTimeKey
    case Image(_) => ImageKey
    case Author(_) => AuthorKey
  }

  /** The current value of one scalar attribute of a recipe. */
  function FieldOf(r: Recipe, k: FieldKey): (f: RecipeField)
    ensures KeyOf(f) == k
  {
    match k
    case NameKey => Name(r.name)
    case TextKey => Text(r.text)
    case CookingTimeKey => CookingTime(r.cookingTime)
    case ImageKey => Image(r.image)
    case AuthorKey => Author(r.author)
  }

  /** `setattr(instance, key, value)`: changes that attribute and no other. */
  function SetAttr(r: Recipe, f: RecipeField): (r': Recipe)
    ensures FieldOf(r', KeyOf(f)) == f
    ensures forall k | k != KeyOf(f) :: FieldOf(r', k) == FieldOf(r, k)
    ensures r'.id == r.id && r'.pubDate == r.pubDate
  {
    match f
    case Name(v) => r.(name := v)
    case Text(v) => r.(text := v)
    case CookingTime(v) => r.(cookingTime := v)
    case Image(v) => r.(image := v)
    case Author(v) => r.(author := v)
  }

  /** The `setattr` loop over the validated data, in order. */
  function ApplyFields(r: Recipe, fields: seq<RecipeField>): (r': Recipe)
    ensures r'.id == r.id && r'.pubDate == r.pubDate
    decreases |fields|
  {
    if |fields| == 0 then r
    else SetAttr(ApplyFields(r, fields[..|fields| - 1]), fields[|fields| - 1])
  }

  /** Validated data is a dict: each field at most once. */
  predicate DistinctKeys(fields: seq<RecipeField>) {
    forall i, j | 0 <= i < j < |fields| :: KeyOf(fields[i]) != KeyOf(fields[j])
  }

  /**
    The update overwrites exactly the supplied scalar fields: each supplied
    field takes its new value, every other keeps its old one, and the id and
    publication date never change.
  */
  lemma {:induction false} ApplyFieldsEffect(r: Recipe, fields: seq<RecipeField>)
    requires DistinctKeys(fields)
    ensures forall i | 0 <= i < |fields| :: FieldOf(ApplyFields(r, fields), KeyOf(fields[i])) == fields[i]
    ensures forall k | (forall i | 0 <= i < |fields| :: KeyOf(fields[i]) != k) ::
      FieldOf(ApplyFields(r, fields), k) == FieldOf(r, k)
    ensures ApplyFields(r, fields).id == r.id && ApplyFields(r, fields).pubDate == r.pubDate
    decreases |fields|
  {
    if |fields| > 0 {
      var init := fields[..|fields| - 1];
      assert DistinctKeys(init);
      ApplyFieldsEffect(r, init);
    }
  }

  /** What the serializer's field validation guarantees of a supplied value. */
  predicate ValidField(f: RecipeField) {
    match f
    case Name(v) => 0 < |v| <= RecipeNameMax
    case Text(v) => |v| > 0
    case CookingTime(v) => ValidCookingTime(v)
    case _ => true
  }

  /** Validated fields keep a valid recipe valid. */
  lemma {:induction false} ApplyFieldsValid(r: Recipe, fields: seq<RecipeField>)
    requires ValidRecipe(r)
    requires forall f | f in fields :: ValidField(f)
    ensures ValidRecipe(ApplyFields(r, fields))
    decreases |fields|
  {
    if |fields| > 0 {
      var init := fields[..|fields| - 1];
      assert forall f | f in init :: f in fields;
      ApplyFieldsValid(r, init);
      assert fields[|fields| - 1] in fields;
    }
  }
}
