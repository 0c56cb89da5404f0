/**
  The shopping-list download: the amount rows of every recipe in the
  user's cart, joined to their ingredient, grouped by (name, unit) with the
  amounts summed; then the text post-processing applied to the rendered
  list. The groups are a map: their output order is left to the database.
*/
module Shopping {
  import opened Outcomes
  import opened Rows
  import opened Models
  import opened PyStr

  /** The grouping key of the list: `ingredient__name`, `ingredient__measurement_unit`. */
  datatype GroupKey = GroupKey(name: string, unit: string)

  /** One joined row before grouping: its group and its amount. */
  datatype Line = Line(key: GroupKey, amount: int)

  /** How many of the user's cart rows hold the row's recipe: the join repeats the row that often. */
  function CartCount(carts: seq<Cart>, user: UserId): IngredientAmount -> nat {
    (a: IngredientAmount) => multiset(carts)[Cart(a.recipe, user)]
  }

  function InCart(carts: seq<Cart>, user: UserId): IngredientAmount -> bool {
    (a: IngredientAmount) => Cart(a.recipe, user) in carts
  }

  /** `IngredientAmount.objects.filter(recipe__carts__user=user)`. */
  function CartAmounts(amounts: seq<IngredientAmount>, carts: seq<Cart>, user: UserId): (r: seq<IngredientAmount>)
    ensures forall a | a in r :: a in amounts && Cart(a.recipe, user) in carts
    ensures forall a | a in amounts && Cart(a.recipe, user) in carts :: a in r
  {
    var count := CartCount(carts, user);
    assert forall a :: count(a) > 0 <==> Cart(a.recipe, user) in carts;
    Fanout(amounts, count)
  }

  /** The ingredient a foreign key points at. */
  function IngredientById(ingredients: seq<Ingredient>, id: IngredientId): (r: Option<Ingredient>)
    ensures r.Some? ==> r.value in ingredients && r.value.id == id
    ensures r.None? ==> forall i | i in ingredients :: i.id != id
    decreases |ingredients|
  {
    if |ingredients| == 0 then None
    else if ingredients[0].id == id then Some(ingredients[0])
    else IngredientById(ingredients[1..], id)
  }

  /** The group of an amount row, when its ingredient exists. */
  function RowKey(ingredients: seq<Ingredient>, a: IngredientAmount): Option<GroupKey> {
    match IngredientById(ingredients, a.ingredient)
    case None => None
    case Some(i) => Some(GroupKey(i.name, i.measurementUnit))
  }

  /** `.values('ingredient__name', 'ingredient__measurement_unit')`: an inner join on the ingredient. */
  function Lines(ingredients: seq<Ingredient>, rows: seq<IngredientAmount>): (r: seq<Line>)
    ensures |r| <= |rows|
    ensures (forall a | a in rows :: IngredientById(ingredients, a.ingredient).Some?) ==> |r| == |rows|
    decreases |rows|
  {
    if |rows| == 0 then []
    else
      var last := rows[|rows| - 1];
      assert forall a | a in rows[..|rows| - 1] :: a in rows;
      Lines(ingredients, rows[..|rows| - 1]) +
        match RowKey(ingredients, last)
        case None => []
        case Some(k) => [Line(k, last.amount)]
  }

  function Keys(lines: seq<Line>): set<GroupKey> {
    set l | l in lines :: l.key
  }

  function HasKey(k: GroupKey): Line -> bool {
    (l: Line) => l.key == k
  }

  function Sum(lines: seq<Line>): int
    decreases |lines|
  {
    if |lines| == 0 then 0 else Sum(lines[..|lines| - 1]) + lines[|lines| - 1].amount
  }

  /** The total of one group, defined independently of the grouping: a sum over a selection. */
  function GroupTotal(lines: seq<Line>, k: GroupKey): int {
    Sum(Filter(lines, HasKey(k)))
  }

  /** `.annotate(total_amount=Sum('amount'))`: one entry per group, holding the group's sum. */
  function Aggregate(lines: seq<Line>): (m: map<GroupKey, int>)
    ensures m.Keys == Keys(lines)
    decreases |lines|
  {
    if |lines| == 0 then map[]
    else
      var init, last := lines[..|lines| - 1], lines[|lines| - 1];
      assert lines == init + [last];
      var m := Aggregate(init);
      m[last.key := (if last.key in m then m[last.key] else 0) + last.amount]
  }

  lemma {:induction false} SumAppend(lines: seq<Line>, l: Line)
    ensures Sum(lines + [l]) == Sum(lines) + l.amount
  {
    assert (lines + [l])[..|lines|] == lines;
  }

  /** Adding a line adds its amount to its own group and to no other. */
  lemma {:induction false} GroupTotalAppend(lines: seq<Line>, l: Line, k: GroupKey)
    ensures GroupTotal(lines + [l], k) == GroupTotal(lines, k) + if l.key == k then l.amount else 0
  {
    FilterAppend(lines, [l], HasKey(k));
    if l.key == k {
      assert Filter([l], HasKey(k)) == [l];
      SumAppend(Filter(lines, HasKey(k)), l);
    } else {
      assert Filter([l], HasKey(k)) == [];
      assert Filter(lines, HasKey(k)) + [] == Filter(lines, HasKey(k));
    }
  }

  /** A group with no line totals zero. */
  lemma {:induction false} GroupTotalAbsent(lines: seq<Line>, k: GroupKey)
    requires k !in Keys(lines)
    ensures GroupTotal(lines, k) == 0
  {
    FilterNone(lines, HasKey(k));
  }

  /** Every entry of the aggregate is the sum of its group's amounts. */
  lemma {:induction false} AggregateTotals(lines: seq<Line>)
    ensures forall k | k in Aggregate(lines) :: Aggregate(lines)[k] == GroupTotal(lines, k)
    decreases |lines|
  {
    if |lines| > 0 {
      var init, last := lines[..|lines| - 1], lines[|lines| - 1];
      assert lines == init + [last];
      AggregateTotals(init);
      forall k | k in Aggregate(lines) ensures Aggregate(lines)[k] == GroupTotal(lines, k) {
        GroupTotalAppend(init, last, k);
        if k !in Aggregate(init) {
          GroupTotalAbsent(init, k);
        }
      }
    }
  }

  /** `download_shopping_cart`'s query: the (name, unit) groups with their totals. */
  function ShoppingList(ingredients: seq<Ingredient>, amounts: seq<IngredientAmount>, carts: seq<Cart>,
                        user: UserId): (m: map<GroupKey, int>)
    ensures forall k | k in m :: exists a | a in amounts && Cart(a.recipe, user) in carts :: RowKey(ingredients, a) == Some(k)
  {
    LinesKeys(ingredients, CartAmounts(amounts, carts, user));
    Aggregate(Lines(ingredients, CartAmounts(amounts, carts, user)))
  }

  lemma {:induction false} LinesKeys(ingredients: seq<Ingredient>, rows: seq<IngredientAmount>)
    ensures Keys(Lines(ingredients, rows))
         == set a | a in rows && RowKey(ingredients, a).Some? :: RowKey(ingredients, a).value
    decreases |rows|
  {
    if |rows| > 0 {
      var init, last := rows[..|rows| - 1], rows[|rows| - 1];
      assert rows == init + [last];
      LinesKeys(ingredients, init);
      var lines, before := Lines(ingredients, rows), Lines(ingredients, init);
      var tail := match RowKey(ingredients, last) case None => [] case Some(k) => [Line(k, last.amount)];
      assert lines == before + tail;
      var keyed := set a | a in rows && RowKey(ingredients, a).Some? :: RowKey(ingredients, a).value;
      var keyedBefore := set a | a in init && RowKey(ingredients, a).Some? :: RowKey(ingredients, a).value;
      forall k | k in Keys(lines) ensures k in keyed {
        var l :| l in lines && l.key == k;
        if l in before {
          assert k in keyedBefore;
          var a :| a in init && RowKey(ingredients, a) == Some(k);
          assert a in rows;
        } else {
          assert RowKey(ingredients, last) == Some(k);
        }
      }
      forall k | k in keyed ensures k in Keys(lines) {
        var a :| a in rows && RowKey(ingredients, a) == Some(k);
        if a == last {
          assert tail[0] in lines;
        } else {
          assert a in init;
          assert k in keyedBefore;
          var l :| l in before && l.key == k;
          assert l in lines;
        }
      }
    }
  }

  /**
    There is one entry per distinct (name, unit) among the amount rows of
    recipes in the user's cart, and each entry is its group's total.
  */
  lemma {:induction false} ShoppingListGroups(ingredients: seq<Ingredient>, amounts: seq<IngredientAmount>, carts: seq<Cart>,
                           user: UserId)
    ensures ShoppingList(ingredients, amounts, carts, user).Keys
         == set a | a in amounts && Cart(a.recipe, user) in carts && RowKey(ingredients, a).Some?
              :: RowKey(ingredients, a).value
    ensures forall k | k in ShoppingList(ingredients, amounts, carts, user) ::
      ShoppingList(ingredients, amounts, carts, user)[k]
        == GroupTotal(Lines(ingredients, CartAmounts(amounts, carts, user)), k)
  {
    var joined := CartAmounts(amounts, carts, user);
    LinesKeys(ingredients, joined);
    AggregateTotals(Lines(ingredients, joined));
    assert forall a | a in joined :: a in amounts && Cart(a.recipe, user) in carts;
    assert forall a | a in amounts && Cart(a.recipe, user) in carts :: a in joined by {
      forall a | a in amounts && Cart(a.recipe, user) in carts ensures a in joined {
        assert CartCount(carts, user)(a) > 0;
      }
    }
  }

  /** When the user's cart holds each recipe once, the join is a plain selection. */
  lemma {:induction false} CartJoinOnce(amounts: seq<IngredientAmount>, carts: seq<Cart>, user: UserId)
    requires NoDuplicates(carts)
    ensures CartAmounts(amounts, carts, user) == Filter(amounts, InCart(carts, user))
  {
    NoDuplicatesMeans(carts);
    forall a | a in amounts
      ensures CartCount(carts, user)(a) == if InCart(carts, user)(a) then 1 else 0
    {
    }
    FanoutAsFilter(amounts, CartCount(carts, user), InCart(carts, user));
  }

  /** An empty cart yields an empty list. */
  lemma {:induction false} EmptyCart(ingredients: seq<Ingredient>, amounts: seq<IngredientAmount>, carts: seq<Cart>, user: UserId)
    requires forall c | c in carts :: c.user != user
    ensures ShoppingList(ingredients, amounts, carts, user) == map[]
  {
    FanoutEmpty(amounts, CartCount(carts, user));
  }

  /** The post-processing of the rendered list: `strip()`, then `replace('\n\n', '\n')`. */
  function CleanShoppingText(text: string): (r: string)
    ensures |r| <= |text|
    ensures Find(Strip(text), "\n\n").None? ==> r == Strip(text)
  {
    Replace(Strip(text), "\n\n", "\n")
  }

  /** A joined text ends with its last part. */
  lemma {:induction false} JoinSuffix(sep: string, parts: seq<string>)
    requires |parts| >= 1
    ensures var j, l := Join(sep, parts), parts[|parts| - 1];
      |l| <= |j| && j[|j| - |l|..] == l
    decreases |parts|
  {
    if |parts| > 1 {
      JoinSuffix(sep, parts[1..]);
    }
  }

  /**
    Entries rendered one per paragraph (separated by a blank line) come out
    one per line once the surrounding whitespace is stripped.
  */
  lemma {:induction false} CleanParagraphs(entries: seq<string>)
    requires |entries| >= 1
    requires forall e | e in entries :: |e| > 0 && '\n' !in e
    requires !IsSpace(entries[0][0])
    requires var last := entries[|entries| - 1]; !IsSpace(last[|last| - 1])
    ensures CleanShoppingText(Join("\n\n", entries)) == Join("\n", entries)
  {
    var text := Join("\n\n", entries);
    assert entries[0] in entries && entries[|entries| - 1] in entries;
    var last := entries[|entries| - 1];
    JoinSuffix("\n\n", entries);
    assert text[|text| - 1] == last[|last| - 1] by {
      assert text[|text| - |last|..][|last| - 1] == text[|text| - 1];
    }
    StripUnchanged(text);
    ReplaceSeparator(entries, "\n\n", "\n");
  }

  /**
    The replace is a single pass over non-overlapping occurrences: a run of
    four newlines becomes two, so a blank line can survive it.
  */
  lemma {:induction false} ReplaceIsSinglePass()
    ensures Replace("\n\n\n\n", "\n\n", "\n") == "\n\n"
  {
    var parts := ["", "", ""];
    assert Join("\n\n", parts) == "\n\n\n\n";
    assert Join("\n", parts) == "\n\n";
    ReplaceSeparator(parts, "\n\n", "\n");
  }
}
