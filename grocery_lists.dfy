/** The grocery-list routes of src/server/routes/grocery_lists.py: a new list gets one item per
    ingredient of every recipe planned within a date range, plus one "extra" item per line of
    its free text; an update regenerates only the extra items. */
module GroceryLists {
  import opened Common
  import opened Text
  import opened Models
  import opened ModelFacts
  import opened Query
  import opened RowChecks
  import opened Db
  import opened GroceryItems
  import opened Storage
  import opened TableEdits

  /** `extra_items.split("\n")` has one line more than the text has newlines, and joining the
      names of the extra items with newlines gives the text back. */
  lemma ExtraItemsFromText(gl: int, text: string)
    ensures |ExtraItemRows(gl, Split(text, '\n'))| == Count(text, '\n') + 1
    ensures var lines := Split(text, '\n');
      forall i | 0 <= i < |lines| :: ExtraItemRows(gl, lines)[i][Name] == VStr(lines[i])
    ensures Join(Split(text, '\n'), '\n') == text
  {
    JoinSplit(text, '\n');
  }

  /** Tests-versus-code note: the tests expect a list created without extra items to have no
      extra item, but `"".split("\n")` is `[""]`, so the code creates exactly one extra item, with
      an empty name. */
  lemma EmptyTextMakesOneEmptyItem(gl: int)
    ensures ExtraItemRows(gl, Split("", '\n')) == [ExtraItem(gl, "")]
  {
  }

  // ---------------------------------------------------------------- which items

  /** The tables the recipe-derived items are read from: the meal-plan entries, the recipes and
      the ingredients. Creating lists and items leaves them alone. */
  datatype Kitchen = Kitchen(plans: Table, recipes: Table, ingredients: Table)

  function KitchenOf(s: Store): Kitchen {
    Kitchen(T(s, MealPlanItem), T(s, Recipe), T(s, Ingredient))
  }

  /** The recipe a meal-plan entry plans (`meal_plan_item.recipe`). */
  function RecipeOf(kt: Kitchen, p: int): int {
    match Val(RowAt(kt.plans, p), RecipeId)
    case VInt(i) => i
    case _ => 0
  }

  /** The ingredients of a recipe (`recipe.ingredients`). */
  function IngredientsOf(kt: Kitchen, recipe: int): set<int> {
    RefKeys(kt.ingredients, RecipeId, recipe)
  }

  /** Number of ingredients over the recipes of all the entries. */
  function PairCount(kt: Kitchen, plans: seq<int>): nat {
    if |plans| == 0 then 0
    else PairCount(kt, plans[..|plans| - 1]) + |IngredientsOf(kt, RecipeOf(kt, plans[|plans| - 1]))|
  }

  /** The recipe-derived items for the (entry, ingredient) pairs `sources`. */
  function SourcedRows(kt: Kitchen, gl: int, sources: seq<(int, int)>): (items: seq<Row>)
    ensures |items| == |sources|
    ensures forall i | 0 <= i < |sources| ::
      items[i] == RecipeItem(gl, RowAt(kt.ingredients, sources[i].1), RowAt(kt.recipes, RecipeOf(kt, sources[i].0)))
  {
    seq(|sources|, i requires 0 <= i < |sources| =>
      RecipeItem(gl, RowAt(kt.ingredients, sources[i].1), RowAt(kt.recipes, RecipeOf(kt, sources[i].0))))
  }

  /** `sources` lists every pair (entry of `plans[..n]`, ingredient of its recipe) exactly once,
      and nothing else. */
  ghost predicate Covers(kt: Kitchen, plans: seq<int>, n: nat, sources: seq<(int, int)>)
    requires n <= |plans|
  {
    && (forall p, g :: (p, g) in sources <==> p in plans[..n] && g in IngredientsOf(kt, RecipeOf(kt, p)))
    && (forall i, j | 0 <= i < j < |sources| :: sources[i] != sources[j])
    && |sources| == PairCount(kt, plans[..n])
  }

  /** The pairs of one more entry. */
  function PairsOf(p: int, ings: seq<int>): (pairs: seq<(int, int)>)
    ensures |pairs| == |ings| && forall i | 0 <= i < |ings| :: pairs[i] == (p, ings[i])
  {
    seq(|ings|, i requires 0 <= i < |ings| => (p, ings[i]))
  }

  lemma {:induction false} CoversStep(kt: Kitchen, plans: seq<int>, n: nat, sources: seq<(int, int)>, ings: seq<int>)
    requires n < |plans| && Covers(kt, plans, n, sources)
    requires forall i, j | 0 <= i < j < |plans| :: plans[i] != plans[j]
    requires Enumerates(ings, IngredientsOf(kt, RecipeOf(kt, plans[n])))
    ensures Covers(kt, plans, n + 1, sources + PairsOf(plans[n], ings))
  {
    var p := plans[n];
    var more := PairsOf(p, ings);
    var all := sources + more;
    assert plans[..n + 1] == plans[..n] + [p];
    assert p !in plans[..n];
    forall x, g ensures (x, g) in all <==> x in plans[..n + 1] && g in IngredientsOf(kt, RecipeOf(kt, x)) {
      if (x, g) in more {
        var i :| 0 <= i < |more| && more[i] == (x, g);
      }
      if x == p && g in IngredientsOf(kt, RecipeOf(kt, x)) {
        var i :| 0 <= i < |ings| && ings[i] == g;
        assert more[i] == (x, g);
      }
    }
    forall i, j | 0 <= i < j < |all| ensures all[i] != all[j] {
      if j >= |sources| {
        assert all[j] == more[j - |sources|] && all[j].0 == p;
        if i < |sources| {
          assert all[i] in sources;
        } else {
          assert all[i] == more[i - |sources|];
        }
      }
    }
    assert plans[..n + 1][..n] == plans[..n];
  }

  lemma SourcedRowsAppend(kt: Kitchen, gl: int, sources: seq<(int, int)>, p: int, ings: seq<int>)
    ensures SourcedRows(kt, gl, sources + PairsOf(p, ings))
         == SourcedRows(kt, gl, sources) + RecipeItems(gl, kt.ingredients, ings, RowAt(kt.recipes, RecipeOf(kt, p)))
  {
  }

  /** In a consistent store no item belongs to a grocery list that does not exist yet. */
  lemma NoItemsYet(s: Store, gl: int)
    requires Constraints(s) && gl !in T(s, GroceryList)
    ensures forall j | j in T(s, GroceryListItem) :: !RefersTo(T(s, GroceryListItem)[j], GroceryListId, {gl})
  {
    assert TableOk(s, GroceryListItem);
  }

  /** The entry's recipe exists. */
  lemma PlannedRecipe(s: Store, p: int)
    requires Constraints(s) && p in T(s, MealPlanItem)
    ensures RecipeOf(KitchenOf(s), p) in T(s, Recipe)
  {
    assert TableOk(s, MealPlanItem);
  }

  /** The items of list `gl` in item table `t` are exactly `items`, one per entry of `rows` and
      holding its values, all new since item table `t0`, whose every row `t` keeps. */
  ghost predicate Emitted(t0: Table, t: Table, gl: int, rows: seq<Row>, items: seq<int>) {
    && |items| == |rows|
    && (forall i | 0 <= i < |items| :: items[i] in t && Extends(t[items[i]], rows[i]))
    && (forall i, j | 0 <= i < j < |items| :: items[i] != items[j])
    && RefKeys(t, GroceryListId, gl) == Elems(items)
    && t.Keys == t0.Keys + Elems(items)
    && (forall j | j in t0 :: t[j] == t0[j])
  }

  /** Rows that all name list `gl` and were inserted into a table holding none of its items are
      exactly its items. */
  lemma GrownEmits(s0: Store, s: Store, gl: int, rows: seq<Row>, items: seq<int>)
    requires forall j | j in T(s0, GroceryListItem) :: !RefersTo(T(s0, GroceryListItem)[j], GroceryListId, {gl})
    requires Grown(s0, s, GroceryListItem, GroceryListId, gl, rows, items) && |items| == |rows|
    requires ListRows(gl, rows)
    ensures Emitted(T(s0, GroceryListItem), T(s, GroceryListItem), gl, rows, items)
  {
    GrownMembers(s0, s, GroceryListItem, GroceryListId, gl, rows, items);
    forall i | 0 <= i < |items| ensures Extends(T(s, GroceryListItem)[items[i]], rows[i]) {
      assert rows[i][GroceryListId := VInt(gl)] == rows[i];
    }
  }

  lemma SourcedRowsFit(kt: Kitchen, gl: int, sources: seq<(int, int)>)
    ensures ListRows(gl, SourcedRows(kt, gl, sources))
  {
  }

  lemma ListRowsAppend(gl: int, a: seq<Row>, b: seq<Row>)
    requires ListRows(gl, a) && ListRows(gl, b)
    ensures ListRows(gl, a + b)
  {
    forall i | 0 <= i < |a + b| ensures (a + b)[i] == if i < |a| then a[i] else b[i - |a|] {
    }
  }

  lemma ItemsRunAccepted(s: Store, gl: int, rows: seq<Row>)
    requires ListRows(gl, rows)
    ensures ItemsAccepted(s, gl, rows) ==> RunAccepted(s, GroceryListItem, GroceryListId, gl, rows)
  {
    if ItemsAccepted(s, gl, rows) {
      forall i | 0 <= i < |rows|
        ensures Id !in rows[i] && Fills(GroceryListItem, rows[i][GroceryListId := VInt(gl)])
        ensures RowRefsOk(s, GroceryListItem, rows[i][GroceryListId := VInt(gl)])
      {
        assert rows[i][GroceryListId := VInt(gl)] == rows[i];
      }
    }
  }

  /** The items of a planned recipe are accepted for an existing list. */
  lemma RecipeItemsAccepted(s: Store, gl: int, p: int, ings: seq<int>)
    requires Constraints(s) && p in T(s, MealPlanItem) && gl in T(s, GroceryList)
    requires forall i | 0 <= i < |ings| :: ings[i] in T(s, Ingredient)
    ensures ItemsAccepted(s, gl, RecipeItems(gl, T(s, Ingredient), ings, RowAt(T(s, Recipe), RecipeOf(KitchenOf(s), p))))
  {
    PlannedRecipe(s, p);
    TablesShaped(s, Ingredient);
    TablesShaped(s, Recipe);
    var recipe := RowAt(T(s, Recipe), RecipeOf(KitchenOf(s), p));
    forall i | 0 <= i < |ings| ensures Id !in RecipeItem(gl, RowAt(T(s, Ingredient), ings[i]), recipe)
                                    && Fills(GroceryListItem, RecipeItem(gl, RowAt(T(s, Ingredient), ings[i]), recipe)) {
      StoredItemFills(gl, RowAt(T(s, Ingredient), ings[i]), recipe);
    }
  }

  /** The items `sources` lists come in the order of the entries in `plans`: an item of a later
      entry never precedes an item of an earlier one. */
  ghost predicate InPlanOrder(plans: seq<int>, sources: seq<(int, int)>) {
    forall i, j, a, b | 0 <= i < j < |sources| && 0 <= a < b < |plans| :: !(sources[i].0 == plans[b] && sources[j].0 == plans[a])
  }

  lemma OrderStep(kt: Kitchen, plans: seq<int>, n: nat, sources: seq<(int, int)>, ings: seq<int>)
    requires n < |plans| && Covers(kt, plans, n, sources) && InPlanOrder(plans, sources)
    requires forall i, j | 0 <= i < j < |plans| :: plans[i] != plans[j]
    ensures InPlanOrder(plans, sources + PairsOf(plans[n], ings))
  {
    var all := sources + PairsOf(plans[n], ings);
    forall i, j, a, b | 0 <= i < j < |all| && 0 <= a < b < |plans| ensures !(all[i].0 == plans[b] && all[j].0 == plans[a]) {
      if j < |sources| {
        assert all[i] == sources[i] && all[j] == sources[j];
      } else {
        assert all[j] == PairsOf(plans[n], ings)[j - |sources|];
        if i < |sources| {
          var (x, g) := sources[i];
          assert all[i] == sources[i] == (x, g) && (x, g) in sources;
          assert x in plans[..n];
        } else {
          assert all[i] == PairsOf(plans[n], ings)[i - |sources|];
        }
      }
    }
  }

  // ---------------------------------------------------------------- routes

  /** One `sm.create(GroceryListItem, ...)` per row, in order. */
  method CreateItems(sm: StorageManager, gl: int, rows: seq<Row>) returns (r: Result<seq<int>>)
    requires sm.db.Valid() && ListRows(gl, rows)
    modifies sm.db
    ensures sm.db.Valid()
    ensures sm.db.committed == old(sm.db.committed) && sm.db.open == old(sm.db.open)
    ensures r.Ok? ==> |r.value| == |rows| && Grown(old(sm.db.store), sm.db.store, GroceryListItem, GroceryListId, gl, rows, r.value)
    ensures r.Err? ==> r.error.IntegrityError? && sm.db.store == old(sm.db.committed)
    ensures ItemsAccepted(old(sm.db.store), gl, rows) && Ahead(old(sm.db.store), old(sm.db.nextId))
            ==> r.Ok? && Ahead(sm.db.store, sm.db.nextId)
  {
    ItemsRunAccepted(sm.db.store, gl, rows);
    r := CreateEach(sm, GroceryListItem, GroceryListId, gl, rows);
  }

  /** The filters of `create_grocery_list`: the two date bounds. */
  function DateRange(startDate: int, endDate: int): (filters: Filters)
    ensures ListConds(Principal(0, ""), filters) == {AtLeast(Date, VInt(startDate)), AtMost(Date, VInt(endDate))}
  {
    var filters := map[StartDate := VInt(startDate), EndDate := VInt(endDate)];
    assert AttrFilters(filters) == map[];
    filters
  }

  /** Listing meal-plan entries by date range never names an unknown column. */
  lemma DateRangeKnown(user: Principal, startDate: int, endDate: int)
    ensures Known(MealPlanItem, ListConds(user, DateRange(startDate, endDate)))
  {
    assert AttrFilters(DateRange(startDate, endDate)) == map[];
  }

  /** The first step of `create_grocery_list`: the requester's meal-plan entries dated within
      [startDate, endDate], in date order. */
  method PlannedMeals(sm: StorageManager, startDate: int, endDate: int) returns (plans: seq<int>)
    ensures Enumerates(plans, Matching(sm.db.store, MealPlanItem, ListConds(sm.user, DateRange(startDate, endDate))))
    ensures forall i | 0 <= i < |plans| :: plans[i] in T(sm.db.store, MealPlanItem)
    ensures SortedBy(T(sm.db.store, MealPlanItem), plans, Date)
  {
    DateRangeKnown(sm.user, startDate, endDate);
    var listed, _ := sm.List(MealPlanItem, DateRange(startDate, endDate), Some(Date));
    plans := listed.value;
  }

  /** One recipe's worth of items keeps the loop's bookkeeping. */
  lemma RecipeDone(kt: Kitchen, s1: Store, before: Store, s: Store, gl: int, plans: seq<int>, n: nat,
                   sources: seq<(int, int)>, items: seq<int>, ings: seq<int>, made: seq<int>)
    requires n < |plans| && forall i, j | 0 <= i < j < |plans| :: plans[i] != plans[j]
    requires Covers(kt, plans, n, sources)
    requires Grown(s1, before, GroceryListItem, GroceryListId, gl, SourcedRows(kt, gl, sources), items) && |items| == |sources|
    requires Enumerates(ings, IngredientsOf(kt, RecipeOf(kt, plans[n])))
    requires var rows := RecipeItems(gl, kt.ingredients, ings, RowAt(kt.recipes, RecipeOf(kt, plans[n])));
      Grown(before, s, GroceryListItem, GroceryListId, gl, rows, made) && |made| == |rows|
    ensures Covers(kt, plans, n + 1, sources + PairsOf(plans[n], ings))
    ensures Grown(s1, s, GroceryListItem, GroceryListId, gl, SourcedRows(kt, gl, sources + PairsOf(plans[n], ings)), items + made)
  {
    CoversStep(kt, plans, n, sources, ings);
    SourcedRowsAppend(kt, gl, sources, plans[n], ings);
    GrownConcat(s1, before, s, GroceryListItem, GroceryListId, gl, SourcedRows(kt, gl, sources), items,
                RecipeItems(gl, kt.ingredients, ings, RowAt(kt.recipes, RecipeOf(kt, plans[n]))), made);
  }

  /** The items of one entry: one per ingredient of its recipe, in no particular order, as
      `recipe.ingredients` has no ORDER BY. */
  method CreateRecipeRun(sm: StorageManager, gl: int, p: int) returns (r: Result<seq<int>>, ghost ings: seq<int>)
    requires sm.db.Valid() && p in T(sm.db.store, MealPlanItem)
    modifies sm.db
    ensures sm.db.Valid()
    ensures sm.db.committed == old(sm.db.committed) && sm.db.open == old(sm.db.open)
    ensures var kt := KitchenOf(old(sm.db.store));
      Enumerates(ings, IngredientsOf(kt, RecipeOf(kt, p)))
    ensures var kt := KitchenOf(old(sm.db.store));
      var rows := RecipeItems(gl, kt.ingredients, ings, RowAt(kt.recipes, RecipeOf(kt, p)));
      r.Ok? ==> Grown(old(sm.db.store), sm.db.store, GroceryListItem, GroceryListId, gl, rows, r.value) && |r.value| == |rows|
    ensures r.Err? ==> r.error.IntegrityError? && sm.db.store == old(sm.db.committed)
    ensures gl in T(old(sm.db.store), GroceryList) && Ahead(old(sm.db.store), old(sm.db.nextId))
            ==> r.Ok? && Ahead(sm.db.store, sm.db.nextId)
  {
    PlannedRecipe(sm.db.store, p);
    var recipeId := RecipeOf(KitchenOf(sm.db.store), p);
    var recipe := RowAt(T(sm.db.store, Recipe), recipeId);
    var ingredients := T(sm.db.store, Ingredient);
    var fetched := Fetch(ingredients, RefKeys(ingredients, RecipeId, recipeId), None);
    ings := fetched;
    RecipeItemsFit(gl, ingredients, fetched, recipe);
    if gl in T(sm.db.store, GroceryList) {
      RecipeItemsAccepted(sm.db.store, gl, p, fetched);
    }
    r := CreateItems(sm, gl, RecipeItems(gl, ingredients, fetched, recipe));
  }

  /** The loop of `create_grocery_list` over the entries: for each, one item per ingredient of its
      recipe. */
  method CreateRecipeItems(sm: StorageManager, gl: int, plans: seq<int>)
    returns (r: Outcome, ghost sources: seq<(int, int)>, ghost items: seq<int>)
    requires sm.db.Valid()
    requires forall i | 0 <= i < |plans| :: plans[i] in T(sm.db.store, MealPlanItem)
    requires forall i, j | 0 <= i < j < |plans| :: plans[i] != plans[j]
    modifies sm.db
    ensures sm.db.Valid()
    ensures sm.db.committed == old(sm.db.committed) && sm.db.open == old(sm.db.open)
    ensures r.Done? ==> Covers(KitchenOf(old(sm.db.store)), plans, |plans|, sources) && |items| == |sources|
    ensures r.Done? ==> Grown(old(sm.db.store), sm.db.store, GroceryListItem, GroceryListId, gl,
                              SourcedRows(KitchenOf(old(sm.db.store)), gl, sources), items)
    ensures r.Failed? ==> r.error.IntegrityError? && sm.db.store == old(sm.db.committed)
    ensures r.Done? ==> InPlanOrder(plans, sources)
    ensures gl in T(old(sm.db.store), GroceryList) && Ahead(old(sm.db.store), old(sm.db.nextId))
            ==> r.Done? && Ahead(sm.db.store, sm.db.nextId)
  {
    ghost var s0 := sm.db.store;
    ghost var kt := KitchenOf(s0);
    sources := [];
    items := [];
    NothingYet(s0, gl, plans);
    var i := 0;
    while i < |plans|
      invariant 0 <= i <= |plans|
      invariant sm.db.Valid()
      invariant sm.db.committed == old(sm.db.committed) && sm.db.open == old(sm.db.open)
      invariant ItemsSoFar(s0, sm.db.store, gl, plans, i, sources, items)
      invariant gl in T(s0, GroceryList) && Ahead(s0, old(sm.db.nextId)) ==> Ahead(sm.db.store, sm.db.nextId)
    {
      var step;
      step, sources, items := CreateRecipeStep(sm, gl, plans, i, s0, sources, items);
      if step.Failed? {
        return step, sources, items;
      }
      i := i + 1;
    }
    return Done, sources, items;
  }

  /** Before the first entry nothing is covered and nothing is grown. */
  lemma NothingYet(s0: Store, gl: int, plans: seq<int>)
    ensures ItemsSoFar(s0, s0, gl, plans, 0, [], [])
  {
    assert plans[..0] == [];
    assert Elems([]) == {};
  }

  /** After the first `n` entries, `sources` lists their (entry, ingredient) pairs in entry order
      and `s` is `s0` grown by one item per pair, under the keys `items`. */
  ghost predicate ItemsSoFar(s0: Store, s: Store, gl: int, plans: seq<int>, n: nat, sources: seq<(int, int)>, items: seq<int>) {
    && n <= |plans|
    && Covers(KitchenOf(s0), plans, n, sources) && |items| == |sources| && InPlanOrder(plans, sources)
    && Grown(s0, s, GroceryListItem, GroceryListId, gl, SourcedRows(KitchenOf(s0), gl, sources), items)
  }

  /** One round of that loop: the items of entry `plans[n]`. */
  method CreateRecipeStep(sm: StorageManager, gl: int, plans: seq<int>, n: nat, ghost s0: Store,
                          ghost sources: seq<(int, int)>, ghost items: seq<int>)
    returns (r: Outcome, ghost sources': seq<(int, int)>, ghost items': seq<int>)
    requires sm.db.Valid() && n < |plans|
    requires forall i | 0 <= i < |plans| :: plans[i] in T(s0, MealPlanItem)
    requires forall i, j | 0 <= i < j < |plans| :: plans[i] != plans[j]
    requires ItemsSoFar(s0, sm.db.store, gl, plans, n, sources, items)
    modifies sm.db
    ensures sm.db.Valid()
    ensures sm.db.committed == old(sm.db.committed) && sm.db.open == old(sm.db.open)
    ensures r.Done? ==> ItemsSoFar(s0, sm.db.store, gl, plans, n + 1, sources', items')
    ensures r.Failed? ==> r.error.IntegrityError? && sm.db.store == old(sm.db.committed)
    ensures gl in T(s0, GroceryList) && Ahead(old(sm.db.store), old(sm.db.nextId)) ==> r.Done? && Ahead(sm.db.store, sm.db.nextId)
  {
    ghost var kt := KitchenOf(s0);
    ghost var before := sm.db.store;
    assert KitchenOf(before) == kt && T(before, GroceryList) == T(s0, GroceryList);
    var made, ings := CreateRecipeRun(sm, gl, plans[n]);
    if made.Err? {
      return Failed(made.error), sources, items;
    }
    OrderStep(kt, plans, n, sources, ings);
    RecipeDone(kt, s0, before, sm.db.store, gl, plans, n, sources, items, ings, made.value);
    r, sources', items' := Done, sources + PairsOf(plans[n], ings), items + made.value;
  }

  /** A list of an existing user goes in under a key the sequence is ahead of. */
  lemma ListInsertOk(s: Store, extra: string, user: Principal, next: int)
    requires Constraints(s)
    ensures user.id in T(s, User) && Ahead(s, next) ==>
      Insert(s, GroceryList, Stamp(GroceryList, map[ExtraItems := VStr(extra)], user), next).Ok?
  {
    if user.id in T(s, User) && Ahead(s, next) {
      ListChecks(s, extra, user);
      InsertOk(s, GroceryList, Stamp(GroceryList, map[ExtraItems := VStr(extra)], user), next);
    }
  }

  lemma ListChecks(s: Store, extra: string, user: Principal)
    requires user.id in T(s, User)
    ensures var row := Stamp(GroceryList, map[ExtraItems := VStr(extra)], user);
      && row.Keys <= Columns(GroceryList) && Id !in row && Fills(GroceryList, row)
      && RowRefsOk(s, GroceryList, row) && RowUnique(s, GroceryList, row)
  {
    var row := Stamp(GroceryList, map[ExtraItems := VStr(extra)], user);
    assert row == map[ExtraItems := VStr(extra), UserId := VInt(user.id)];
  }

  /** The list row of `create_grocery_list`: `GroceryList(extra_items=...)`, owned by the
      requester. No item belongs to it yet, and nothing but the lists changes. */
  method CreateList(sm: StorageManager, extra: string) returns (r: Result<int>)
    requires sm.db.Valid()
    modifies sm.db
    ensures sm.db.Valid()
    ensures sm.db.committed == old(sm.db.committed) && sm.db.open == old(sm.db.open)
    ensures r.Ok? ==> r.value !in T(old(sm.db.store), GroceryList) && r.value in T(sm.db.store, GroceryList)
    ensures r.Ok? ==> Extends(T(sm.db.store, GroceryList)[r.value], map[ExtraItems := VStr(extra), UserId := VInt(sm.user.id)])
    ensures r.Ok? ==> forall j | j in T(sm.db.store, GroceryListItem) :: !RefersTo(T(sm.db.store, GroceryListItem)[j], GroceryListId, {r.value})
    ensures r.Ok? ==> forall x: Model | x != GroceryList :: T(sm.db.store, x) == T(old(sm.db.store), x)
    ensures r.Err? ==> r.error.IntegrityError? && sm.db.store == old(sm.db.committed)
    ensures sm.user.id in T(old(sm.db.store), User) && Ahead(old(sm.db.store), old(sm.db.nextId))
            ==> r.Ok? && Ahead(sm.db.store, sm.db.nextId)
  {
    ghost var s0 := sm.db.store;
    ListInsertOk(s0, extra, sm.user, sm.db.nextId);
    r := sm.Create(GroceryList, map[ExtraItems := VStr(extra)]);
    if r.Ok? {
      assert map[ExtraItems := VStr(extra)][UserId := VInt(sm.user.id)] == map[ExtraItems := VStr(extra), UserId := VInt(sm.user.id)];
      NoItemsYet(s0, r.value);
      assert T(sm.db.store, GroceryListItem) == T(s0, GroceryListItem);
    }
  }

  /** Changing the lists, then the items, changes nothing else. */
  lemma ListsOnly(s0: Store, s1: Store, s: Store)
    requires forall x: Model | x != GroceryList :: T(s1, x) == T(s0, x)
    requires forall x: Model | x != GroceryListItem :: T(s, x) == T(s1, x)
    ensures forall x: Model | x != GroceryList && x != GroceryListItem :: T(s, x) == T(s0, x)
    ensures KitchenOf(s1) == KitchenOf(s0) && T(s1, GroceryListItem) == T(s0, GroceryListItem)
    ensures T(s, GroceryList) == T(s1, GroceryList)
  {
  }

  /** `create_grocery_list`: list the requester's meal-plan entries dated within
      [startDate, endDate] in date order, create the list (owned by the requester, its text
      `extra_items` or "" when absent), then one item per ingredient of each entry's recipe and
      one extra item per line of the text. The code does not refuse a second list for the same
      user. */
  method CreateGroceryList(sm: StorageManager, startDate: int, endDate: int, extraItems: Option<string>)
    returns (r: Result<int>, ghost plans: seq<int>, ghost sources: seq<(int, int)>, ghost items: seq<int>)
    requires sm.db.Valid()
    modifies sm.db
    ensures sm.db.Valid()
    ensures sm.db.committed == old(sm.db.committed) && sm.db.open == old(sm.db.open)
    ensures Enumerates(plans, Matching(old(sm.db.store), MealPlanItem, ListConds(sm.user, DateRange(startDate, endDate))))
    ensures r.Ok? ==> r.value !in T(old(sm.db.store), GroceryList) && r.value in T(sm.db.store, GroceryList)
    ensures r.Ok? ==> Extends(T(sm.db.store, GroceryList)[r.value], map[ExtraItems := VStr(extraItems.GetOr("")), UserId := VInt(sm.user.id)])
    ensures r.Ok? ==> Covers(KitchenOf(old(sm.db.store)), plans, |plans|, sources)
    ensures r.Ok? ==> Emitted(T(old(sm.db.store), GroceryListItem), T(sm.db.store, GroceryListItem), r.value,
                              SourcedRows(KitchenOf(old(sm.db.store)), r.value, sources) + ExtraItemRows(r.value, Split(extraItems.GetOr(""), '\n')), items)
    ensures r.Ok? ==> forall x: Model | x != GroceryList && x != GroceryListItem :: T(sm.db.store, x) == T(old(sm.db.store), x)
    ensures r.Err? ==> r.error.IntegrityError? && sm.db.store == old(sm.db.committed)
    ensures forall i | 0 <= i < |plans| :: plans[i] in T(old(sm.db.store), MealPlanItem)
    ensures SortedBy(T(old(sm.db.store), MealPlanItem), plans, Date)
    ensures r.Ok? ==> InPlanOrder(plans, sources)
    ensures sm.user.id in T(old(sm.db.store), User) && Ahead(old(sm.db.store), old(sm.db.nextId)) ==> r.Ok?
  {
    ghost var s0 := sm.db.store;
    var planned := PlannedMeals(sm, startDate, endDate);
    plans := planned;
    var extra := extraItems.GetOr("");
    var created := CreateList(sm, extra);
    if created.Err? {
      return Err(created.error), plans, [], [];
    }
    var gl := created.value;
    ghost var s1 := sm.db.store;
    ListsOnly(s0, s1, s1);
    var done;
    done, sources, items := CreateListItems(sm, gl, planned, Split(extra, '\n'));
    if done.Failed? {
      return Err(done.error), plans, sources, items;
    }
    ListsOnly(s0, s1, sm.db.store);
    r := Ok(gl);
  }

  /** The items of a new list `gl`: one per ingredient of each entry's recipe, in entry order, then
      one per line of the text. */
  method CreateListItems(sm: StorageManager, gl: int, plans: seq<int>, lines: seq<string>)
    returns (r: Outcome, ghost sources: seq<(int, int)>, ghost items: seq<int>)
    requires sm.db.Valid()
    requires forall i | 0 <= i < |plans| :: plans[i] in T(sm.db.store, MealPlanItem)
    requires forall i, j | 0 <= i < j < |plans| :: plans[i] != plans[j]
    requires forall j | j in T(sm.db.store, GroceryListItem) :: !RefersTo(T(sm.db.store, GroceryListItem)[j], GroceryListId, {gl})
    modifies sm.db
    ensures sm.db.Valid()
    ensures sm.db.committed == old(sm.db.committed) && sm.db.open == old(sm.db.open)
    ensures r.Done? ==> Covers(KitchenOf(old(sm.db.store)), plans, |plans|, sources) && InPlanOrder(plans, sources)
    ensures r.Done? ==> Emitted(T(old(sm.db.store), GroceryListItem), T(sm.db.store, GroceryListItem), gl,
                                SourcedRows(KitchenOf(old(sm.db.store)), gl, sources) + ExtraItemRows(gl, lines), items)
    ensures r.Done? ==> forall x: Model | x != GroceryListItem :: T(sm.db.store, x) == T(old(sm.db.store), x)
    ensures r.Failed? ==> r.error.IntegrityError? && sm.db.store == old(sm.db.committed)
    ensures gl in T(old(sm.db.store), GroceryList) && Ahead(old(sm.db.store), old(sm.db.nextId)) ==> r.Done?
  {
    ghost var s1 := sm.db.store;
    r, sources, items := CreateRecipeItems(sm, gl, plans);
    if r.Failed? {
      return;
    }
    ghost var s2 := sm.db.store;
    ExtraItemsFit(gl, lines);
    assert T(s2, GroceryList) == T(s1, GroceryList);
    ExtraItemsAccepted(s2, gl, lines);
    var made := CreateItems(sm, gl, ExtraItemRows(gl, lines));
    if made.Err? {
      return Failed(made.error), sources, items;
    }
    FinishCreate(KitchenOf(s1), s1, s2, sm.db.store, gl, sources, items, lines, made.value);
    items := items + made.value;
  }

  /** The two runs of inserts of `create_grocery_list` are exactly the items of the new list. */
  lemma FinishCreate(kt: Kitchen, s1: Store, s2: Store, s: Store, gl: int, sources: seq<(int, int)>,
                     items: seq<int>, lines: seq<string>, made: seq<int>)
    requires forall j | j in T(s1, GroceryListItem) :: !RefersTo(T(s1, GroceryListItem)[j], GroceryListId, {gl})
    requires Grown(s1, s2, GroceryListItem, GroceryListId, gl, SourcedRows(kt, gl, sources), items) && |items| == |sources|
    requires Grown(s2, s, GroceryListItem, GroceryListId, gl, ExtraItemRows(gl, lines), made) && |made| == |lines|
    ensures Emitted(T(s1, GroceryListItem), T(s, GroceryListItem), gl, SourcedRows(kt, gl, sources) + ExtraItemRows(gl, lines), items + made)
    ensures forall x: Model | x != GroceryListItem :: T(s, x) == T(s1, x)
  {
    GrownConcat(s1, s2, s, GroceryListItem, GroceryListId, gl, SourcedRows(kt, gl, sources), items, ExtraItemRows(gl, lines), made);
    SourcedRowsFit(kt, gl, sources);
    ExtraItemsFit(gl, lines);
    ListRowsAppend(gl, SourcedRows(kt, gl, sources), ExtraItemRows(gl, lines));
    GrownEmits(s1, s, gl, SourcedRows(kt, gl, sources) + ExtraItemRows(gl, lines), items + made);
  }

  // ---------------------------------------------------------------- update

  /** The filters of `update_grocery_list`'s query: the extra items of list `id`. */
  function ExtraFilters(id: int): Filters {
    map[Attr(GroceryListId) := VInt(id), Attr(ExtraItems) := VBool(true)]
  }

  /** The extra items of list `id` in item table `t`. */
  function ExtraKeys(t: Table, id: int): (ks: set<int>)
    ensures forall k :: k in ks <==> k in t && RefersTo(t[k], GroceryListId, {id}) && Val(t[k], ExtraItems) == VBool(true)
  {
    set k | k in t && RefersTo(t[k], GroceryListId, {id}) && Val(t[k], ExtraItems) == VBool(true)
  }

  /** An item is visible exactly when its list is: the item's `user_id` is its list's. */
  lemma ItemVisible(s: Store, user: Principal, row: Row, id: int)
    requires id in T(s, GroceryList) && RefersTo(row, GroceryListId, {id})
    ensures Visible(s, user, GroceryListItem, row) <==> RowVisible(s, user, GroceryList, id)
  {
  }

  /** The query of `update_grocery_list` names only columns of the items. */
  lemma ExtraFiltersKnown(user: Principal, id: int)
    ensures Known(GroceryListItem, ListConds(user, ExtraFilters(id)))
  {
    assert AttrFilters(ExtraFilters(id)) == map[GroceryListId := VInt(id), ExtraItems := VBool(true)];
  }

  /** One item is listed by that query exactly when it is an extra item of list `id` and the
      requester may see the list. */
  lemma ExtraItemListed(s: Store, user: Principal, id: int, k: int)
    requires TableOk(s, GroceryListItem)
    ensures k in Matching(s, GroceryListItem, ListConds(user, ExtraFilters(id))) <==>
      RowVisible(s, user, GroceryList, id) && k in ExtraKeys(T(s, GroceryListItem), id)
  {
    ListMatches(s, user, GroceryListItem, ExtraFilters(id), k);
    if k in T(s, GroceryListItem) {
      ExtraRowListed(s, user, id, T(s, GroceryListItem)[k]);
    }
  }

  /** An item row meets the query's filters exactly when it is an extra item of list `id` and
      the requester may see the list. */
  lemma ExtraRowListed(s: Store, user: Principal, id: int, row: Row)
    requires RefersTo(row, GroceryListId, {id}) ==> id in T(s, GroceryList)
    ensures Listed(s, user, GroceryListItem, row, ExtraFilters(id)) <==>
      RowVisible(s, user, GroceryList, id) && RefersTo(row, GroceryListId, {id}) && Val(row, ExtraItems) == VBool(true)
  {
    var f := ExtraFilters(id);
    assert StartDate !in f && EndDate !in f;
    assert forall g | Attr(g) in f :: g == GroceryListId || g == ExtraItems;
    assert Attr(GroceryListId) in f && Attr(ExtraItems) in f;
    if RefersTo(row, GroceryListId, {id}) {
      ItemVisible(s, user, row, id);
    }
  }

  /** The query finds exactly the list's extra items when the requester may see the list, and
      nothing otherwise. */
  lemma ExtrasOfList(s: Store, user: Principal, id: int)
    requires Constraints(s)
    ensures Known(GroceryListItem, ListConds(user, ExtraFilters(id)))
    ensures Matching(s, GroceryListItem, ListConds(user, ExtraFilters(id))) ==
      if RowVisible(s, user, GroceryList, id) then ExtraKeys(T(s, GroceryListItem), id) else {}
  {
    ExtraFiltersKnown(user, id);
    assert TableOk(s, GroceryListItem);
    forall k ensures k in Matching(s, GroceryListItem, ListConds(user, ExtraFilters(id))) <==>
      RowVisible(s, user, GroceryList, id) && k in ExtraKeys(T(s, GroceryListItem), id) {
      ExtraItemListed(s, user, id, k);
    }
  }

  /** A sequence that enumerates a set holds exactly its elements. */
  lemma EnumeratedElems(ks: seq<int>, ids: set<int>)
    requires Enumerates(ks, ids)
    ensures Elems(ks) == ids
  {
    forall k | k in Elems(ks) ensures k in ids {
      var i :| 0 <= i < |ks| && ks[i] == k;
    }
    forall k | k in ids ensures k in Elems(ks) {
      var i :| 0 <= i < |ks| && ks[i] == k;
    }
  }

  /** The first step of `update_grocery_list`: the list's old extra items, in no particular
      order. */
  method OldExtraItems(sm: StorageManager, id: int) returns (olds: seq<int>)
    requires sm.db.Valid()
    ensures Enumerates(olds, if RowVisible(sm.db.store, sm.user, GroceryList, id) then ExtraKeys(T(sm.db.store, GroceryListItem), id) else {})
    ensures RowVisible(sm.db.store, sm.user, GroceryList, id) ==> Elems(olds) == ExtraKeys(T(sm.db.store, GroceryListItem), id)
    ensures forall i | 0 <= i < |olds| ::
      olds[i] in T(sm.db.store, GroceryListItem) && Visible(sm.db.store, sm.user, GroceryListItem, T(sm.db.store, GroceryListItem)[olds[i]])
  {
    ExtrasOfList(sm.db.store, sm.user, id);
    var listed, _ := sm.List(GroceryListItem, ExtraFilters(id), None);
    olds := listed.value;
    EnumeratedElems(olds, Matching(sm.db.store, GroceryListItem, ListConds(sm.user, ExtraFilters(id))));
    forall i | 0 <= i < |olds|
      ensures olds[i] in T(sm.db.store, GroceryListItem) && Visible(sm.db.store, sm.user, GroceryListItem, T(sm.db.store, GroceryListItem)[olds[i]])
    {
      ListMatches(sm.db.store, sm.user, GroceryListItem, ExtraFilters(id), olds[i]);
    }
  }

  /** Deleting item `k` removes that row only. */
  lemma ItemDeleted(s0: Store, s: Store, olds: seq<int>, i: int)
    requires 0 <= i < |olds|
    requires T(s, GroceryListItem) == Without(T(s0, GroceryListItem), Elems(olds[..i]))
    requires forall x: Model | x != GroceryListItem :: T(s, x) == T(s0, x)
    ensures T(DeleteRow(s, GroceryListItem, olds[i]), GroceryListItem) == Without(T(s0, GroceryListItem), Elems(olds[..i + 1]))
    ensures forall x: Model | x != GroceryListItem :: T(DeleteRow(s, GroceryListItem, olds[i]), x) == T(s0, x)
  {
    assert olds[..i + 1] == olds[..i] + [olds[i]];
    ElemsSnoc(olds[..i], olds[i]);
  }

  /** `sm.delete(GroceryListItem, {"id": k})` for one visible item: it finds that item and
      removes it. */
  method DeleteItem(sm: StorageManager, k: int)
    requires sm.db.Valid()
    requires k in T(sm.db.store, GroceryListItem) && Visible(sm.db.store, sm.user, GroceryListItem, T(sm.db.store, GroceryListItem)[k])
    modifies sm.db
    ensures sm.db.Valid()
    ensures sm.db.committed == old(sm.db.committed) && sm.db.open == old(sm.db.open)
    ensures sm.db.store == DeleteRow(old(sm.db.store), GroceryListItem, k)
    ensures sm.db.nextId == old(sm.db.nextId)
  {
    assert TableOk(sm.db.store, GroceryListItem);
    IdScope(sm.db.store, sm.user, GroceryListItem, k);
    var d := sm.Delete(GroceryListItem, ById(k));
    assert d.Ok?;
  }

  /** The loop of `update_grocery_list` over the old extra items: `sm.delete` on each. */
  method DeleteItems(sm: StorageManager, olds: seq<int>)
    requires sm.db.Valid()
    requires forall i, j | 0 <= i < j < |olds| :: olds[i] != olds[j]
    requires forall i | 0 <= i < |olds| ::
      olds[i] in T(sm.db.store, GroceryListItem) && Visible(sm.db.store, sm.user, GroceryListItem, T(sm.db.store, GroceryListItem)[olds[i]])
    modifies sm.db
    ensures sm.db.Valid()
    ensures sm.db.committed == old(sm.db.committed) && sm.db.open == old(sm.db.open)
    ensures T(sm.db.store, GroceryListItem) == Without(T(old(sm.db.store), GroceryListItem), Elems(olds))
    ensures forall x: Model | x != GroceryListItem :: T(sm.db.store, x) == T(old(sm.db.store), x)
    ensures sm.db.nextId == old(sm.db.nextId)
  {
    ghost var s0 := sm.db.store;
    var i := 0;
    while i < |olds|
      invariant 0 <= i <= |olds|
      invariant sm.db.Valid()
      invariant sm.db.committed == old(sm.db.committed) && sm.db.open == old(sm.db.open)
      invariant sm.db.nextId == old(sm.db.nextId)
      invariant T(sm.db.store, GroceryListItem) == Without(T(s0, GroceryListItem), Elems(olds[..i]))
      invariant forall x: Model | x != GroceryListItem :: T(sm.db.store, x) == T(s0, x)
    {
      StillThere(s0, sm.db.store, sm.user, olds, i);
      ghost var before := sm.db.store;
      DeleteItem(sm, olds[i]);
      ItemDeleted(s0, before, olds, i);
      i := i + 1;
    }
    assert olds[..|olds|] == olds;
  }

  /** The next item to delete is still there, and still visible. */
  lemma StillThere(s0: Store, s: Store, user: Principal, olds: seq<int>, i: int)
    requires 0 <= i < |olds| && forall a, b | 0 <= a < b < |olds| :: olds[a] != olds[b]
    requires forall a | 0 <= a < |olds| ::
      olds[a] in T(s0, GroceryListItem) && Visible(s0, user, GroceryListItem, T(s0, GroceryListItem)[olds[a]])
    requires T(s, GroceryListItem) == Without(T(s0, GroceryListItem), Elems(olds[..i]))
    requires T(s, GroceryList) == T(s0, GroceryList)
    ensures olds[i] in T(s, GroceryListItem) && Visible(s, user, GroceryListItem, T(s, GroceryListItem)[olds[i]])
  {
    assert olds[i] !in Elems(olds[..i]);
  }

  /** `sm.update(GroceryList, {"id": id}, {"extra_items": text})`: 400 "GroceryList doesn't
      exist" exactly when the requester may not see list `id`; otherwise its text is replaced and
      nothing else changes. */
  method SetExtraText(sm: StorageManager, id: int, text: string) returns (r: Result<int>)
    requires sm.db.Valid()
    modifies sm.db
    ensures sm.db.Valid()
    ensures sm.db.committed == old(sm.db.committed) && sm.db.open == old(sm.db.open)
    ensures r == Err(Missing(GroceryList)) <==> !RowVisible(old(sm.db.store), sm.user, GroceryList, id)
    ensures r == Err(Missing(GroceryList)) ==> sm.db.store == old(sm.db.store)
    ensures r.Ok? ==> r.value == id
    ensures r.Ok? ==> T(sm.db.store, GroceryList) == T(old(sm.db.store), GroceryList)[id := T(old(sm.db.store), GroceryList)[id][ExtraItems := VStr(text)]]
    ensures r.Ok? ==> forall x: Model | x != GroceryList :: T(sm.db.store, x) == T(old(sm.db.store), x)
    ensures r.Ok? <==> RowVisible(old(sm.db.store), sm.user, GroceryList, id)
    ensures r.Err? ==> r == Err(Missing(GroceryList))
    ensures r.Ok? ==> sm.db.nextId == old(sm.db.nextId)
  {
    ghost var s0 := sm.db.store;
    assert TableOk(s0, GroceryList);
    IdScope(s0, sm.user, GroceryList, id);
    var data := map[ExtraItems := Scalar(VStr(text))];
    TextAssignment(text);
    TextKeepsConstraints(s0, id, text);
    r := sm.Update(GroceryList, ById(id), data);
    UpdatedScalars(s0, sm.db.store, GroceryList, id);
  }

  /** A list with a new text still meets every constraint: `extra_items` is a column, the new
      value is not NULL, and no key or reference changes. */
  lemma TextKeepsConstraints(s: Store, id: int, text: string)
    requires Constraints(s)
    ensures id in T(s, GroceryList) ==>
      && T(s, GroceryList)[id] + map[ExtraItems := VStr(text)] == T(s, GroceryList)[id][ExtraItems := VStr(text)]
      && Constraints(With(s, GroceryList, T(s, GroceryList)[id := T(s, GroceryList)[id] + map[ExtraItems := VStr(text)]]))
  {
    if id in T(s, GroceryList) {
      SetOne(T(s, GroceryList)[id], ExtraItems, VStr(text));
      TextTableOk(s, id, text);
      OneTableEdited(s, GroceryList, T(s, GroceryList)[id := T(s, GroceryList)[id][ExtraItems := VStr(text)]]);
    }
  }

  /** The list table with one new text is shaped and its owners exist. */
  lemma TextTableOk(s: Store, id: int, text: string)
    requires TableOk(s, GroceryList) && id in T(s, GroceryList)
    ensures TableOk(With(s, GroceryList, T(s, GroceryList)[id := T(s, GroceryList)[id][ExtraItems := VStr(text)]]), GroceryList)
  {
    var row := T(s, GroceryList)[id];
    var t := T(s, GroceryList)[id := row[ExtraItems := VStr(text)]];
    var r := With(s, GroceryList, t);
    assert T(r, User) == T(s, User);
    RowPutShaped(T(s, GroceryList), GroceryList, id, row[ExtraItems := VStr(text)]);
    forall k | k in t ensures UserId in t[k] && Resolves(r, t[k][UserId], User) {
      assert UserId in T(s, GroceryList)[k] && Resolves(s, T(s, GroceryList)[k][UserId], User);
    }
  }

  /** `{"extra_items": text}` sets one column and replaces no list. */
  lemma TextAssignment(text: string)
    ensures Fits(GroceryList, map[ExtraItems := Scalar(VStr(text))])
    ensures Scalars(map[ExtraItems := Scalar(VStr(text))]) == map[ExtraItems := VStr(text)]
    ensures Lists(map[ExtraItems := Scalar(VStr(text))]) == map[]
  {
    var data := map[ExtraItems := Scalar(VStr(text))];
    assert Scalars(data).Keys == {ExtraItems};
    assert Lists(data).Keys == {};
  }

  lemma SetOne(row: Row, f: Field, v: Value)
    ensures row + map[f := v] == row[f := v]
  {
  }

  /** Item table `t` is `t0` without the rows `gone`, plus one new row per entry of `rows`
      holding its values. */
  ghost predicate Replaced(t0: Table, t: Table, gone: set<int>, rows: seq<Row>, added: seq<int>) {
    && |added| == |rows|
    && (forall i | 0 <= i < |added| :: added[i] !in t0 || added[i] in gone)
    && (forall i, j | 0 <= i < j < |added| :: added[i] != added[j])
    && t.Keys == (t0.Keys - gone) + Elems(added)
    && (forall j | j in t0 && j !in gone :: t[j] == t0[j])
    && (forall i | 0 <= i < |added| :: Extends(t[added[i]], rows[i]))
  }

  lemma DeletedThenGrown(s0: Store, s1: Store, s2: Store, s: Store, id: int, gone: set<int>, rows: seq<Row>, added: seq<int>)
    requires T(s1, GroceryListItem) == Without(T(s0, GroceryListItem), gone)
    requires T(s2, GroceryListItem) == T(s1, GroceryListItem)
    requires Grown(s2, s, GroceryListItem, GroceryListId, id, rows, added) && |added| == |rows|
    requires ListRows(id, rows)
    ensures Replaced(T(s0, GroceryListItem), T(s, GroceryListItem), gone, rows, added)
  {
    assert T(s1, GroceryListItem).Keys == T(s0, GroceryListItem).Keys - gone;
    forall i | 0 <= i < |added| ensures Extends(T(s, GroceryListItem)[added[i]], rows[i]) {
      assert rows[i][GroceryListId := VInt(id)] == rows[i];
    }
  }

  /** After `update_grocery_list`, the extra items of the list are exactly the new ones, and its
      other items, like every item of other lists, are untouched. */
  lemma {:induction false} ExtrasReplaced(t0: Table, t: Table, id: int, lines: seq<string>, added: seq<int>)
    requires Replaced(t0, t, ExtraKeys(t0, id), ExtraItemRows(id, lines), added)
    ensures ExtraKeys(t, id) == Elems(added)
    ensures forall j | j in t0 && j !in ExtraKeys(t0, id) :: j in t && t[j] == t0[j]
  {
    var rows := ExtraItemRows(id, lines);
    forall k ensures k in ExtraKeys(t, id) <==> k in Elems(added) {
      if k in Elems(added) {
        var i :| 0 <= i < |added| && added[i] == k;
        assert Extends(t[k], rows[i]) && rows[i] == ExtraItem(id, lines[i]);
        assert t[k][GroceryListId] == VInt(id) && t[k][ExtraItems] == VBool(true);
      }
    }
  }

  /** Whether a list is visible depends on the lists alone. */
  lemma SameLists(s0: Store, s: Store, user: Principal, id: int)
    requires T(s, GroceryList) == T(s0, GroceryList)
    ensures RowVisible(s, user, GroceryList, id) == RowVisible(s0, user, GroceryList, id)
  {
  }

  /** `update_grocery_list`: delete the list's old extra items, set its text, then add one extra
      item per line of the new text. */
  method UpdateGroceryList(sm: StorageManager, id: int, text: string)
    returns (r: Result<int>, ghost olds: seq<int>, ghost added: seq<int>)
    requires sm.db.Valid()
    modifies sm.db
    ensures sm.db.Valid()
    ensures sm.db.committed == old(sm.db.committed) && sm.db.open == old(sm.db.open)
    ensures Enumerates(olds, if RowVisible(old(sm.db.store), sm.user, GroceryList, id) then ExtraKeys(T(old(sm.db.store), GroceryListItem), id) else {})
    ensures r == Err(Missing(GroceryList)) <==> !RowVisible(old(sm.db.store), sm.user, GroceryList, id)
    ensures r == Err(Missing(GroceryList)) ==> forall x: Model :: T(sm.db.store, x) == T(old(sm.db.store), x)
    ensures r.Ok? ==> r.value == id
    ensures r.Ok? ==> T(sm.db.store, GroceryList) == T(old(sm.db.store), GroceryList)[id := T(old(sm.db.store), GroceryList)[id][ExtraItems := VStr(text)]]
    ensures r.Ok? ==> Replaced(T(old(sm.db.store), GroceryListItem), T(sm.db.store, GroceryListItem),
                               ExtraKeys(T(old(sm.db.store), GroceryListItem), id), ExtraItemRows(id, Split(text, '\n')), added)
    ensures r.Ok? ==> forall x: Model | x != GroceryList && x != GroceryListItem :: T(sm.db.store, x) == T(old(sm.db.store), x)
    ensures r.Err? && r != Err(Missing(GroceryList)) ==> r.error.IntegrityError? && sm.db.store == old(sm.db.committed)
    ensures RowVisible(old(sm.db.store), sm.user, GroceryList, id) && Ahead(old(sm.db.store), old(sm.db.nextId)) ==> r.Ok?
  {
    ghost var s0 := sm.db.store;
    var found := OldExtraItems(sm, id);
    olds := found;
    DeleteItems(sm, found);
    SameLists(s0, sm.db.store, sm.user, id);
    DeletionsStayAhead(s0, sm.db.store, Elems(found), sm.db.nextId);
    r, added := ReplaceExtras(sm, id, text, s0, Elems(found));
  }

  /** Deleting items keeps the key sequence ahead of every table. */
  lemma DeletionsStayAhead(s0: Store, s: Store, gone: set<int>, next: int)
    requires T(s, GroceryListItem) == Without(T(s0, GroceryListItem), gone)
    requires forall x: Model | x != GroceryListItem :: T(s, x) == T(s0, x)
    ensures Ahead(s0, next) ==> Ahead(s, next)
  {
  }

  /** The rest of `update_grocery_list` once the old extra items `gone` are deleted from the
      store `s0`: the text is set and the new extra items are added. */
  method ReplaceExtras(sm: StorageManager, id: int, text: string, ghost s0: Store, ghost gone: set<int>)
    returns (r: Result<int>, ghost added: seq<int>)
    requires sm.db.Valid()
    requires T(sm.db.store, GroceryListItem) == Without(T(s0, GroceryListItem), gone)
    modifies sm.db
    ensures sm.db.Valid()
    ensures sm.db.committed == old(sm.db.committed) && sm.db.open == old(sm.db.open)
    ensures r == Err(Missing(GroceryList)) <==> !RowVisible(old(sm.db.store), sm.user, GroceryList, id)
    ensures r == Err(Missing(GroceryList)) ==> sm.db.store == old(sm.db.store)
    ensures r.Ok? ==> r.value == id
    ensures r.Ok? ==> T(sm.db.store, GroceryList) == T(old(sm.db.store), GroceryList)[id := T(old(sm.db.store), GroceryList)[id][ExtraItems := VStr(text)]]
    ensures r.Ok? ==> Replaced(T(s0, GroceryListItem), T(sm.db.store, GroceryListItem), gone, ExtraItemRows(id, Split(text, '\n')), added)
    ensures r.Ok? ==> forall x: Model | x != GroceryList && x != GroceryListItem :: T(sm.db.store, x) == T(old(sm.db.store), x)
    ensures r.Err? && r != Err(Missing(GroceryList)) ==> r.error.IntegrityError? && sm.db.store == old(sm.db.committed)
    ensures RowVisible(old(sm.db.store), sm.user, GroceryList, id) && Ahead(old(sm.db.store), old(sm.db.nextId)) ==> r.Ok?
  {
    ghost var s1 := sm.db.store;
    added := [];
    var u := SetExtraText(sm, id, text);
    if u.Err? {
      return Err(u.error), added;
    }
    ghost var s2 := sm.db.store;
    TextStaysAhead(s1, s2, id, sm.db.nextId);
    var lines := Split(text, '\n');
    ExtraItemsFit(id, lines);
    ExtraItemsAccepted(s2, id, lines);
    var made := CreateItems(sm, id, ExtraItemRows(id, lines));
    if made.Err? {
      return Err(made.error), added;
    }
    added := made.value;
    DeletedThenGrown(s0, s1, s2, sm.db.store, id, gone, ExtraItemRows(id, lines), added);
    r := Ok(id);
  }

  /** Setting a list's text keeps the key sequence ahead of every table. */
  lemma TextStaysAhead(s1: Store, s2: Store, id: int, next: int)
    requires id in T(s1, GroceryList)
    requires T(s2, GroceryList).Keys == T(s1, GroceryList).Keys
    requires forall x: Model | x != GroceryList :: T(s2, x) == T(s1, x)
    ensures Ahead(s1, next) ==> Ahead(s2, next)
  {
  }

  // ---------------------------------------------------------------- get and delete

  /** `get_grocery_list`: the list with that id when the requester may see it, 400
      "GroceryList doesn't exist" otherwise. */
  method GetGroceryList(sm: StorageManager, id: int) returns (r: Result<int>)
    requires sm.db.Valid()
    ensures r.Ok? <==> RowVisible(sm.db.store, sm.user, GroceryList, id)
    ensures r.Ok? ==> r.value == id
    ensures r.Err? ==> r.error == Missing(GroceryList)
  {
    assert TableOk(sm.db.store, GroceryList);
    IdScope(sm.db.store, sm.user, GroceryList, id);
    r := sm.Get(GroceryList, ById(id));
  }

  /** `delete_grocery_list`: the list goes, and with it (ON DELETE CASCADE) every item of it;
      400 "GroceryList doesn't exist" when the requester may not see it. */
  method DeleteGroceryList(sm: StorageManager, id: int) returns (r: Result<int>)
    requires sm.db.Valid()
    modifies sm.db
    ensures sm.db.Valid()
    ensures sm.db.committed == old(sm.db.committed) && sm.db.open == old(sm.db.open)
    ensures r.Ok? <==> RowVisible(old(sm.db.store), sm.user, GroceryList, id)
    ensures r.Err? ==> r.error == Missing(GroceryList) && sm.db.store == old(sm.db.store)
    ensures r.Ok? ==> r.value == id && sm.db.store == DeleteRow(old(sm.db.store), GroceryList, id)
    ensures r.Ok? ==> forall j :: j in T(sm.db.store, GroceryListItem) <==>
      j in T(old(sm.db.store), GroceryListItem) && !RefersTo(T(old(sm.db.store), GroceryListItem)[j], GroceryListId, {id})
  {
    assert TableOk(sm.db.store, GroceryList);
    IdScope(sm.db.store, sm.user, GroceryList, id);
    DeleteGroceryListScope(sm.db.store, id);
    r := sm.Delete(GroceryList, ById(id));
  }
}
