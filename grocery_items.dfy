/** The grocery-list item rows of src/server/routes/grocery_lists.py: the item made from one
    ingredient of a planned recipe, the item made from one line of the extra-items text, and
    what makes the database accept them. */
module GroceryItems {
  import opened Common
  import opened Models
  import opened RowChecks

  /** The value of column `f` of a stored row (NULL when the row lacks it). */
  function Val(row: Row, f: Field): Value {
    if f in row then row[f] else VNull
  }

  /** Row `k` of `t` (no columns when there is none). */
  function RowAt(t: Table, k: int): Row {
    if k in t then t[k] else map[]
  }

  /** The item made from one ingredient of a planned recipe: the ingredient's quantity, unit,
      name and comment, the recipe's name and servings, active and not an extra item.
      The source also reads the recipe's `thumbnail_url`, which Recipe does not have; this is
      the item as intended, without it (`AsWritten.RecipeItemAsWritten` is the code as written).
      The ingredient's quantity is copied as it is, although the item's column is an Integer. */
  function RecipeItem(gl: int, ingredient: Row, recipe: Row): (item: Row)
    ensures item.Keys == {GroceryListId, Active, Quantity, Unit, Name, Comment, RecipeName, Servings, ExtraItems}
    ensures item.Keys <= Columns(GroceryListItem)
    ensures item[GroceryListId] == VInt(gl) && item[Active] == VBool(true) && item[ExtraItems] == VBool(false)
    ensures item[Quantity] == Val(ingredient, Quantity) && item[Unit] == Val(ingredient, Unit)
    ensures item[Name] == Val(ingredient, Name) && item[Comment] == Val(ingredient, Comment)
    ensures item[RecipeName] == Val(recipe, Name) && item[Servings] == Val(recipe, Servings)
  {
    map[GroceryListId := VInt(gl), Active := VBool(true), Quantity := Val(ingredient, Quantity),
        Unit := Val(ingredient, Unit), Name := Val(ingredient, Name), Comment := Val(ingredient, Comment),
        RecipeName := Val(recipe, Name), Servings := Val(recipe, Servings), ExtraItems := VBool(false)]
  }

  /** The item made from one line of the extra-items text: quantity 0, servings 1, recipe name
      "Extra Items", active and an extra item. */
  function ExtraItem(gl: int, line: string): (item: Row)
    ensures item.Keys == {GroceryListId, Active, Quantity, Name, RecipeName, ExtraItems, Servings}
    ensures item.Keys <= Columns(GroceryListItem)
    ensures item[GroceryListId] == VInt(gl) && item[Active] == VBool(true) && item[ExtraItems] == VBool(true)
    ensures item[Name] == VStr(line) && item[Quantity] == VInt(0) && item[Servings] == VInt(1)
    ensures item[RecipeName] == VStr("Extra Items")
  {
    map[GroceryListId := VInt(gl), Active := VBool(true), Quantity := VInt(0), Name := VStr(line),
        RecipeName := VStr("Extra Items"), ExtraItems := VBool(true), Servings := VInt(1)]
  }

  /** The items of one recipe, one per ingredient key of `ings`, in that order. */
  function RecipeItems(gl: int, ingredients: Table, ings: seq<int>, recipe: Row): (items: seq<Row>)
    ensures |items| == |ings|
    ensures forall i | 0 <= i < |ings| :: items[i] == RecipeItem(gl, RowAt(ingredients, ings[i]), recipe)
  {
    seq(|ings|, i requires 0 <= i < |ings| => RecipeItem(gl, RowAt(ingredients, ings[i]), recipe))
  }

  /** The extra items, one per line, in order. */
  function ExtraItemRows(gl: int, lines: seq<string>): (items: seq<Row>)
    ensures |items| == |lines|
    ensures forall i | 0 <= i < |lines| :: items[i] == ExtraItem(gl, lines[i])
  {
    seq(|lines|, i requires 0 <= i < |lines| => ExtraItem(gl, lines[i]))
  }

  /** Item rows of list `gl` that the constructor accepts. */
  predicate ListRows(gl: int, rows: seq<Row>) {
    forall i | 0 <= i < |rows| :: rows[i].Keys <= Columns(GroceryListItem) && GroceryListId in rows[i] && rows[i][GroceryListId] == VInt(gl)
  }

  lemma RecipeItemsFit(gl: int, ingredients: Table, ings: seq<int>, recipe: Row)
    ensures ListRows(gl, RecipeItems(gl, ingredients, ings, recipe))
  {
  }

  lemma ExtraItemsFit(gl: int, lines: seq<string>)
    ensures ListRows(gl, ExtraItemRows(gl, lines))
  {
  }

  /** Item rows the database accepts for list `gl`: the list exists, and each row gives no key
      and fills every NOT NULL column. */
  ghost predicate ItemsAccepted(s: Store, gl: int, rows: seq<Row>) {
    gl in T(s, GroceryList) && forall i | 0 <= i < |rows| :: Id !in rows[i] && Fills(GroceryListItem, rows[i])
  }

  /** An item row that gives the list, the quantity, the name, the recipe name, the servings and
      the extra flag, none of them NULL, fills every NOT NULL column (`active` has a default). */
  lemma ItemFills(item: Row)
    requires GroceryListId in item && item[GroceryListId] != VNull
    requires Quantity in item && item[Quantity] != VNull && Name in item && item[Name] != VNull
    requires RecipeName in item && item[RecipeName] != VNull && Servings in item && item[Servings] != VNull
    requires ExtraItems in item && item[ExtraItems] != VNull
    requires Active in item ==> item[Active] != VNull
    ensures Fills(GroceryListItem, item)
  {
    forall f | f in Columns(GroceryListItem) && f != Id && !Nullable(GroceryListItem, f)
      ensures if f in item then item[f] != VNull else Default(GroceryListItem, f).Some?
    {
      assert f in {GroceryListId, Active, Quantity, Name, RecipeName, Servings, ExtraItems};
    }
  }

  /** A stored row holds a value that is not NULL in every column that is not nullable. */
  lemma StoredValue(m: Model, row: Row, f: Field)
    requires Shaped(m, row) && f in Columns(m) && !Nullable(m, f)
    ensures Val(row, f) != VNull
  {
  }

  /** An item copied from an ingredient and a recipe that hold a quantity and names and servings
      that are not NULL fills every NOT NULL column. */
  lemma RecipeItemFills(gl: int, ingredient: Row, recipe: Row)
    requires Val(ingredient, Quantity) != VNull && Val(ingredient, Name) != VNull
    requires Val(recipe, Name) != VNull && Val(recipe, Servings) != VNull
    ensures Id !in RecipeItem(gl, ingredient, recipe) && Fills(GroceryListItem, RecipeItem(gl, ingredient, recipe))
  {
    var item := RecipeItem(gl, ingredient, recipe);
    assert GroceryListId in item.Keys && Quantity in item.Keys && Name in item.Keys && Id !in item.Keys;
    assert RecipeName in item.Keys && Servings in item.Keys && ExtraItems in item.Keys && Active in item.Keys;
    ItemFills(item);
  }

  /** So does every item copied from a stored ingredient of a stored recipe. */
  lemma StoredItemFills(gl: int, ingredient: Row, recipe: Row)
    requires Shaped(Ingredient, ingredient) && Shaped(Recipe, recipe)
    ensures Id !in RecipeItem(gl, ingredient, recipe) && Fills(GroceryListItem, RecipeItem(gl, ingredient, recipe))
  {
    StoredValue(Ingredient, ingredient, Quantity);
    StoredValue(Ingredient, ingredient, Name);
    StoredValue(Recipe, recipe, Name);
    StoredValue(Recipe, recipe, Servings);
    RecipeItemFills(gl, ingredient, recipe);
  }

  lemma ExtraItemFills(gl: int, line: string)
    ensures Id !in ExtraItem(gl, line) && Fills(GroceryListItem, ExtraItem(gl, line))
  {
    ItemFills(ExtraItem(gl, line));
  }

  /** The extra items are accepted for an existing list. */
  lemma ExtraItemsAccepted(s: Store, gl: int, lines: seq<string>)
    ensures gl in T(s, GroceryList) ==> ItemsAccepted(s, gl, ExtraItemRows(gl, lines))
  {
    forall i | 0 <= i < |lines| ensures Id !in ExtraItem(gl, lines[i]) && Fills(GroceryListItem, ExtraItem(gl, lines[i])) {
      ExtraItemFills(gl, lines[i]);
    }
  }
}
