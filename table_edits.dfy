/** What editing one table of the store in place keeps: a table left alone stays consistent as
    long as no table it refers to lost rows, a shaped row put under its own id keeps its table
    shaped, and a table without unique keys cannot break uniqueness. */
module TableEdits {
  import opened Common
  import opened Models
  import opened ModelFacts

  /** References into a table that lost no key still resolve. */
  lemma ResolvesSameKeys(s: Store, r: Store, m: Model, f: Field, parent: Model)
    requires AllResolve(s, m, f, parent)
    requires T(r, m) == T(s, m) && T(s, parent).Keys <= T(r, parent).Keys
    ensures AllResolve(r, m, f, parent)
  {
  }

  /** A table that was left alone stays shaped and its references still resolve, when the only
      table that changed, `m`, lost none of its keys. */
  lemma KeptTableOk(s: Store, r: Store, m: Model, x: Model)
    requires Constraints(s) && x != m
    requires forall y: Model | y != m :: T(r, y) == T(s, y)
    requires T(s, m).Keys <= T(r, m).Keys
    ensures TableOk(r, x)
  {
    assert TableOk(s, x);
    assert T(r, x) == T(s, x);
    assert T(s, User).Keys <= T(r, User).Keys;
    assert T(s, Recipe).Keys <= T(r, Recipe).Keys;
    match x
    case User =>
    case Recipe => ResolvesSameKeys(s, r, Recipe, UserId, User);
    case Tag => ResolvesSameKeys(s, r, Tag, UserId, User);
    case GroceryList => ResolvesSameKeys(s, r, GroceryList, UserId, User);
    case RecipeTagAssoc =>
      assert T(s, Tag).Keys <= T(r, Tag).Keys;
      ResolvesSameKeys(s, r, RecipeTagAssoc, RecipeId, Recipe);
      ResolvesSameKeys(s, r, RecipeTagAssoc, TagId, Tag);
    case Ingredient => ResolvesSameKeys(s, r, Ingredient, RecipeId, Recipe);
    case Step => ResolvesSameKeys(s, r, Step, RecipeId, Recipe);
    case MealPlanItem => ResolvesSameKeys(s, r, MealPlanItem, RecipeId, Recipe);
    case GroceryListItem =>
      assert T(s, GroceryList).Keys <= T(r, GroceryList).Keys;
      ResolvesSameKeys(s, r, GroceryListItem, GroceryListId, GroceryList);
  }

  /** Putting a shaped row under its own id keeps a table's rows shaped. */
  lemma RowPutShaped(t: Table, m: Model, k: int, row: Row)
    requires forall j | j in t :: Shaped(m, t[j]) && (Keyed(m) ==> t[j][Id] == VInt(j))
    requires Shaped(m, row) && (Keyed(m) ==> row[Id] == VInt(k))
    ensures forall j | j in t[k := row] :: Shaped(m, t[k := row][j]) && (Keyed(m) ==> t[k := row][j][Id] == VInt(j))
  {
  }

  /** Replacing one table without unique keys by a consistent table that keeps all its keys
      keeps every constraint. */
  lemma OneTableEdited(s: Store, m: Model, t: Table)
    requires Constraints(s) && m !in {User, Tag, RecipeTagAssoc}
    requires T(s, m).Keys <= t.Keys && TableOk(With(s, m, t), m)
    ensures Constraints(With(s, m, t))
  {
    var r := With(s, m, t);
    UniqueKept(s, m, t);
    forall x: Model | x != m ensures TableOk(r, x) {
      KeptTableOk(s, r, m, x);
    }
  }

  /** Replacing a table without a unique key keeps the unique keys unique. */
  lemma UniqueKept(s: Store, m: Model, t: Table)
    requires UniqueOk(s) && m !in {User, Tag, RecipeTagAssoc}
    ensures UniqueOk(With(s, m, t))
  {
    var r := With(s, m, t);
    assert T(r, User) == T(s, User) && T(r, Tag) == T(s, Tag) && T(r, RecipeTagAssoc) == T(s, RecipeTagAssoc);
  }
}
