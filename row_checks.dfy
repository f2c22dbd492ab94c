/** What makes the flush of one new row succeed, stated on the row and the store rather than on
    the flush: the row fills every NOT NULL column, its foreign keys point at existing rows, it
    repeats no value of a unique column, and it goes under a key no row uses. The autoincrement
    sequence never hands out a key in use as long as it is ahead of every key. */
module RowChecks {
  import opened Common
  import opened Models
  import opened ModelFacts
  import opened TableEdits

  /** The sequence that draws keys is past every key in use. */
  ghost predicate Ahead(s: Store, next: int) {
    forall x: Model, k | k in T(s, x) :: k < next
  }

  /** Every NOT NULL column but the key gets a value that is not NULL: the one `data` gives, or
      the column's default. */
  predicate Fills(m: Model, data: Row) {
    forall f | f in Columns(m) && f != Id && !Nullable(m, f) ::
      if f in data then data[f] != VNull else Default(m, f).Some?
  }

  /** The foreign keys of a new row of class `m` point at rows of `s`. */
  predicate RowRefsOk(s: Store, m: Model, row: Row) {
    match m
    case User => true
    case Recipe => UserId in row && Resolves(s, row[UserId], User)
    case Tag => UserId in row && Resolves(s, row[UserId], User)
    case GroceryList => UserId in row && Resolves(s, row[UserId], User)
    case RecipeTagAssoc =>
      RecipeId in row && Resolves(s, row[RecipeId], Recipe) && TagId in row && Resolves(s, row[TagId], Tag)
    case Ingredient => RecipeId in row && Resolves(s, row[RecipeId], Recipe)
    case Step => RecipeId in row && Resolves(s, row[RecipeId], Recipe)
    case MealPlanItem => RecipeId in row && Resolves(s, row[RecipeId], Recipe)
    case GroceryListItem => GroceryListId in row && Resolves(s, row[GroceryListId], GroceryList)
  }

  /** A new row of class `m` repeats no user name, tag name or (recipe, tag) pair of `s`. */
  predicate RowUnique(s: Store, m: Model, row: Row) {
    match m
    case User => forall j | j in T(s, User) :: Lookup(T(s, User)[j], Username) != Lookup(row, Username)
    case Tag => forall j | j in T(s, Tag) :: Lookup(T(s, Tag)[j], Name) != Lookup(row, Name)
    case RecipeTagAssoc => forall j | j in T(s, RecipeTagAssoc) ::
      Lookup(T(s, RecipeTagAssoc)[j], RecipeId) != Lookup(row, RecipeId) || Lookup(T(s, RecipeTagAssoc)[j], TagId) != Lookup(row, TagId)
    case _ => true
  }

  /** Every column default is a value, never NULL. */
  lemma DefaultNotNull(m: Model, f: Field)
    ensures Default(m, f).Some? ==> Default(m, f).value != VNull
  {
  }

  /** The row a class constructor builds from `data` that names only columns, leaves out the key
      and fills every NOT NULL column is shaped and carries the drawn key. */
  lemma BuiltShaped(m: Model, data: Row, next: int)
    requires data.Keys <= Columns(m) && Id !in data && Fills(m, data)
    ensures Build(m, data, next).Ok?
    ensures var row := Build(m, data, next).value;
      Shaped(m, row) && (Keyed(m) ==> row[Id] == VInt(next)) && Extends(row, data)
  {
    var row := Build(m, data, next).value;
    forall f | f in row && row[f] == VNull ensures Nullable(m, f) {
      DefaultNotNull(m, f);
    }
  }

  /** The built row keeps the references and the unique values `data` gives. */
  lemma BuiltChecks(s: Store, m: Model, data: Row, row: Row)
    requires Extends(row, data) && RowRefsOk(s, m, data) && RowUnique(s, m, data) && Fills(m, data)
    ensures RowRefsOk(s, m, row) && RowUnique(s, m, row)
  {
    match m
    case User =>
      assert Username in Columns(User) && !Nullable(User, Username) && Default(User, Username).None?;
      assert Username in data && Lookup(row, Username) == Lookup(data, Username);
    case Tag =>
      assert Name in Columns(Tag) && !Nullable(Tag, Name) && Default(Tag, Name).None?;
      assert Name in data && Lookup(row, Name) == Lookup(data, Name);
      assert row[UserId] == data[UserId];
    case RecipeTagAssoc =>
      assert Lookup(row, RecipeId) == Lookup(data, RecipeId) && Lookup(row, TagId) == Lookup(data, TagId);
      assert row[RecipeId] == data[RecipeId] && row[TagId] == data[TagId];
    case Recipe => assert row[UserId] == data[UserId];
    case GroceryList => assert row[UserId] == data[UserId];
    case Ingredient => assert row[RecipeId] == data[RecipeId];
    case Step => assert row[RecipeId] == data[RecipeId];
    case MealPlanItem => assert row[RecipeId] == data[RecipeId];
    case GroceryListItem => assert row[GroceryListId] == data[GroceryListId];
  }

  /** Column `f` of table `m` still resolves once row `k` is put in, when its value resolves and
      the parent table is not `m`. */
  lemma ResolvesWithRow(s: Store, c: Store, m: Model, f: Field, parent: Model, k: int, row: Row)
    requires AllResolve(s, m, f, parent) && parent != m
    requires T(c, m) == T(s, m)[k := row] && T(c, parent) == T(s, parent)
    requires f in row && Resolves(s, row[f], parent)
    ensures AllResolve(c, m, f, parent)
  {
  }

  /** The references of table `m` keep resolving once a row whose references resolve is put in. */
  lemma RefsWithRow(s: Store, c: Store, m: Model, k: int, row: Row)
    requires Constraints(s) && RowRefsOk(s, m, row)
    requires T(c, m) == T(s, m)[k := row] && forall x: Model | x != m :: T(c, x) == T(s, x)
    ensures RefsOk(c, m)
  {
    assert TableOk(s, m);
    match m
    case User =>
    case Recipe => ResolvesWithRow(s, c, m, UserId, User, k, row);
    case Tag => ResolvesWithRow(s, c, m, UserId, User, k, row);
    case GroceryList => ResolvesWithRow(s, c, m, UserId, User, k, row);
    case RecipeTagAssoc =>
      ResolvesWithRow(s, c, m, RecipeId, Recipe, k, row);
      ResolvesWithRow(s, c, m, TagId, Tag, k, row);
    case Ingredient => ResolvesWithRow(s, c, m, RecipeId, Recipe, k, row);
    case Step => ResolvesWithRow(s, c, m, RecipeId, Recipe, k, row);
    case MealPlanItem => ResolvesWithRow(s, c, m, RecipeId, Recipe, k, row);
    case GroceryListItem => ResolvesWithRow(s, c, m, GroceryListId, GroceryList, k, row);
  }

  /** A column stays unique once a row under a new key with a value no row has is put in. */
  lemma UniqueWithRow(t: Table, f: Field, k: int, row: Row)
    requires UniqueOn(t, f) && k !in t
    requires forall j | j in t :: Lookup(t[j], f) != Lookup(row, f)
    ensures UniqueOn(t[k := row], f)
  {
    var t' := t[k := row];
    forall k1, k2 | k1 in t' && k2 in t' && k1 != k2 && f in t'[k1] && f in t'[k2] ensures t'[k1][f] != t'[k2][f] {
      if k1 == k {
        assert Lookup(t[k2], f) != Lookup(row, f);
      } else if k2 == k {
        assert Lookup(t[k1], f) != Lookup(row, f);
      }
    }
  }

  /** The (recipe, tag) pairs stay unique once a row with a pair no row has is put in. */
  lemma PairsWithRow(t: Table, k: int, row: Row)
    requires PairUnique(t) && k !in t
    requires forall j | j in t :: Lookup(t[j], RecipeId) != Lookup(row, RecipeId) || Lookup(t[j], TagId) != Lookup(row, TagId)
    ensures PairUnique(t[k := row])
  {
    var t' := t[k := row];
    forall k1, k2 | k1 in t' && k2 in t' && k1 != k2 && RecipeId in t'[k1] && RecipeId in t'[k2] && TagId in t'[k1] && TagId in t'[k2]
      ensures t'[k1][RecipeId] != t'[k2][RecipeId] || t'[k1][TagId] != t'[k2][TagId]
    {
      if k1 == k {
        assert Lookup(t[k2], RecipeId) != Lookup(row, RecipeId) || Lookup(t[k2], TagId) != Lookup(row, TagId);
      } else if k2 == k {
        assert Lookup(t[k1], RecipeId) != Lookup(row, RecipeId) || Lookup(t[k1], TagId) != Lookup(row, TagId);
      }
    }
  }

  /** The unique keys stay unique once a row that repeats none of them is put in. */
  lemma UniqueAfterRow(s: Store, m: Model, k: int, row: Row)
    requires UniqueOk(s) && k !in T(s, m) && RowUnique(s, m, row)
    ensures UniqueOk(With(s, m, T(s, m)[k := row]))
  {
    var c := With(s, m, T(s, m)[k := row]);
    match m
    case User => UniqueWithRow(T(s, User), Username, k, row);
    case Tag => UniqueWithRow(T(s, Tag), Name, k, row);
    case RecipeTagAssoc => PairsWithRow(T(s, RecipeTagAssoc), k, row);
    case _ => UniqueKept(s, m, T(s, m)[k := row]);
  }

  /** A consistent store stays consistent once a shaped row, under a key no row of its class
      uses and with its own id, whose references resolve and which repeats no unique value, is
      put in. */
  lemma StagedOk(s: Store, m: Model, k: int, row: Row)
    requires Constraints(s) && k !in T(s, m)
    requires Shaped(m, row) && (Keyed(m) ==> row[Id] == VInt(k))
    requires RowRefsOk(s, m, row) && RowUnique(s, m, row)
    ensures Constraints(With(s, m, T(s, m)[k := row]))
  {
    var c := With(s, m, T(s, m)[k := row]);
    UniqueAfterRow(s, m, k, row);
    PutOk(s, c, m, k, row);
  }

  lemma PutOk(s: Store, c: Store, m: Model, k: int, row: Row)
    requires Constraints(s) && UniqueOk(c)
    requires Shaped(m, row) && (Keyed(m) ==> row[Id] == VInt(k))
    requires RowRefsOk(s, m, row)
    requires T(c, m) == T(s, m)[k := row] && forall x: Model | x != m :: T(c, x) == T(s, x)
    ensures Constraints(c)
  {
    PutTableOk(s, c, m, k, row);
    OthersOk(s, c, m);
    AllTablesOk(c, m);
  }

  /** Table `m` itself stays consistent once the row is put in. */
  lemma PutTableOk(s: Store, c: Store, m: Model, k: int, row: Row)
    requires Constraints(s)
    requires Shaped(m, row) && (Keyed(m) ==> row[Id] == VInt(k))
    requires RowRefsOk(s, m, row)
    requires T(c, m) == T(s, m)[k := row] && forall x: Model | x != m :: T(c, x) == T(s, x)
    ensures TableOk(c, m)
  {
    TablesShaped(s, m);
    RowPutShaped(T(s, m), m, k, row);
    RefsWithRow(s, c, m, k, row);
  }

  /** The tables other than `m` stay consistent when only `m` changed, keeping its keys. */
  lemma OthersOk(s: Store, c: Store, m: Model)
    requires Constraints(s)
    requires T(s, m).Keys <= T(c, m).Keys && forall x: Model | x != m :: T(c, x) == T(s, x)
    ensures forall x: Model | x != m :: TableOk(c, x)
  {
    forall x: Model | x != m ensures TableOk(c, x) {
      KeptTableOk(s, c, m, x);
    }
  }

  /** Every table is consistent when `m` is and every other one is. */
  lemma AllTablesOk(c: Store, m: Model)
    requires TableOk(c, m) && UniqueOk(c)
    requires forall x: Model | x != m :: TableOk(c, x)
    ensures Constraints(c)
  {
    assert TableOk(c, User) && TableOk(c, Recipe) && TableOk(c, Tag) && TableOk(c, RecipeTagAssoc);
    assert TableOk(c, Ingredient) && TableOk(c, Step) && TableOk(c, MealPlanItem);
    assert TableOk(c, GroceryList) && TableOk(c, GroceryListItem);
  }

  /** A store whose tables only lost rows keeps the sequence ahead. */
  lemma AheadShrinks(s: Store, s': Store, next: int)
    requires Ahead(s, next)
    requires forall x: Model :: T(s', x).Keys <= T(s, x).Keys
    ensures Ahead(s', next)
  {
  }

  /** Drawing `next` for a new row of class `m` keeps the sequence, now at `next + 1`, ahead. */
  lemma AheadGrows(s: Store, s': Store, m: Model, next: int)
    requires Ahead(s, next)
    requires T(s', m).Keys == T(s, m).Keys + {next}
    requires forall x: Model | x != m :: T(s', x) == T(s, x)
    ensures Ahead(s', next + 1)
  {
  }
}
