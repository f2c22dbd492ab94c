/** The entity store of src/server/storage/models.py: the nine mapped classes as a table of
    columns, the relational store as one map from primary key to row per class, the attributes
    that are derived rather than stored (`User.user_id`, the association proxies), the store's
    constraints, and what deleting a row cascades to. */
module Models {
  import opened Common

  datatype Model =
    | User | Recipe | Tag | RecipeTagAssoc | Ingredient | Step | MealPlanItem | GroceryList | GroceryListItem

  /** Every attribute name the mapped classes declare: columns first, then relationships. */
  datatype Field =
    | Id | Username | HashedPassword | Role | UserId
    | Name | ImageUrl | Source | Servings | ServingsType | PrepTime | CookTime | Description | Nutrition | Favorite
    | RecipeId | TagId
    | Quantity | Unit | Comment | Input | Position
    | Text
    | Date | MealType
    | ExtraItems
    | GroceryListId | Active | RecipeName
    // relationships
    | Ingredients | Steps | Tags | Recipes | GroceryListItems | ParentRecipe | ParentList

  /** A row: one value per column. */
  type Row = map<Field, Value>
  /** A table: rows by primary key (a surrogate key for the association table, which has none). */
  type Table = map<int, Row>

  /** The relational store: one table per mapped class (a class without a table has no rows). */
  datatype Store = Store(tables: map<Model, Table>)

  const EmptyStore := Store(map[])

  /** The table of class `m`. */
  function T(s: Store, m: Model): Table {
    if m in s.tables then s.tables[m] else map[]
  }

  /** `s` with the table of class `m` replaced. */
  function With(s: Store, m: Model, t: Table): (r: Store)
    ensures T(r, m) == t
    ensures forall m' | m' != m :: T(r, m') == T(s, m')
  {
    Store(s.tables[m := t])
  }

  /** `model_cls.__name__`. */
  function ModelName(m: Model): string {
    match m
    case User => "User"
    case Recipe => "Recipe"
    case Tag => "Tag"
    case RecipeTagAssoc => "RecipeTagAssoc"
    case Ingredient => "Ingredient"
    case Step => "Step"
    case MealPlanItem => "MealPlanItem"
    case GroceryList => "GroceryList"
    case GroceryListItem => "GroceryListItem"
  }

  /** The mapped columns of each class (`inspect(model_cls).columns`). */
  function Columns(m: Model): set<Field> {
    match m
    case User => {Id, Username, HashedPassword, Role}
    case Recipe => {Id, Name, ImageUrl, Source, Servings, ServingsType, PrepTime, CookTime, Description, Nutrition, Favorite, UserId}
    case Tag => {Id, Name, UserId}
    case RecipeTagAssoc => {RecipeId, TagId}
    case Ingredient => {Id, RecipeId, Quantity, Unit, Name, Comment, Input, Position}
    case Step => {Id, RecipeId, Text, Position}
    case MealPlanItem => {Id, RecipeId, Date, Servings, MealType}
    case GroceryList => {Id, ExtraItems, UserId}
    case GroceryListItem => {Id, GroceryListId, Active, Quantity, Unit, Name, Comment, RecipeName, Servings, ExtraItems}
  }

  /** The list-valued relationships (`InstrumentedList` attributes). */
  function ListRelations(m: Model): set<Field> {
    match m
    case Recipe => {Ingredients, Steps, Tags}
    case Tag => {Recipes}
    case GroceryList => {GroceryListItems}
    case _ => {}
  }

  /** Where the members of a list-valued relationship live: their class and the column pointing
      back at the owning row (for `Recipe.tags` and `Tag.recipes`, the rows of the association
      table). */
  function ChildOf(m: Model, rel: Field): (Model, Field)
    requires rel in ListRelations(m)
  {
    match rel
    case Ingredients => (Ingredient, RecipeId)
    case Steps => (Step, RecipeId)
    case Tags => (RecipeTagAssoc, RecipeId)
    case Recipes => (RecipeTagAssoc, TagId)
    case _ => (GroceryListItem, GroceryListId)
  }

  /** Columns declared `Optional[...]`, the only nullable ones. */
  predicate Nullable(m: Model, f: Field) {
    (m == Recipe && f == ImageUrl) || ((m == Ingredient || m == GroceryListItem) && (f == Unit || f == Comment))
  }

  /** Column defaults. */
  function Default(m: Model, f: Field): Option<Value> {
    match (m, f)
    case (Recipe, Source) => Some(VStr(""))
    case (Recipe, Servings) => Some(VInt(1))
    case (Recipe, ServingsType) => Some(VStr(""))
    case (Recipe, PrepTime) => Some(VInt(0))
    case (Recipe, CookTime) => Some(VInt(0))
    case (Recipe, Description) => Some(VStr(""))
    case (Recipe, Nutrition) => Some(VStr(""))
    case (Recipe, Favorite) => Some(VBool(false))
    case (Ingredient, Quantity) => Some(VInt(1))
    case (MealPlanItem, MealType) => Some(VStr("Dinner"))
    case (GroceryList, ExtraItems) => Some(VStr(""))
    case (GroceryListItem, Active) => Some(VBool(false))
    case _ => None
  }

  /** Every class but the association table has an integer primary key `id`. */
  predicate Keyed(m: Model) {
    m != RecipeTagAssoc
  }

  /** The condition `StorageManager.create` tests before stamping the owner. */
  predicate HasUserIdColumn(m: Model) {
    UserId in Columns(m)
  }

  function Lookup(row: Row, f: Field): Option<Value> {
    if f in row then Some(row[f]) else None
  }

  /** The owner through a parent row: `association_proxy(parent, "user_id")`. */
  function Through(s: Store, row: Row, fk: Field, parent: Model): Option<Value> {
    if fk in row && row[fk].VInt? && row[fk].i in T(s, parent) then Lookup(T(s, parent)[row[fk].i], UserId)
    else None
  }

  /** Reading attribute `f` of a row of class `m`, including the derived ones: `User.user_id` is a
      synonym of `id`; Ingredient, Step and MealPlanItem proxy `user_id` through their recipe,
      GroceryListItem through its grocery list. */
  function ReadAttr(s: Store, m: Model, row: Row, f: Field): Option<Value> {
    if f == UserId && m == User then Lookup(row, Id)
    else if f == UserId && (m == Ingredient || m == Step || m == MealPlanItem) then Through(s, row, RecipeId, Recipe)
    else if f == UserId && m == GroceryListItem then Through(s, row, GroceryListId, GroceryList)
    else if f in Columns(m) then Lookup(row, f)
    else None
  }

  /** The (possibly derived) `user_id` of a row. */
  function Owner(s: Store, m: Model, row: Row): Option<Value> {
    ReadAttr(s, m, row, UserId)
  }

  // ---------------------------------------------------------------- constraints

  /** A row holds exactly the class's columns, and NULL only where the column is nullable. */
  predicate Shaped(m: Model, row: Row) {
    row.Keys == Columns(m) && forall f | f in row :: row[f] == VNull ==> Nullable(m, f)
  }

  predicate Resolves(s: Store, v: Value, parent: Model) {
    v.VInt? && v.i in T(s, parent)
  }

  /** Every row of `m` is shaped and sits under its own id. */
  predicate TableShaped(s: Store, m: Model) {
    forall k | k in T(s, m) :: Shaped(m, T(s, m)[k]) && (Keyed(m) ==> T(s, m)[k][Id] == VInt(k))
  }

  /** Column `f` of every row of `m` refers to an existing row of `parent`. */
  predicate AllResolve(s: Store, m: Model, f: Field, parent: Model) {
    forall k | k in T(s, m) :: f in T(s, m)[k] && Resolves(s, T(s, m)[k][f], parent)
  }

  /** The foreign keys of `m` (all declared `ondelete="CASCADE"`) point at existing rows. */
  predicate RefsOk(s: Store, m: Model) {
    match m
    case User => true
    case Recipe => AllResolve(s, Recipe, UserId, User)
    case Tag => AllResolve(s, Tag, UserId, User)
    case GroceryList => AllResolve(s, GroceryList, UserId, User)
    case RecipeTagAssoc => AllResolve(s, RecipeTagAssoc, RecipeId, Recipe) && AllResolve(s, RecipeTagAssoc, TagId, Tag)
    case Ingredient => AllResolve(s, Ingredient, RecipeId, Recipe)
    case Step => AllResolve(s, Step, RecipeId, Recipe)
    case MealPlanItem => AllResolve(s, MealPlanItem, RecipeId, Recipe)
    case GroceryListItem => AllResolve(s, GroceryListItem, GroceryListId, GroceryList)
  }

  predicate TableOk(s: Store, m: Model) {
    TableShaped(s, m) && RefsOk(s, m)
  }

  /** No two rows of `t` agree on column `f` (`unique=True`). */
  predicate UniqueOn(t: Table, f: Field) {
    forall k1, k2 | k1 in t && k2 in t && k1 != k2 && f in t[k1] && f in t[k2] :: t[k1][f] != t[k2][f]
  }

  /** The association table's composite primary key (recipe_id, tag_id). */
  predicate PairUnique(t: Table) {
    forall k1, k2 | k1 in t && k2 in t && k1 != k2 && RecipeId in t[k1] && RecipeId in t[k2] && TagId in t[k1] && TagId in t[k2] ::
      t[k1][RecipeId] != t[k2][RecipeId] || t[k1][TagId] != t[k2][TagId]
  }

  /** The unique constraints: usernames, tag names and association pairs. */
  predicate UniqueOk(s: Store) {
    UniqueOn(T(s, User), Username) && UniqueOn(T(s, Tag), Name) && PairUnique(T(s, RecipeTagAssoc))
  }

  /** What the database enforces at every flush. */
  predicate Constraints(s: Store) {
    && TableOk(s, User) && TableOk(s, Recipe) && TableOk(s, Tag) && TableOk(s, RecipeTagAssoc)
    && TableOk(s, Ingredient) && TableOk(s, Step) && TableOk(s, MealPlanItem)
    && TableOk(s, GroceryList) && TableOk(s, GroceryListItem)
    && UniqueOk(s)
  }

  // ---------------------------------------------------------------- construction

  /** `row` holds every value `data` gives. */
  predicate Extends(row: Row, data: Row) {
    forall f | f in data :: f in row && row[f] == data[f]
  }

  /** `model_cls(**data)` followed by the INSERT: every keyword must name a column, columns left
      out take their default or NULL, and `id` takes the autoincremented `key` unless given. */
  function Build(m: Model, data: Row, key: int): (r: Result<Row>)
    ensures r.Ok? <==> data.Keys <= Columns(m)
    ensures r.Ok? ==> r.value.Keys == Columns(m)
    ensures r.Ok? ==> forall f | f in data :: r.value[f] == data[f]
    ensures r.Ok? && Keyed(m) && Id !in data ==> r.value[Id] == VInt(key)
  {
    if !(data.Keys <= Columns(m)) then Err(InvalidKeyword)
    else Ok(map f | f in Columns(m) ::
              if f in data then data[f]
              else if f == Id then VInt(key)
              else Default(m, f).GetOr(VNull))
  }

  // ---------------------------------------------------------------- cascades

  /** Whether column `f` of `row` refers to one of `ids`. */
  predicate RefersTo(row: Row, f: Field, ids: set<int>) {
    f in row && row[f].VInt? && row[f].i in ids
  }

  function Without(t: Table, ids: set<int>): (r: Table)
    ensures forall k :: k in r <==> k in t && k !in ids
    ensures forall k | k in r :: r[k] == t[k]
  {
    map k | k in t && k !in ids :: t[k]
  }

  function DropRefs(t: Table, f: Field, ids: set<int>): (r: Table)
    ensures forall k :: k in r <==> k in t && !RefersTo(t[k], f, ids)
    ensures forall k | k in r :: r[k] == t[k]
  {
    map k | k in t && !RefersTo(t[k], f, ids) :: t[k]
  }

  /** The keys of the rows of `t` whose column `f` refers to `id`. */
  function RefKeys(t: Table, f: Field, id: int): set<int> {
    set k | k in t && RefersTo(t[k], f, {id})
  }

  /** Deleting recipes removes their ingredients and steps (delete-orphan) and, through the
      foreign keys, their meal-plan items and tag associations. */
  function DeleteRecipes(s: Store, ids: set<int>): (r: Store)
    ensures T(r, Recipe) == Without(T(s, Recipe), ids)
    ensures T(r, Ingredient) == DropRefs(T(s, Ingredient), RecipeId, ids)
    ensures T(r, Step) == DropRefs(T(s, Step), RecipeId, ids)
    ensures T(r, MealPlanItem) == DropRefs(T(s, MealPlanItem), RecipeId, ids)
    ensures T(r, RecipeTagAssoc) == DropRefs(T(s, RecipeTagAssoc), RecipeId, ids)
    ensures forall x | x !in {Recipe, Ingredient, Step, MealPlanItem, RecipeTagAssoc} :: T(r, x) == T(s, x)
  {
    Store(map x | x in s.tables.Keys + {Recipe, Ingredient, Step, MealPlanItem, RecipeTagAssoc} :: RecipesPruned(s, ids, x))
  }

  /** The table of class `x` once the recipes `ids` are deleted. */
  function RecipesPruned(s: Store, ids: set<int>, x: Model): Table {
    match x
    case Recipe => Without(T(s, Recipe), ids)
    case Ingredient => DropRefs(T(s, Ingredient), RecipeId, ids)
    case Step => DropRefs(T(s, Step), RecipeId, ids)
    case MealPlanItem => DropRefs(T(s, MealPlanItem), RecipeId, ids)
    case RecipeTagAssoc => DropRefs(T(s, RecipeTagAssoc), RecipeId, ids)
    case _ => T(s, x)
  }

  /** Deleting tags removes their associations. */
  function DeleteTags(s: Store, ids: set<int>): (r: Store)
    ensures T(r, Tag) == Without(T(s, Tag), ids)
    ensures T(r, RecipeTagAssoc) == DropRefs(T(s, RecipeTagAssoc), TagId, ids)
    ensures T(r, User) == T(s, User) && T(r, Recipe) == T(s, Recipe)
    ensures T(r, Ingredient) == T(s, Ingredient) && T(r, Step) == T(s, Step) && T(r, MealPlanItem) == T(s, MealPlanItem)
    ensures T(r, GroceryList) == T(s, GroceryList) && T(r, GroceryListItem) == T(s, GroceryListItem)
  {
    var tables := s.tables[Tag := Without(T(s, Tag), ids)]
                          [RecipeTagAssoc := DropRefs(T(s, RecipeTagAssoc), TagId, ids)];
    assert forall x | x !in {Tag, RecipeTagAssoc} ::
      (x in tables <==> x in s.tables) && (x in tables ==> tables[x] == s.tables[x]);
    Store(tables)
  }

  /** Deleting grocery lists removes their items. */
  function DeleteGroceryLists(s: Store, ids: set<int>): (r: Store)
    ensures T(r, GroceryList) == Without(T(s, GroceryList), ids)
    ensures T(r, GroceryListItem) == DropRefs(T(s, GroceryListItem), GroceryListId, ids)
    ensures T(r, User) == T(s, User) && T(r, Recipe) == T(s, Recipe) && T(r, Tag) == T(s, Tag)
    ensures T(r, RecipeTagAssoc) == T(s, RecipeTagAssoc)
    ensures T(r, Ingredient) == T(s, Ingredient) && T(r, Step) == T(s, Step) && T(r, MealPlanItem) == T(s, MealPlanItem)
  {
    var tables := s.tables[GroceryList := Without(T(s, GroceryList), ids)]
                          [GroceryListItem := DropRefs(T(s, GroceryListItem), GroceryListId, ids)];
    assert forall x | x !in {GroceryList, GroceryListItem} ::
      (x in tables <==> x in s.tables) && (x in tables ==> tables[x] == s.tables[x]);
    Store(tables)
  }

  /** `db.delete(row)` and everything the database cascades to. */
  function DeleteRow(s: Store, m: Model, k: int): Store {
    match m
    case User =>
      var s1 := DeleteRecipes(s, RefKeys(T(s, Recipe), UserId, k));
      var s2 := DeleteTags(s1, RefKeys(T(s, Tag), UserId, k));
      var s3 := DeleteGroceryLists(s2, RefKeys(T(s, GroceryList), UserId, k));
      With(s3, User, Without(T(s, User), {k}))
    case Recipe => DeleteRecipes(s, {k})
    case Tag => DeleteTags(s, {k})
    case GroceryList => DeleteGroceryLists(s, {k})
    case _ => With(s, m, Without(T(s, m), {k}))
  }
}
